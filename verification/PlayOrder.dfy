// The shuffled play order that every consumer of a frame's photos advances.
module PlayOrder {
  import opened FiniteSets
  import opened Wrappers

  datatype PhotoRef = PhotoRef(sourceId: string, itemId: string, mimeType: string)

  datatype Pool = Pool(items: seq<PhotoRef>, order: seq<nat>, cursor: nat)

  /** What shuffling `range(n)` can give. */
  ghost predicate IsPermutation(order: seq<nat>, n: nat) {
    && |order| == n
    && (forall i :: 0 <= i < n ==> order[i] < n)
    && Distinct(order)
  }

  ghost predicate Valid(p: Pool) {
    p.items != [] ==> IsPermutation(p.order, |p.items|) && p.cursor <= |p.order|
  }

  predicate NeedsShuffle(p: Pool) {
    p.order == [] || p.cursor >= |p.order|
  }

  ghost predicate Reshuffled(p: Pool, q: Pool) {
    q.items == p.items && IsPermutation(q.order, |p.items|) && q.cursor == 0
  }

  /** One advance, whatever the shuffle deals. */
  ghost predicate Advanced(p: Pool, r: Option<PhotoRef>, q: Pool) {
    if p.items == [] then r == None && q == p
    else
      && q.items == p.items
      && (if NeedsShuffle(p) then IsPermutation(q.order, |p.items|) && q.cursor == 1
          else q.order == p.order && q.cursor == p.cursor + 1)
      && 0 < q.cursor <= |q.order| && q.order[q.cursor - 1] < |p.items|
      && r == Some(p.items[q.order[q.cursor - 1]])
  }

  function SteppedBack(p: Pool): Pool {
    p.(cursor := if p.cursor >= 2 then p.cursor - 2 else 0)
  }

  ghost predicate WentBack(p: Pool, r: Option<PhotoRef>, q: Pool) {
    if p.items == [] || p.order == [] then r == None && q == p
    else Advanced(SteppedBack(p), r, q)
  }

  /** The same advance, told which order a shuffle would deal. */
  ghost function Drawn(p: Pool, dealt: seq<nat>): (d: (Option<PhotoRef>, Pool))
    requires Valid(p) && IsPermutation(dealt, |p.items|)
    ensures Advanced(p, d.0, d.1) && Valid(d.1)
  {
    if p.items == [] then (None, p)
    else
      var q := if NeedsShuffle(p) then Pool(p.items, dealt, 0) else p;
      (Some(p.items[q.order[q.cursor]]), q.(cursor := q.cursor + 1))
  }

  ghost function DrawnBack(p: Pool, dealt: seq<nat>): (d: (Option<PhotoRef>, Pool))
    requires Valid(p) && IsPermutation(dealt, |p.items|)
    ensures WentBack(p, d.0, d.1) && Valid(d.1)
  {
    if p.items == [] || p.order == [] then (None, p) else Drawn(SteppedBack(p), dealt)
  }

  class PhotoPool {
    var items: seq<PhotoRef>
    var order: seq<nat>
    var cursor: nat

    function State(): Pool
      reads this
    {
      Pool(items, order, cursor)
    }

    constructor ()
      ensures State() == Pool([], [], 0)
    {
      items, order, cursor := [], [], 0;
    }

    /** Take up the order the random shuffle dealt, whichever it is. */
    method Reshuffle(dealt: seq<nat>)
      requires IsPermutation(dealt, |items|)
      modifies this
      ensures Reshuffled(old(State()), State()) && order == dealt
    {
      order := dealt;
      cursor := 0;
    }

    /** `dealt` is what the shuffle would deal, should it be needed. */
    method Advance(dealt: seq<nat>) returns (r: Option<PhotoRef>)
      requires Valid(State()) && IsPermutation(dealt, |items|)
      modifies this
      ensures (r, State()) == Drawn(old(State()), dealt)
    {
      if items == [] {
        return None;
      }
      if order == [] || cursor >= |order| {
        Reshuffle(dealt);
      }
      r := Some(items[order[cursor]]);
      cursor := cursor + 1;
    }

    method Previous(dealt: seq<nat>) returns (r: Option<PhotoRef>)
      requires Valid(State()) && IsPermutation(dealt, |items|)
      modifies this
      ensures (r, State()) == DrawnBack(old(State()), dealt)
    {
      if items == [] || order == [] {
        return None;
      }
      cursor := if cursor >= 2 then cursor - 2 else 0;
      r := Advance(dealt);
    }

    /** The coordinator's replacement of the photos after a refresh. */
    method Replace(replacement: seq<PhotoRef>, dealt: seq<nat>)
      requires IsPermutation(dealt, |replacement|)
      modifies this
      ensures State() == Pool(replacement, dealt, 0) && Valid(State())
    {
      items := replacement;
      Reshuffle(dealt);
    }

    /** An empty refresh of the bundled source: the old order is left lying about. */
    method Drain()
      modifies this
      ensures State() == old(State()).(items := []) && Valid(State())
    {
      items := [];
    }
  }

  // Whole runs.

  datatype Event =
    | Replaced(replacement: seq<PhotoRef>)
    | Drained
    | Next(shown: Option<PhotoRef>)
    | Back(shown: Option<PhotoRef>)

  ghost predicate Follows(p: Pool, e: Event, q: Pool) {
    match e
    case Replaced(replacement) => Reshuffled(p.(items := replacement), q)
    case Drained => q == p.(items := [])
    case Next(r) => Advanced(p, r, q)
    case Back(r) => WentBack(p, r, q)
  }

  ghost predicate IsRun(states: seq<Pool>, events: seq<Event>) {
    && |states| == |events| + 1
    && forall k :: 0 <= k < |events| ==> Follows(states[k], events[k], states[k + 1])
  }

  lemma StepKeepsValid(p: Pool, e: Event, q: Pool)
    requires Valid(p) && Follows(p, e, q)
    ensures Valid(q)
    ensures e.Next? || e.Back? ==>
      (e.shown.Some? <==> p.items != []) && (e.shown.Some? ==> e.shown.value in p.items)
  {
    if (e.Next? || e.Back?) && p.items != [] {
      assert q.order[q.cursor - 1] < |p.items|;
      assert e.shown == Some(p.items[q.order[q.cursor - 1]]);
    }
  }

  /** However consumers, refreshes and backward steps interleave, the order stays a
      permutation of the photos and every photo handed out is one of the pool's. */
  lemma {:induction false} OrderStaysAPermutation(states: seq<Pool>, events: seq<Event>, k: nat)
    requires IsRun(states, events) && Valid(states[0]) && k <= |events|
    ensures Valid(states[k])
    ensures k < |events| && (events[k].Next? || events[k].Back?) ==>
      (events[k].shown.Some? <==> states[k].items != [])
      && (events[k].shown.Some? ==> events[k].shown.value in states[k].items)
    decreases k
  {
    if k > 0 {
      OrderStaysAPermutation(states, events, k - 1);
      StepKeepsValid(states[k - 1], events[k - 1], states[k]);
    }
    if k < |events| {
      StepKeepsValid(states[k], events[k], states[k + 1]);
    }
  }

  /** Going back after at least two advances of one order shows the photo before last again. */
  lemma BackShowsThePhotoBefore(p: Pool, a: Option<PhotoRef>, p1: Pool, b: Option<PhotoRef>, p2: Pool,
                                c: Option<PhotoRef>, p3: Pool)
    requires Valid(p) && p.items != [] && Advanced(p, a, p1) && !NeedsShuffle(p1) && Advanced(p1, b, p2)
    requires WentBack(p2, c, p3)
    ensures c == a && p3 == p1
  {
  }

  /** A stretch of going back with the photos fixed. */
  ghost predicate IsWayBack(states: seq<Pool>, shown: seq<PhotoRef>) {
    && |states| == |shown| + 1
    && Valid(states[0]) && states[0].items != [] && 0 < states[0].cursor <= |states[0].order|
    && forall k :: 0 <= k < |shown| ==> WentBack(states[k], Some(shown[k]), states[k + 1])
  }

  /** Going back again and again shows what the order has given in reverse, and when it
      gets to the order's first photo it stays there. */
  lemma {:induction false} BackRetracesTheOrder(states: seq<Pool>, shown: seq<PhotoRef>, k: nat)
    requires IsWayBack(states, shown) && k <= |shown|
    ensures var p, q := states[0], states[k];
      var place := if p.cursor > k then p.cursor - k else 1;
      && q == p.(cursor := place)
      && place <= |p.order| && p.order[place - 1] < |p.items|
      && (k > 0 ==> shown[k - 1] == p.items[p.order[place - 1]])
    decreases k
  {
    if k > 0 {
      BackRetracesTheOrder(states, shown, k - 1);
    }
  }

  // Nothing repeats until everything has been shown.

  /** A stretch of advances with the photos fixed. */
  ghost predicate IsPlay(states: seq<Pool>, shown: seq<PhotoRef>) {
    && |states| == |shown| + 1
    && Valid(states[0]) && states[0].items != []
    && forall k :: 0 <= k < |shown| ==> Advanced(states[k], Some(shown[k]), states[k + 1])
  }

  lemma {:induction false} PlayKeepsValid(states: seq<Pool>, shown: seq<PhotoRef>, k: nat)
    requires IsPlay(states, shown) && k <= |shown|
    ensures Valid(states[k]) && states[k].items == states[0].items
    decreases k
  {
    if k > 0 {
      PlayKeepsValid(states, shown, k - 1);
    }
  }

  ghost predicate AtEpochStart(p: Pool) {
    NeedsShuffle(p) || p.cursor == 0
  }

  /** `shown` from `at` on is `items` in the first `m` places of `order`. */
  ghost predicate FollowsOrder(
      shown: seq<PhotoRef>, at: nat, m: nat, order: seq<nat>, items: seq<PhotoRef>)
    requires at + m <= |shown| && m <= |order|
  {
    forall k :: 0 <= k < m ==> order[k] < |items| && shown[at + k] == items[order[k]]
  }

  /** From the start of an epoch, the first `m` photos follow one order. */
  lemma {:induction false} EpochFollowsOneOrder(states: seq<Pool>, shown: seq<PhotoRef>, at: nat, m: nat)
    requires IsPlay(states, shown) && 0 < m <= |states[0].items| && at + m <= |shown|
    requires AtEpochStart(states[at])
    ensures states[at + m].cursor == m
    ensures IsPermutation(states[at + m].order, |states[0].items|)
    ensures FollowsOrder(shown, at, m, states[at + m].order, states[0].items)
    decreases m
  {
    PlayKeepsValid(states, shown, at);
    PlayKeepsValid(states, shown, at + m - 1);
    assert Advanced(states[at + m - 1], Some(shown[at + m - 1]), states[at + m]);
    if m > 1 {
      EpochFollowsOneOrder(states, shown, at, m - 1);
    }
  }

  /** Every epoch is a shuffle of the pool: each photo exactly once. */
  lemma EachEpochIsAPermutation(states: seq<Pool>, shown: seq<PhotoRef>, at: nat)
    returns (order: seq<nat>)
    requires IsPlay(states, shown) && at + |states[0].items| <= |shown|
    requires AtEpochStart(states[at])
    ensures IsPermutation(order, |states[0].items|)
    ensures FollowsOrder(shown, at, |states[0].items|, order, states[0].items)
    ensures AtEpochStart(states[at + |states[0].items|])
  {
    var n := |states[0].items|;
    EpochFollowsOneOrder(states, shown, at, n);
    order := states[at + n].order;
  }

  function Range(n: nat): (s: set<nat>)
    ensures |s| == n && forall v: nat :: v in s <==> v < n
  {
    if n == 0 then {} else Range(n - 1) + {n - 1}
  }

  /** A permutation leaves no index out. */
  lemma PermutationCovers(order: seq<nat>, n: nat, i: nat)
    requires IsPermutation(order, n) && i < n
    ensures i in order
  {
    DistinctCount(order);
    SubsetSize(Members(order), Range(n));
  }

  /** How many advances away the next epoch is. */
  function ToEpoch(p: Pool): nat {
    if NeedsShuffle(p) || p.cursor == 0 then 0 else |p.order| - p.cursor
  }

  lemma {:induction false} EpochComes(states: seq<Pool>, shown: seq<PhotoRef>, from: nat)
    requires IsPlay(states, shown) && from <= |shown|
    requires from + ToEpoch(states[from]) <= |shown|
    ensures ToEpoch(states[from]) < |states[0].items|
    ensures AtEpochStart(states[from + ToEpoch(states[from])])
    decreases |shown| - from
  {
    PlayKeepsValid(states, shown, from);
    if ToEpoch(states[from]) > 0 {
      PlayKeepsValid(states, shown, from + 1);
      assert Advanced(states[from], Some(shown[from]), states[from + 1]);
      EpochComes(states, shown, from + 1);
    }
  }

  /** Wherever one starts, 2n - 1 consecutive advances show all n photos. */
  lemma EveryPhotoComesRound(states: seq<Pool>, shown: seq<PhotoRef>, from: nat, photo: PhotoRef)
    requires IsPlay(states, shown) && photo in states[0].items
    requires from + 2 * |states[0].items| - 1 <= |shown|
    ensures photo in shown[from..from + 2 * |states[0].items| - 1]
  {
    var n := |states[0].items|;
    PlayKeepsValid(states, shown, from);
    EpochComes(states, shown, from);
    var at := from + ToEpoch(states[from]);
    var order := EachEpochIsAPermutation(states, shown, at);
    var i :| 0 <= i < n && states[0].items[i] == photo;
    PermutationCovers(order, n, i);
    var k :| 0 <= k < |order| && order[k] == i;
    assert shown[from..from + 2 * n - 1][at + k - from] == photo;
  }
}
