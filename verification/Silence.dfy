// How long a connection can go without being sent a new photo, while every photo
// can be prepared and sent but the connection refuses what it recently had.
module Silence {
  import opened Wrappers
  import opened Arithmetic
  import opened FiniteSets
  import opened PlayOrder
  import opened FrameSessions
  import opened Delivery

  lemma HeldAreFew(names: seq<PhotoId>, held: seq<PhotoId>)
    requires Distinct(names) && forall k :: 0 <= k < |names| ==> names[k] in held
    ensures |names| <= |held|
  {
    DistinctCount(names);
    MembersBound(held);
    SubsetSize(Members(names), Members(held));
  }

  /** A stretch of one order cannot be held in full unless it is short. */
  lemma StretchHeld(items: seq<PhotoRef>, order: seq<nat>, from: nat, m: nat, drawn: seq<PhotoRef>, at: nat,
                    held: seq<PhotoId>, idOf: Naming)
    requires IsPermutation(order, |items|) && from + m <= |order| && at + m <= |drawn|
    requires DistinctNames(items, idOf)
    requires forall k :: at <= k < at + m ==> drawn[k] == items[order[from + k - at]]
    requires forall k :: 0 <= k < |drawn| ==> idOf(drawn[k]) in held
    ensures m <= |held|
  {
    var names := seq(m, k requires 0 <= k < m => idOf(drawn[at + k]));
    forall i, j | 0 <= i < j < m
      ensures names[i] != names[j]
    {
      assert order[from + i] != order[from + j];
      assert drawn[at + i] == items[order[from + i]] && drawn[at + j] == items[order[from + j]];
    }
    HeldAreFew(names, held);
  }

  lemma {:induction false} OrderContinues(states: seq<Pool>, drawn: seq<PhotoRef>, m: nat)
    requires IsPlay(states, drawn) && m <= |drawn| && m <= ToEpoch(states[0])
    ensures states[m].order == states[0].order && states[m].cursor == states[0].cursor + m
    ensures states[m].items == states[0].items
    ensures forall k :: 0 <= k < m ==> drawn[k] == states[0].items[states[0].order[states[0].cursor + k]]
    decreases m
  {
    if m > 0 {
      OrderContinues(states, drawn, m - 1);
      assert Advanced(states[m - 1], Some(drawn[m - 1]), states[m]);
    }
  }

  /** With more than 64 photos that can all be sent, 129 attempts in a row send
      something new, whatever the shuffles deal and wherever the order stands. */
  lemma SilenceEnds(fl: Flow, answers: seq<Answer>, idOf: Naming)
    requires Sound(fl, answers) && AllReady(answers)
    requires fl.history.Some? && |fl.history.value| <= SENT_HISTORY
    requires |fl.pool.items| > SENT_HISTORY && DistinctNames(fl.pool.items, idOf)
    requires |answers| > 2 * SENT_HISTORY
    ensures !Silent(fl, answers, idOf)
  {
    if Silent(fl, answers, idOf) {
      var states, drawn := AttemptsArePlay(fl, answers, idOf);
      hide Silent, Steps, AllReady, Sound, DistinctNames, IsPermutation, IsPlay;
      SilenceIsShort(states, drawn, fl.history.value, idOf);
    }
  }

  lemma SilenceIsShort(states: seq<Pool>, drawn: seq<PhotoRef>, held: seq<PhotoId>, idOf: Naming)
    requires IsPlay(states, drawn) && |states[0].items| > SENT_HISTORY && |held| <= SENT_HISTORY
    requires DistinctNames(states[0].items, idOf) && AllHeld(drawn, held, idOf)
    ensures |drawn| <= 2 * SENT_HISTORY
  {
    var rest := ToEpoch(states[0]);
    hide IsPlay, DistinctNames, AllHeld, ToEpoch;
    CurrentOrderHeld(states, drawn, Min(rest, |drawn|), held, idOf);
    if |drawn| > rest {
      NextOrderHeld(states, drawn, Min(|drawn| - rest, SENT_HISTORY + 1), held, idOf);
    }
  }

  // What a connection can hold when it has met every photo in turn since it opened.

  /** The places of the order still to come whose photos are among `held`. */
  ghost function Ahead(p: Pool, held: seq<PhotoId>, idOf: Naming): set<nat>
    requires Valid(p) && p.items != []
  {
    set i: nat | p.cursor <= i < |p.order| && idOf(p.items[p.order[i]]) in held
  }

  /** The photo is one that this order has already given. */
  ghost predicate Given(p: Pool, id: PhotoId, idOf: Naming)
    requires Valid(p) && p.items != []
  {
    exists i: nat :: i < p.cursor && idOf(p.items[p.order[i]]) == id
  }

  /** Since this order began: `news` were accepted, `refused` were not, and `olds` are
      what is still held from before it. If any of those are left, every photo given
      so far is accounted for, and each one refused was held before the order began. */
  ghost predicate Accounted(fl: Flow, olds: seq<PhotoId>, news: seq<PhotoId>, refused: nat, idOf: Naming) {
    && Valid(fl.pool) && fl.pool.items != [] && fl.history == Some(olds + news)
    && |olds| + |news| <= SENT_HISTORY
    && (forall id :: id in news ==> Given(fl.pool, id, idOf))
    && (olds != [] ==>
          && fl.pool.cursor == |news| + refused
          && refused + |Ahead(fl.pool, olds, idOf)| <= SENT_HISTORY)
  }

  ghost predicate Fair(fl: Flow, idOf: Naming) {
    && Valid(fl.pool) && fl.history.Some? && |fl.history.value| <= SENT_HISTORY
    && (fl.pool.items != [] && !NeedsShuffle(fl.pool) ==>
          exists olds, news, refused :: Accounted(fl, olds, news, refused, idOf))
  }

  lemma AheadIsFew(p: Pool, held: seq<PhotoId>, idOf: Naming)
    requires Valid(p) && p.items != [] && DistinctNames(p.items, idOf)
    ensures |Ahead(p, held, idOf)| <= |held|
  {
    var places := Ahead(p, held, idOf);
    MembersBound(held);
    DistinctImages(p, places, Members(held), idOf);
  }

  lemma {:induction false} DistinctImages(p: Pool, places: set<nat>, names: set<PhotoId>, idOf: Naming)
    requires Valid(p) && p.items != [] && DistinctNames(p.items, idOf)
    requires forall i :: i in places ==> i < |p.order| && idOf(p.items[p.order[i]]) in names
    ensures |places| <= |names|
    decreases |places|
  {
    if places != {} {
      var i :| i in places;
      var name := idOf(p.items[p.order[i]]);
      forall j | j in places - {i}
        ensures idOf(p.items[p.order[j]]) in names - {name}
      {
        NamesDiffer(p, i, j, idOf);
      }
      DistinctImages(p, places - {i}, names - {name}, idOf);
    }
  }

  lemma NamesDiffer(p: Pool, i: nat, j: nat, idOf: Naming)
    requires Valid(p) && p.items != [] && DistinctNames(p.items, idOf)
    requires i < |p.order| && j < |p.order| && i != j
    ensures idOf(p.items[p.order[i]]) != idOf(p.items[p.order[j]])
  {
    assert p.order[i] != p.order[j];
  }

  /** Drawing when a shuffle is due is drawing from the dealt order. */
  ghost function Shuffled(fl: Flow, dealt: seq<nat>): Flow {
    if NeedsShuffle(fl.pool) then fl.(pool := Pool(fl.pool.items, dealt, 0)) else fl
  }

  lemma ShuffleFirst(fl: Flow, a: Answer, idOf: Naming)
    requires Valid(fl.pool) && IsPermutation(a.dealt, |fl.pool.items|) && fl.pool.items != []
    ensures var ready := Shuffled(fl, a.dealt);
      && Valid(ready.pool) && !NeedsShuffle(ready.pool) && ready.pool.items == fl.pool.items
      && Step(fl, a, idOf) == Step(ready, a, idOf)
  {
  }

  lemma NewOrderIsAccounted(fl: Flow, idOf: Naming)
    requires Valid(fl.pool) && fl.pool.items != [] && fl.pool.cursor == 0 && DistinctNames(fl.pool.items, idOf)
    requires fl.history.Some? && |fl.history.value| <= SENT_HISTORY
    ensures Accounted(fl, fl.history.value, [], 0, idOf)
  {
    var held := fl.history.value;
    AheadIsFew(fl.pool, held, idOf);
    assert held + [] == held;
  }

  lemma NewFrontIsGiven(p: Pool, p': Pool, idOf: Naming)
    requires Valid(p) && p.items != [] && p.cursor < |p.order| && p' == p.(cursor := p.cursor + 1)
    ensures Given(p', idOf(p.items[p.order[p.cursor]]), idOf)
    ensures forall id :: Given(p, id, idOf) ==> Given(p', id, idOf)
  {
    assert p'.order[p.cursor] == p.order[p.cursor];
  }

  lemma FrontIsNotGiven(p: Pool, idOf: Naming)
    requires Valid(p) && p.items != [] && p.cursor < |p.order| && DistinctNames(p.items, idOf)
    ensures !Given(p, idOf(p.items[p.order[p.cursor]]), idOf)
  {
    forall i: nat | i < p.cursor
      ensures idOf(p.items[p.order[i]]) != idOf(p.items[p.order[p.cursor]])
    {
      NamesDiffer(p, i, p.cursor, idOf);
    }
  }

  lemma AheadAfter(p: Pool, p': Pool, held: seq<PhotoId>, held': seq<PhotoId>, idOf: Naming)
    requires Valid(p) && p.items != [] && p.cursor < |p.order| && p' == p.(cursor := p.cursor + 1)
    requires forall id :: id in held' ==> id in held
    ensures |Ahead(p', held', idOf)| <= |Ahead(p, held, idOf)|
    ensures idOf(p.items[p.order[p.cursor]]) in held ==> |Ahead(p', held', idOf)| + 1 <= |Ahead(p, held, idOf)|
  {
    var ahead := Ahead(p, held, idOf);
    assert Ahead(p', held', idOf) <= ahead - {p.cursor};
    SubsetSize(Ahead(p', held', idOf), ahead - {p.cursor});
  }

  lemma RefusedKeepsAccounts(fl: Flow, olds: seq<PhotoId>, news: seq<PhotoId>, refused: nat, idOf: Naming)
    requires Accounted(fl, olds, news, refused, idOf) && DistinctNames(fl.pool.items, idOf)
    requires fl.pool.cursor < |fl.pool.order|
    requires idOf(fl.pool.items[fl.pool.order[fl.pool.cursor]]) in fl.history.value
    ensures Accounted(fl.(pool := fl.pool.(cursor := fl.pool.cursor + 1)), olds, news, refused + 1, idOf)
  {
    var p, p' := fl.pool, fl.pool.(cursor := fl.pool.cursor + 1);
    FrontIsNotGiven(p, idOf);
    NewFrontIsGiven(p, p', idOf);
    AheadAfter(p, p', olds, olds, idOf);
    hide Given, Ahead, DistinctNames;
    var front := idOf(p.items[p.order[p.cursor]]);
    assert front in olds + news ==> front in olds || front in news;
  }

  lemma AcceptedKeepsAccounts(fl: Flow, olds: seq<PhotoId>, news: seq<PhotoId>, refused: nat, idOf: Naming)
    requires Accounted(fl, olds, news, refused, idOf) && fl.pool.cursor < |fl.pool.order|
    ensures var front := idOf(fl.pool.items[fl.pool.order[fl.pool.cursor]]);
      var after := Flow(fl.pool.(cursor := fl.pool.cursor + 1), Some(Newest(fl.history.value + [front])));
      exists olds', news', refused' :: Accounted(after, olds', news', refused', idOf)
  {
    var p, p' := fl.pool, fl.pool.(cursor := fl.pool.cursor + 1);
    var front := idOf(p.items[p.order[p.cursor]]);
    var after := Flow(p', Some(Newest(fl.history.value + [front])));
    NewFrontIsGiven(p, p', idOf);
    var full := |olds| + |news| == SENT_HISTORY;
    var olds' := if full && olds != [] then olds[1..] else olds;
    var news' := (if full && olds == [] then news[1..] else news) + [front];
    AheadAfter(p, p', olds, olds', idOf);
    NewestSplits(olds, news, front, olds', news');
    hide Given, Ahead, IsPermutation, Newest;
    forall id | id in news'
      ensures Given(p', id, idOf)
    {
      assert id in news || id == front;
    }
    assert Accounted(after, olds', news', refused, idOf);
  }

  lemma NewestSplits(olds: seq<PhotoId>, news: seq<PhotoId>, front: PhotoId, olds': seq<PhotoId>, news': seq<PhotoId>)
    requires |olds| + |news| <= SENT_HISTORY
    requires var full := |olds| + |news| == SENT_HISTORY;
      && olds' == (if full && olds != [] then olds[1..] else olds)
      && news' == (if full && olds == [] then news[1..] else news) + [front]
    ensures Newest(olds + news + [front]) == olds' + news'
    ensures |olds'| + |news'| <= SENT_HISTORY
  {
  }

  lemma StepIsFair(fl: Flow, a: Answer, idOf: Naming)
    requires Fair(fl, idOf) && IsPermutation(a.dealt, |fl.pool.items|) && a.prepared && a.addressed
    requires DistinctNames(fl.pool.items, idOf)
    ensures Fair(Step(fl, a, idOf).0, idOf)
  {
    if fl.pool.items != [] {
      ShuffleFirst(fl, a, idOf);
      var ready := Shuffled(fl, a.dealt);
      if NeedsShuffle(fl.pool) {
        NewOrderIsAccounted(ready, idOf);
      }
      var olds, news, refused :| Accounted(ready, olds, news, refused, idOf);
      var front := idOf(ready.pool.items[ready.pool.order[ready.pool.cursor]]);
      var next := ready.pool.(cursor := ready.pool.cursor + 1);
      hide Accounted, IsPermutation, DistinctNames;
      ReadyStep(ready, a, idOf);
      if front in ready.history.value {
        RefusedKeepsAccounts(ready, olds, news, refused, idOf);
      } else {
        AcceptedKeepsAccounts(ready, olds, news, refused, idOf);
      }
    }
  }

  /** A ready attempt in the middle of an order offers the photo whose turn it is. */
  lemma ReadyStep(fl: Flow, a: Answer, idOf: Naming)
    requires Valid(fl.pool) && IsPermutation(a.dealt, |fl.pool.items|) && a.prepared && a.addressed
    requires fl.pool.items != [] && !NeedsShuffle(fl.pool) && fl.history.Some?
    ensures fl.pool.cursor < |fl.pool.order| && fl.pool.order[fl.pool.cursor] < |fl.pool.items|
    ensures var front := idOf(fl.pool.items[fl.pool.order[fl.pool.cursor]]);
      Step(fl, a, idOf) ==
        (Flow(fl.pool.(cursor := fl.pool.cursor + 1), Some(Offered(fl.history.value, front).0)),
         front !in fl.history.value)
  {
  }

  lemma {:induction false} StepsAreFair(fl: Flow, answers: seq<Answer>, idOf: Naming)
    requires Fair(fl, idOf) && Sound(fl, answers) && AllReady(answers) && DistinctNames(fl.pool.items, idOf)
    ensures Fair(Steps(fl, answers, idOf), idOf)
    decreases |answers|
  {
    if answers != [] {
      hide Fair, IsPermutation, DistinctNames;
      StepIsFair(fl, answers[0], idOf);
      StepKeepsItems(fl, answers[0], idOf);
      StepsAreFair(Step(fl, answers[0], idOf).0, answers[1..], idOf);
    }
  }

  lemma StepKeepsItems(fl: Flow, a: Answer, idOf: Naming)
    requires Valid(fl.pool) && IsPermutation(a.dealt, |fl.pool.items|)
    ensures var after := Step(fl, a, idOf).0; Valid(after.pool) && after.pool.items == fl.pool.items
  {
  }

  /** A connection just opened, or a pool just refreshed on one that is open. */
  predicate StartsAfresh(fl: Flow) {
    fl.history == Some([]) ||
    (fl.history.Some? && |fl.history.value| <= SENT_HISTORY && fl.pool.cursor == 0)
  }

  lemma FreshStartIsFair(fl: Flow, idOf: Naming)
    requires Valid(fl.pool) && StartsAfresh(fl) && DistinctNames(fl.pool.items, idOf)
    ensures Fair(fl, idOf)
  {
    if fl.pool.items != [] && !NeedsShuffle(fl.pool) {
      if fl.pool.cursor == 0 {
        NewOrderIsAccounted(fl, idOf);
      } else {
        assert [] + [] == fl.history.value;
        assert Accounted(fl, [], [], 0, idOf);
      }
    }
  }

  /** The longest a connection can go without a new photo, counted in attempts. */
  function LongestSilence(n: nat): nat
    requires n > SENT_HISTORY
  {
    if n < 2 * SENT_HISTORY then 3 * SENT_HISTORY - n else SENT_HISTORY
  }

  /** What is left of an order, if all of it is held, is no more than so much. */
  lemma HeldTailIsShort(fl: Flow, idOf: Naming)
    requires Fair(fl, idOf) && DistinctNames(fl.pool.items, idOf)
    requires |fl.pool.items| > SENT_HISTORY && !NeedsShuffle(fl.pool) && fl.pool.cursor > 0
    requires forall i :: fl.pool.cursor <= i < |fl.pool.order| ==>
      idOf(fl.pool.items[fl.pool.order[i]]) in fl.history.value
    ensures |fl.pool.order| - fl.pool.cursor + |fl.pool.items| <= 2 * SENT_HISTORY
  {
    var p := fl.pool;
    var olds, news, refused :| Accounted(fl, olds, news, refused, idOf);
    var left := |p.order| - p.cursor;
    forall i | p.cursor <= i < |p.order|
      ensures idOf(p.items[p.order[i]]) in olds
    {
      var id := idOf(p.items[p.order[i]]);
      if id in news {
        var j: nat :| j < p.cursor && idOf(p.items[p.order[j]]) == id;
        NamesDiffer(p, i, j, idOf);
      }
      assert id in olds + news;
    }
    AheadIsFew(p, olds, idOf);
    AllAhead(p, olds, idOf);
    assert p.cursor < |p.order| && idOf(p.items[p.order[p.cursor]]) in olds;
  }

  /** A stretch of places is as many as it is long. */
  lemma AllAhead(p: Pool, held: seq<PhotoId>, idOf: Naming)
    requires Valid(p) && p.items != [] && p.cursor <= |p.order|
    requires forall i :: p.cursor <= i < |p.order| ==> idOf(p.items[p.order[i]]) in held
    ensures |Ahead(p, held, idOf)| == |p.order| - p.cursor
  {
    var left := |p.order| - p.cursor;
    var places: seq<nat> := seq(left, k requires 0 <= k < left => p.cursor + k);
    DistinctCount(places);
    forall i: nat
      ensures i in Ahead(p, held, idOf) <==> i in Members(places)
    {
      if p.cursor <= i < |p.order| {
        assert places[i - p.cursor] == i;
      }
    }
    assert Members(places) == Ahead(p, held, idOf);
  }

  ghost predicate AllHeld(drawn: seq<PhotoRef>, held: seq<PhotoId>, idOf: Naming) {
    forall k :: 0 <= k < |drawn| ==> idOf(drawn[k]) in held
  }

  lemma CurrentOrderHeld(states: seq<Pool>, drawn: seq<PhotoRef>, m: nat, held: seq<PhotoId>, idOf: Naming)
    requires IsPlay(states, drawn) && DistinctNames(states[0].items, idOf) && AllHeld(drawn, held, idOf)
    requires m <= |drawn| && m <= ToEpoch(states[0])
    ensures m <= |held|
  {
    OrderContinues(states, drawn, m);
    var p := states[0];
    StretchHeld(p.items, p.order, p.cursor, m, drawn, 0, held, idOf);
  }

  lemma FollowsHeld(items: seq<PhotoRef>, order: seq<nat>, m: nat, drawn: seq<PhotoRef>, at: nat,
                    held: seq<PhotoId>, idOf: Naming)
    requires at + m <= |drawn| && m <= |order| && IsPermutation(order, |items|) && DistinctNames(items, idOf)
    requires FollowsOrder(drawn, at, m, order, items) && AllHeld(drawn, held, idOf)
    ensures m <= |held|
  {
    hide IsPermutation, DistinctNames;
    forall k | at <= k < at + m
      ensures order[0 + k - at] < |items| && drawn[k] == items[order[0 + k - at]]
    {
      assert order[k - at] < |items| && drawn[at + (k - at)] == items[order[k - at]];
    }
    StretchHeld(items, order, 0, m, drawn, at, held, idOf);
  }

  lemma NextOrderHeld(states: seq<Pool>, drawn: seq<PhotoRef>, m: nat, held: seq<PhotoId>, idOf: Naming)
    requires IsPlay(states, drawn) && DistinctNames(states[0].items, idOf) && AllHeld(drawn, held, idOf)
    requires ToEpoch(states[0]) + m <= |drawn| && 0 < m <= |states[0].items|
    ensures m <= |held|
  {
    var rest := ToEpoch(states[0]);
    EpochComes(states, drawn, 0);
    EpochFollowsOneOrder(states, drawn, rest, m);
    hide IsPlay, ToEpoch, AtEpochStart, FollowsOrder, AllHeld, DistinctNames;
    FollowsHeld(states[0].items, states[rest + m].order, m, drawn, rest, held, idOf);
  }

  lemma RestHeld(fl: Flow, states: seq<Pool>, drawn: seq<PhotoRef>, idOf: Naming)
    requires Fair(fl, idOf) && IsPlay(states, drawn) && states[0] == fl.pool
    requires |fl.pool.items| > SENT_HISTORY && DistinctNames(fl.pool.items, idOf)
    requires AllHeld(drawn, fl.history.value, idOf) && 0 < ToEpoch(fl.pool) <= |drawn|
    ensures ToEpoch(fl.pool) + |fl.pool.items| <= 2 * SENT_HISTORY
  {
    var p := fl.pool;
    OrderContinues(states, drawn, ToEpoch(p));
    hide IsPlay, Fair;
    TailIsDrawn(p, drawn, fl.history.value, idOf);
    HeldTailIsShort(fl, idOf);
  }

  /** If everything drawn is held, not much was drawn. */
  lemma HeldStretchIsShort(fl: Flow, states: seq<Pool>, drawn: seq<PhotoRef>, idOf: Naming)
    requires Fair(fl, idOf) && IsPlay(states, drawn) && states[0] == fl.pool
    requires |fl.pool.items| > SENT_HISTORY && DistinctNames(fl.pool.items, idOf)
    requires AllHeld(drawn, fl.history.value, idOf)
    ensures |drawn| <= LongestSilence(|fl.pool.items|)
  {
    var rest, held := ToEpoch(fl.pool), fl.history.value;
    FairHolds(fl, idOf);
    hide IsPlay, Fair, DistinctNames, AllHeld, ToEpoch;
    if rest >= |drawn| {
      CurrentOrderHeld(states, drawn, |drawn|, held, idOf);
    } else {
      NextOrderHeld(states, drawn, Min(|drawn| - rest, SENT_HISTORY + 1), held, idOf);
      if rest > 0 {
        RestHeld(fl, states, drawn, idOf);
      }
    }
  }

  lemma TailIsDrawn(p: Pool, drawn: seq<PhotoRef>, held: seq<PhotoId>, idOf: Naming)
    requires Valid(p) && p.items != [] && p.cursor <= |p.order| && |p.order| - p.cursor <= |drawn|
    requires forall k :: 0 <= k < |p.order| - p.cursor ==> drawn[k] == p.items[p.order[p.cursor + k]]
    requires AllHeld(drawn, held, idOf)
    ensures forall i :: p.cursor <= i < |p.order| ==> idOf(p.items[p.order[i]]) in held
  {
    forall i | p.cursor <= i < |p.order|
      ensures idOf(p.items[p.order[i]]) in held
    {
      assert drawn[i - p.cursor] == p.items[p.order[p.cursor + (i - p.cursor)]];
    }
  }

  /** On a connection that has met every photo since it opened, with more than 64
      photos, more attempts than the longest silence send something new. */
  lemma FairSilenceEnds(fl: Flow, answers: seq<Answer>, idOf: Naming)
    requires Fair(fl, idOf) && Sound(fl, answers) && AllReady(answers)
    requires |fl.pool.items| > SENT_HISTORY && DistinctNames(fl.pool.items, idOf)
    requires |answers| > LongestSilence(|fl.pool.items|)
    ensures !Silent(fl, answers, idOf)
  {
    if Silent(fl, answers, idOf) {
      var states, drawn := AttemptsArePlay(fl, answers, idOf);
      hide Silent, Steps, AllReady, Sound, DistinctNames, IsPermutation, IsPlay, Fair;
      HeldStretchIsShort(fl, states, drawn, idOf);
    }
  }

  // The states that rotations and fillings bring a connection to.

  ghost predicate CallsReady(calls: seq<Call>) {
    forall k :: 0 <= k < |calls| ==> AllReady(calls[k].answers)
  }

  /** A connection to a frame whose pool is `n` photos under names of their own, every one
      of which could be prepared and served. When the calls began either the connection
      was new or the pool had just been refreshed. */
  ghost predicate Reached(fl: Flow, n: nat, idOf: Naming) {
    exists start: Flow, calls: seq<Call> {:trigger Calls(start, calls, idOf)} ::
      && StartsAfresh(start) && |start.pool.items| == n && DistinctNames(start.pool.items, idOf)
      && AllSound(start, calls) && CallsReady(calls) && fl == Calls(start, calls, idOf)
  }

  lemma ReachedIsFair(fl: Flow, n: nat, idOf: Naming)
    requires Reached(fl, n, idOf)
    ensures Fair(fl, idOf) && |fl.pool.items| == n && DistinctNames(fl.pool.items, idOf)
  {
    var start: Flow, calls: seq<Call> :|
      && StartsAfresh(start) && |start.pool.items| == n && DistinctNames(start.pool.items, idOf)
      && AllSound(start, calls) && CallsReady(calls) && fl == Calls(start, calls, idOf);
    hide Calls, IsPermutation, DistinctNames, AllReady;
    var attempts := CallsAreAttempts(start, calls, idOf);
    FreshStartIsFair(start, idOf);
    StepsAreFair(start, attempts, idOf);
  }

  /** A filling that asks for one photo is one attempt. */
  lemma FillingIsAnAttempt(fl: Flow, a: Answer, idOf: Naming)
    requires Valid(fl.pool) && IsPermutation(a.dealt, |fl.pool.items|) && fl.pool.items != []
    requires a.prepared && a.addressed && fl.history.Some?
    ensures var c := Fill(1, true, seq(TRIES_PER_ROTATION + SPARES, _ => a));
      Sound(fl, c.answers) && AllReady(c.answers) && Called(fl, c, idOf) == Step(fl, a, idOf).0
  {
    var answers := seq(TRIES_PER_ROTATION + SPARES, _ => a);
    assert answers[..1] == [a];
    hide IsPermutation;
    BatchStep(fl, [a], idOf);
    var (ref, pool) := Drawn(fl.pool, a.dealt);
    ShownIsStep(fl, a, idOf);
    var after := Shown(fl.(pool := pool), ref.value, a, idOf).0;
    assert [a][1..] == [];
    NothingLeft(after, [], true, idOf);
  }

  /** So every series of attempts is the work of some series of calls. */
  lemma {:induction false} AttemptsAreCalls(fl: Flow, attempts: seq<Answer>, idOf: Naming) returns (calls: seq<Call>)
    requires Sound(fl, attempts) && AllReady(attempts) && fl.pool.items != [] && fl.history.Some?
    ensures AllSound(fl, calls) && CallsReady(calls) && Calls(fl, calls, idOf) == Steps(fl, attempts, idOf)
    decreases |attempts|
  {
    hide IsPermutation, Called;
    calls := [];
    if attempts != [] {
      var a := attempts[0];
      FillingIsAnAttempt(fl, a, idOf);
      var first := Fill(1, true, seq(TRIES_PER_ROTATION + SPARES, _ => a));
      var next := Step(fl, a, idOf).0;
      StepKeepsItems(fl, a, idOf);
      StepKeepsHistory(fl, a, idOf);
      hide Step, AllReady;
      ReadyRest(attempts);
      var rest := AttemptsAreCalls(next, attempts[1..], idOf);
      calls := [first] + rest;
      FirstCall(fl, first, rest, idOf);
    }
  }

  lemma ReadyRest(attempts: seq<Answer>)
    requires AllReady(attempts) && attempts != []
    ensures AllReady(attempts[1..]) && attempts[0].prepared && attempts[0].addressed
  {
  }

  lemma StepKeepsHistory(fl: Flow, a: Answer, idOf: Naming)
    requires Valid(fl.pool) && IsPermutation(a.dealt, |fl.pool.items|)
    ensures Step(fl, a, idOf).0.history.Some? <==> fl.history.Some?
  {
  }

  lemma FirstCall(fl: Flow, first: Call, rest: seq<Call>, idOf: Naming)
    requires Sound(fl, first.answers) && |first.answers| >= TRIES_PER_ROTATION + SPARES && AllReady(first.answers)
    requires AllSound(Called(fl, first, idOf), rest) && CallsReady(rest)
    ensures AllSound(fl, [first] + rest) && CallsReady([first] + rest)
    ensures Calls(fl, [first] + rest, idOf) == Calls(Called(fl, first, idOf), rest, idOf)
  {
    hide IsPermutation, Called, AllReady;
    CalledKeepsSound(fl, first, idOf);
    var all := [first] + rest;
    assert all[1..] == rest;
    forall k | 0 <= k < |all|
      ensures Sound(fl, all[k].answers) && |all[k].answers| >= TRIES_PER_ROTATION + SPARES && AllReady(all[k].answers)
    {
      assert all[k] == if k == 0 then first else rest[k - 1];
    }
  }

  ghost predicate SomethingNewIn(n: nat, attempts: nat) {
    forall fl: Flow, answers: seq<Answer>, idOf: Naming {:trigger Silent(fl, answers, idOf)} ::
      Reached(fl, n, idOf) && Sound(fl, answers) && AllReady(answers) && |answers| == attempts ==>
        !Silent(fl, answers, idOf)
  }

  // A run that is silent for as long as that.

  function Numbered(n: nat): (items: seq<PhotoRef>)
    ensures |items| == n
  {
    seq(n, i requires 0 <= i < n => PhotoRef("s", Tally(i), "image/jpeg"))
  }

  function Names(n: nat): seq<PhotoId> {
    seq(n, i requires 0 <= i < n => Tally(i))
  }

  const BY_ITEM: Naming := (ref: PhotoRef) => ref.itemId

  lemma NumberedAreDistinct(n: nat)
    ensures DistinctNames(Numbered(n), BY_ITEM)
  {
    forall i, j | 0 <= i < j < n
      ensures BY_ITEM(Numbered(n)[i]) != BY_ITEM(Numbered(n)[j])
    {
      assert |Tally(i)| != |Tally(j)|;
    }
  }

  function InTurn(n: nat): seq<nat> {
    seq(n, i requires 0 <= i < n => i)
  }

  /** The order that begins `k` photos on and comes round to the first ones. */
  function Shifted(n: nat, k: nat): seq<nat>
    requires k <= n
  {
    seq(n, i requires 0 <= i < n => if i + k < n then i + k else i + k - n)
  }

  /** The order that gives the second `k` photos, the first `k`, and then the others. */
  function Swapped(n: nat, k: nat): seq<nat>
    requires 2 * k <= n
  {
    seq(n, i requires 0 <= i < n => if i < k then i + k else if i < 2 * k then i - k else i)
  }

  ghost predicate AllDelivered(answers: seq<Answer>) {
    forall k :: 0 <= k < |answers| ==> answers[k].delivered
  }

  function Uniform(dealt: seq<nat>, attempts: nat): (answers: seq<Answer>)
    ensures |answers| == attempts
  {
    seq(attempts, _ => Answer(dealt, true, true, true))
  }

  lemma UniformIsSound(fl: Flow, dealt: seq<nat>, attempts: nat)
    requires Valid(fl.pool) && IsPermutation(dealt, |fl.pool.items|)
    ensures Sound(fl, Uniform(dealt, attempts)) && AllReady(Uniform(dealt, attempts))
    ensures AllDelivered(Uniform(dealt, attempts))
  {
  }

  /** A connection that holds the whole pool is sent nothing, however long. */
  lemma {:induction false} HoldingAllIsSilent(fl: Flow, answers: seq<Answer>, idOf: Naming)
    requires Sound(fl, answers) && fl.history.Some?
    requires forall ref :: ref in fl.pool.items ==> idOf(ref) in fl.history.value
    ensures Silent(fl, answers, idOf)
    decreases |answers|
  {
    if answers != [] {
      var (ref, pool) := Drawn(fl.pool, answers[0].dealt);
      if ref.Some? {
        DrawnIsAnItem(fl.pool, answers[0].dealt);
      }
      assert Step(fl, answers[0], idOf) == (fl.(pool := pool), false);
      hide IsPermutation;
      HoldingAllIsSilent(fl.(pool := pool), answers[1..], idOf);
    }
  }

  lemma DrawnIsAnItem(p: Pool, dealt: seq<nat>)
    requires Valid(p) && IsPermutation(dealt, |p.items|) && p.items != []
    ensures Drawn(p, dealt).0.Some? && Drawn(p, dealt).0.value in p.items
  {
    var (ref, pool) := Drawn(p, dealt);
    assert ref.value == p.items[pool.order[pool.cursor - 1]];
  }

  /** The names of the next `m` photos of the order. */
  ghost function Coming(p: Pool, m: nat, idOf: Naming): (names: seq<PhotoId>)
    requires Valid(p) && p.items != [] && p.cursor + m <= |p.order|
    ensures |names| == m
  {
    seq(m, k requires 0 <= k < m => idOf(p.items[p.order[p.cursor + k]]))
  }

  lemma NextComing(p: Pool, m: nat, idOf: Naming)
    requires Valid(p) && p.items != [] && p.cursor + m <= |p.order| && m > 0
    ensures Coming(p, m, idOf)
         == [Front(p, idOf)] + Coming(p.(cursor := p.cursor + 1), m - 1, idOf)
  {
  }

  lemma FirstAttempt(fl: Flow, answers: seq<Answer>, idOf: Naming)
    requires Sound(fl, answers) && answers != []
    ensures Valid(fl.pool) && IsPermutation(answers[0].dealt, |fl.pool.items|)
    ensures var (next, accepted) := Step(fl, answers[0], idOf);
      && Sound(next, answers[1..])
      && Steps(fl, answers, idOf) == Steps(next, answers[1..], idOf)
      && (Silent(fl, answers, idOf) <==> !accepted && Silent(next, answers[1..], idOf))
  {
    hide IsPermutation;
  }

  lemma FirstOffer(held: seq<PhotoId>, front: PhotoId, rest: seq<PhotoId>)
    ensures Offering(held, [front] + rest) == Offering(Offered(held, front).0, rest)
    ensures (forall id :: id in [front] + rest ==> id in held) ==>
      front in held && Offered(held, front).0 == held && forall id :: id in rest ==> id in held
  {
    assert ([front] + rest)[1..] == rest;
    assert front in [front] + rest;
    assert forall id :: id in rest ==> id in [front] + rest;
  }

  ghost function AfterFront(fl: Flow, idOf: Naming): (next: Flow)
    requires Valid(fl.pool) && fl.pool.items != [] && fl.pool.cursor < |fl.pool.order| && fl.history.Some?
    ensures Valid(next.pool) && next.pool == fl.pool.(cursor := fl.pool.cursor + 1) && next.history.Some?
  {
    Flow(fl.pool.(cursor := fl.pool.cursor + 1), Some(Offered(fl.history.value, Front(fl.pool, idOf)).0))
  }

  ghost function Front(p: Pool, idOf: Naming): PhotoId
    requires Valid(p) && p.items != [] && p.cursor < |p.order|
  {
    idOf(p.items[p.order[p.cursor]])
  }

  lemma ReadyFirst(fl: Flow, answers: seq<Answer>, idOf: Naming)
    requires Sound(fl, answers) && AllReady(answers) && answers != [] && fl.history.Some?
    requires fl.pool.items != [] && fl.pool.cursor < |fl.pool.order|
    ensures AllReady(answers[1..]) && Sound(AfterFront(fl, idOf), answers[1..])
    ensures Steps(fl, answers, idOf) == Steps(AfterFront(fl, idOf), answers[1..], idOf)
    ensures Silent(fl, answers, idOf)
       <==> Front(fl.pool, idOf) in fl.history.value && Silent(AfterFront(fl, idOf), answers[1..], idOf)
  {
    hide IsPermutation, Offered, Step, Steps, Silent;
    ReadyRest(answers);
    FirstAttempt(fl, answers, idOf);
    ReadyStep(fl, answers[0], idOf);
  }

  lemma NothingComing(fl: Flow, answers: seq<Answer>, idOf: Naming)
    requires Sound(fl, answers) && answers == [] && fl.history.Some?
    requires fl.pool.items != [] && fl.pool.cursor <= |fl.pool.order|
    ensures Steps(fl, answers, idOf) == fl && Silent(fl, answers, idOf)
    ensures fl.pool.(cursor := fl.pool.cursor + |answers|) == fl.pool
    ensures Offering(fl.history.value, Coming(fl.pool, |answers|, idOf)) == fl.history.value
  {
    assert Coming(fl.pool, |answers|, idOf) == [];
  }

  /** Where a stretch of `m` attempts within one order ends. */
  ghost function AfterStretch(fl: Flow, m: nat, idOf: Naming): Flow
    requires Valid(fl.pool) && fl.pool.items != [] && fl.pool.cursor + m <= |fl.pool.order| && fl.history.Some?
  {
    Flow(fl.pool.(cursor := fl.pool.cursor + m), Some(Offering(fl.history.value, Coming(fl.pool, m, idOf))))
  }

  lemma StretchJoins(fl: Flow, m: nat, idOf: Naming)
    requires Valid(fl.pool) && fl.pool.items != [] && m > 0 && fl.pool.cursor + m <= |fl.pool.order|
    requires fl.history.Some?
    ensures AfterStretch(fl, m, idOf) == AfterStretch(AfterFront(fl, idOf), m - 1, idOf)
  {
    hide Coming, Offering, Offered, IsPermutation;
    NextComing(fl.pool, m, idOf);
    var next := AfterFront(fl, idOf);
    FirstOffer(fl.history.value, Front(fl.pool, idOf), Coming(next.pool, m - 1, idOf));
  }

  /** Ready attempts within one order offer what is coming. */
  lemma {:induction false} StretchIsOffered(fl: Flow, answers: seq<Answer>, idOf: Naming)
    requires Sound(fl, answers) && AllReady(answers) && fl.history.Some?
    requires fl.pool.items != [] && fl.pool.cursor + |answers| <= |fl.pool.order|
    ensures Steps(fl, answers, idOf) == AfterStretch(fl, |answers|, idOf)
    decreases |answers|
  {
    hide *;
    if answers != [] {
      var next := OfferedFront(fl, answers, idOf);
      StretchIsOffered(next, answers[1..], idOf);
    } else {
      NothingComing(fl, answers, idOf);
      NothingStretched(fl, idOf);
    }
  }

  lemma NothingStretched(fl: Flow, idOf: Naming)
    requires Valid(fl.pool) && fl.pool.items != [] && fl.pool.cursor <= |fl.pool.order| && fl.history.Some?
    ensures AfterStretch(fl, 0, idOf) == fl
  {
    assert Coming(fl.pool, 0, idOf) == [];
  }

  lemma OfferedFront(fl: Flow, answers: seq<Answer>, idOf: Naming) returns (next: Flow)
    requires Sound(fl, answers) && AllReady(answers) && answers != [] && fl.history.Some?
    requires fl.pool.items != [] && fl.pool.cursor + |answers| <= |fl.pool.order|
    ensures Sound(next, answers[1..]) && AllReady(answers[1..]) && next.history.Some? && Valid(next.pool)
    ensures next.pool.items != [] && next.pool.cursor + |answers[1..]| <= |next.pool.order|
    ensures Steps(fl, answers, idOf) == Steps(next, answers[1..], idOf)
    ensures Valid(fl.pool) && AfterStretch(fl, |answers|, idOf) == AfterStretch(next, |answers[1..]|, idOf)
  {
    next := AfterFront(fl, idOf);
    hide IsPermutation, Silent, Steps, Coming, Offered, AfterStretch;
    ReadyFirst(fl, answers, idOf);
    StretchJoins(fl, |answers|, idOf);
  }

  lemma ComingHeld(fl: Flow, m: nat, idOf: Naming)
    requires Valid(fl.pool) && fl.pool.items != [] && m > 0 && fl.pool.cursor + m <= |fl.pool.order|
    requires fl.history.Some?
    requires forall id :: id in Coming(fl.pool, m, idOf) ==> id in fl.history.value
    ensures Front(fl.pool, idOf) in fl.history.value && AfterFront(fl, idOf).history == fl.history
    ensures forall id :: id in Coming(AfterFront(fl, idOf).pool, m - 1, idOf) ==> id in fl.history.value
  {
    NextComing(fl.pool, m, idOf);
    FirstOffer(fl.history.value, Front(fl.pool, idOf), Coming(AfterFront(fl, idOf).pool, m - 1, idOf));
    hide Coming;
  }

  lemma HeldFront(fl: Flow, answers: seq<Answer>, idOf: Naming) returns (next: Flow)
    requires Sound(fl, answers) && AllReady(answers) && answers != [] && fl.history.Some?
    requires fl.pool.items != [] && fl.pool.cursor + |answers| <= |fl.pool.order|
    requires forall id :: id in Coming(fl.pool, |answers|, idOf) ==> id in fl.history.value
    ensures Sound(next, answers[1..]) && AllReady(answers[1..]) && next.history.Some? && Valid(next.pool)
    ensures next.pool.items != [] && next.pool.cursor + |answers[1..]| <= |next.pool.order|
    ensures forall id :: id in Coming(next.pool, |answers[1..]|, idOf) ==> id in next.history.value
    ensures Silent(next, answers[1..], idOf) ==> Silent(fl, answers, idOf)
  {
    next := AfterFront(fl, idOf);
    hide IsPermutation, Silent, Steps, Coming, Offered;
    ReadyFirst(fl, answers, idOf);
    ComingHeld(fl, |answers|, idOf);
  }

  /** And are silent if that is held. */
  lemma {:induction false} StretchIsSilent(fl: Flow, answers: seq<Answer>, idOf: Naming)
    requires Sound(fl, answers) && AllReady(answers) && fl.history.Some?
    requires fl.pool.items != [] && fl.pool.cursor + |answers| <= |fl.pool.order|
    requires forall id :: id in Coming(fl.pool, |answers|, idOf) ==> id in fl.history.value
    ensures Silent(fl, answers, idOf)
    decreases |answers|
  {
    hide *;
    if answers != [] {
      var next := HeldFront(fl, answers, idOf);
      StretchIsSilent(next, answers[1..], idOf);
    } else {
      NothingComing(fl, answers, idOf);
    }
  }

  lemma StretchSteps(fl: Flow, answers: seq<Answer>, idOf: Naming)
    requires Sound(fl, answers) && AllReady(answers) && fl.history.Some?
    requires fl.pool.items != [] && fl.pool.cursor + |answers| <= |fl.pool.order|
    ensures Steps(fl, answers, idOf) == Flow(fl.pool.(cursor := fl.pool.cursor + |answers|),
      Some(Offering(fl.history.value, Coming(fl.pool, |answers|, idOf))))
    ensures (forall id :: id in Coming(fl.pool, |answers|, idOf) ==> id in fl.history.value) ==>
      Silent(fl, answers, idOf) && Steps(fl, answers, idOf).history == fl.history
  {
    hide IsPermutation, Coming, Offering, Steps, Silent, AllReady, Valid;
    StretchIsOffered(fl, answers, idOf);
    var coming := Coming(fl.pool, |answers|, idOf);
    if forall id :: id in coming ==> id in fl.history.value {
      StretchIsSilent(fl, answers, idOf);
      OfferingHeld(fl.history.value, coming);
    }
  }

  lemma {:induction false} OfferingTogether(held: seq<PhotoId>, a: seq<PhotoId>, b: seq<PhotoId>)
    ensures Offering(held, a + b) == Offering(Offering(held, a), b)
    decreases |a|
  {
    hide Offered;
    if a == [] {
      assert a + b == b;
    } else {
      assert (a + b)[1..] == a[1..] + b;
      OfferingTogether(Offered(held, a[0]).0, a[1..], b);
    }
  }

  lemma {:induction false} OfferingHeld(held: seq<PhotoId>, offers: seq<PhotoId>)
    requires forall id :: id in offers ==> id in held
    ensures Offering(held, offers) == held
    decreases |offers|
  {
    if offers != [] {
      OfferingHeld(held, offers[1..]);
    }
  }

  /** Offers that are all different and none of them held are all taken. */
  lemma {:induction false} OfferingNew(held: seq<PhotoId>, offers: seq<PhotoId>)
    requires |held| <= SENT_HISTORY && Distinct(offers) && forall id :: id in offers ==> id !in held
    ensures Offering(held, offers) == Newest(held + offers)
    decreases |offers|
  {
    if offers == [] {
      assert held + offers == held;
    } else {
      var id, rest := offers[0], offers[1..];
      var next := Newest(held + [id]);
      forall other | other in rest
        ensures other !in next
      {
        assert other in offers && other != id;
        assert forall x :: x in next ==> x in held + [id];
      }
      OfferingNew(next, rest);
      NewestOfMore(held + [id], rest);
      assert held + [id] + rest == held + offers;
    }
  }

  lemma NewestOfMore(ids: seq<PhotoId>, more: seq<PhotoId>)
    ensures Newest(Newest(ids) + more) == Newest(ids + more)
  {
  }

  /** The first attempt of the dealt order, the rest following. */
  lemma ShuffleThenSteps(fl: Flow, dealt: seq<nat>, attempts: nat, idOf: Naming)
    requires Valid(fl.pool) && IsPermutation(dealt, |fl.pool.items|) && fl.pool.items != []
    requires NeedsShuffle(fl.pool) && attempts > 0
    ensures var ready := fl.(pool := Pool(fl.pool.items, dealt, 0));
      && Valid(ready.pool)
      && Sound(fl, Uniform(dealt, attempts)) && Sound(ready, Uniform(dealt, attempts))
      && Steps(fl, Uniform(dealt, attempts), idOf) == Steps(ready, Uniform(dealt, attempts), idOf)
      && (Silent(fl, Uniform(dealt, attempts), idOf) <==> Silent(ready, Uniform(dealt, attempts), idOf))
  {
    var answers := Uniform(dealt, attempts);
    UniformIsSound(fl, dealt, attempts);
    ShuffleFirst(fl, answers[0], idOf);
    UniformIsSound(fl.(pool := Pool(fl.pool.items, dealt, 0)), dealt, attempts);
    hide IsPermutation, Step;
  }

  lemma OrdersArePermutations(n: nat, k: nat)
    requires k <= n
    ensures IsPermutation(InTurn(n), n) && IsPermutation(Shifted(n, k), n)
    ensures 2 * k <= n ==> IsPermutation(Swapped(n, k), n)
  {
  }

  /** A new connection on which the whole pool has gone by once, in turn. */
  ghost function OnceThrough(n: nat): Flow {
    Flow(Pool(Numbered(n), InTurn(n), n), Some(Newest(Names(n))))
  }

  lemma NamesAreDistinct(n: nat)
    ensures Distinct(Names(n))
  {
    forall i, j | 0 <= i < j < n
      ensures Names(n)[i] != Names(n)[j]
    {
      assert |Tally(i)| != |Tally(j)|;
    }
  }

  lemma OnceThroughIsReached(n: nat)
    requires n > 0
    ensures Valid(OnceThrough(n).pool) && Reached(OnceThrough(n), n, BY_ITEM)
  {
    OrdersArePermutations(n, 0);
    NumberedAreDistinct(n);
    NamesAreDistinct(n);
    var start := Flow(Pool(Numbered(n), InTurn(n), 0), Some([]));
    UniformIsSound(start, InTurn(n), n);
    assert Coming(start.pool, n, BY_ITEM) == Names(n);
    StretchSteps(start, Uniform(InTurn(n), n), BY_ITEM);
    OfferingNew([], Names(n));
    assert [] + Names(n) == Names(n);
    ReachedBySteps(start, n, Uniform(InTurn(n), n), BY_ITEM);
  }

  lemma ReachedBySteps(start: Flow, n: nat, attempts: seq<Answer>, idOf: Naming)
    requires StartsAfresh(start) && |start.pool.items| == n > 0 && DistinctNames(start.pool.items, idOf)
    requires Sound(start, attempts) && AllReady(attempts)
    ensures Reached(Steps(start, attempts, idOf), n, idOf)
  {
    hide Calls, Steps, IsPermutation, DistinctNames, AllReady;
    var calls := AttemptsAreCalls(start, attempts, idOf);
  }

  lemma ReachedGoesOn(fl: Flow, n: nat, attempts: seq<Answer>, idOf: Naming)
    requires Reached(fl, n, idOf) && n > 0 && Sound(fl, attempts) && AllReady(attempts)
    ensures Reached(Steps(fl, attempts, idOf), n, idOf)
  {
    var start: Flow, calls: seq<Call> :|
      && StartsAfresh(start) && |start.pool.items| == n && DistinctNames(start.pool.items, idOf)
      && AllSound(start, calls) && CallsReady(calls) && fl == Calls(start, calls, idOf);
    hide Calls, IsPermutation, DistinctNames, AllReady, Step;
    var before := CallsAreAttempts(start, calls, idOf);
    SoundElsewhere(fl, start, attempts);
    StepsTogether(start, before, attempts, idOf);
    ReadyTogether(before, attempts);
    ReachedBySteps(start, n, before + attempts, idOf);
  }

  lemma {:induction false} SilentForLess(fl: Flow, dealt: seq<nat>, attempts: nat, more: nat, idOf: Naming)
    requires Valid(fl.pool) && IsPermutation(dealt, |fl.pool.items|) && attempts <= more
    requires Sound(fl, Uniform(dealt, more)) && Silent(fl, Uniform(dealt, more), idOf)
    ensures Sound(fl, Uniform(dealt, attempts)) && Silent(fl, Uniform(dealt, attempts), idOf)
  {
    UniformIsSound(fl, dealt, attempts);
    UniformIsSound(fl, dealt, more - attempts);
    hide IsPermutation;
    assert Uniform(dealt, more) == Uniform(dealt, attempts) + Uniform(dealt, more - attempts);
    StepsTogether(fl, Uniform(dealt, attempts), Uniform(dealt, more - attempts), idOf);
  }

  lemma ComingShifted(n: nat, k: nat, m: nat)
    requires m <= n && k <= n && n > 0 && Valid(Pool(Numbered(n), Shifted(n, k), 0))
    ensures forall i :: 0 <= i < m ==>
      Coming(Pool(Numbered(n), Shifted(n, k), 0), m, BY_ITEM)[i] == Tally(if i + k < n then i + k else i + k - n)
  {
    hide IsPermutation;
  }

  /** With at least 128 photos: once through, then an order that begins with the 64 held. */
  lemma LargePoolIsSilent(n: nat)
    requires n >= 2 * SENT_HISTORY
    ensures IsPermutation(Shifted(n, n - SENT_HISTORY), n) && Valid(OnceThrough(n).pool)
    ensures Sound(OnceThrough(n), Uniform(Shifted(n, n - SENT_HISTORY), SENT_HISTORY))
    ensures Silent(OnceThrough(n), Uniform(Shifted(n, n - SENT_HISTORY), SENT_HISTORY), BY_ITEM)
  {
    var order := Shifted(n, n - SENT_HISTORY);
    OrdersArePermutations(n, n - SENT_HISTORY);
    var fl := OnceThrough(n);
    ShuffleThenSteps(fl, order, SENT_HISTORY, BY_ITEM);
    var ready := fl.(pool := Pool(Numbered(n), order, 0));
    UniformIsSound(ready, order, SENT_HISTORY);
    ComingShifted(n, n - SENT_HISTORY, SENT_HISTORY);
    var held := Newest(Names(n));
    assert forall i :: 0 <= i < SENT_HISTORY ==> held[i] == Tally(i + (n - SENT_HISTORY));
    hide IsPermutation, Silent, Newest, Coming, Steps, Tally, Shifted, Names, Numbered, AllReady, Uniform;
    AllComingHeld(ready.pool, SENT_HISTORY, held, BY_ITEM);
    StretchIsSilent(ready, Uniform(order, SENT_HISTORY), BY_ITEM);
  }

  /** With fewer: a second time through, in an order that first repeats the oldest
      held, then lets them go, and leaves the others for last. */
  ghost function SecondTime(n: nat): Flow
    requires SENT_HISTORY < n < 2 * SENT_HISTORY
  {
    var k := n - SENT_HISTORY;
    Flow(Pool(Numbered(n), Swapped(n, k), 2 * k), Some(Names(n)[2 * k..] + Names(k)))
  }

  lemma SecondTimeIsReached(n: nat)
    requires SENT_HISTORY < n < 2 * SENT_HISTORY
    ensures Valid(SecondTime(n).pool) && Reached(SecondTime(n), n, BY_ITEM)
  {
    var k := n - SENT_HISTORY;
    OrdersArePermutations(n, k);
    OnceThroughIsReached(n);
    var fl := OnceThrough(n);
    var order := Swapped(n, k);
    ShuffleThenSteps(fl, order, 2 * k, BY_ITEM);
    UniformIsSound(fl, order, 2 * k);
    var ready := fl.(pool := Pool(Numbered(n), order, 0));
    UniformIsSound(ready, order, 2 * k);
    ComingSwapped(n, k);
    SecondHistory(n, k);
    hide IsPermutation, Coming, Newest, Reached;
    StretchSteps(ready, Uniform(order, 2 * k), BY_ITEM);
    ReachedGoesOn(fl, n, Uniform(order, 2 * k), BY_ITEM);
  }

  lemma ComingSwapped(n: nat, k: nat)
    requires 2 * k <= n && n > 0 && Valid(Pool(Numbered(n), Swapped(n, k), 0))
    ensures Coming(Pool(Numbered(n), Swapped(n, k), 0), 2 * k, BY_ITEM) == Names(n)[k..2 * k] + Names(k)
  {
  }

  lemma SecondHistory(n: nat, k: nat)
    requires k == n - SENT_HISTORY && 0 < k < SENT_HISTORY
    ensures Offering(Newest(Names(n)), Names(n)[k..2 * k] + Names(k)) == Names(n)[2 * k..] + Names(k)
  {
    var held, again := Names(n)[k..], Names(n)[k..2 * k];
    assert Newest(Names(n)) == held;
    ElementsOf(held, again);
    FirstNamesAreNot(n, k);
    NamesAreDistinct(k);
    assert Newest(held + Names(k)) == Names(n)[2 * k..] + Names(k);
    hide Names, Newest, Distinct;
    OfferingTogether(held, again, Names(k));
    OfferingHeld(held, again);
    OfferingNew(held, Names(k));
  }

  lemma ElementsOf(held: seq<PhotoId>, first: seq<PhotoId>)
    requires first <= held
    ensures forall id :: id in first ==> id in held
  {
  }

  lemma FirstNamesAreNot(n: nat, k: nat)
    requires k <= n
    ensures forall id :: id in Names(k) ==> id !in Names(n)[k..]
  {
    forall id | id in Names(k)
      ensures id !in Names(n)[k..]
    {
      var i :| 0 <= i < k && Names(k)[i] == id;
      assert |id| == i;
      assert forall j :: 0 <= j < n - k ==> |Names(n)[k..][j]| == j + k;
    }
  }

  lemma SmallPoolTail(n: nat, dealt: seq<nat>)
    requires SENT_HISTORY < n < 2 * SENT_HISTORY && IsPermutation(dealt, n) && Valid(SecondTime(n).pool)
    ensures var fl, rest := SecondTime(n), 2 * SENT_HISTORY - n;
      && Sound(fl, Uniform(dealt, rest)) && Silent(fl, Uniform(dealt, rest), BY_ITEM)
      && Steps(fl, Uniform(dealt, rest), BY_ITEM) == fl.(pool := fl.pool.(cursor := n))
  {
    var fl, k, rest := SecondTime(n), n - SENT_HISTORY, 2 * SENT_HISTORY - n;
    UniformIsSound(fl, dealt, rest);
    var held := fl.history.value;
    forall id | id in Coming(fl.pool, rest, BY_ITEM)
      ensures id in held
    {
      var i :| 0 <= i < rest && Coming(fl.pool, rest, BY_ITEM)[i] == id;
      assert id == Tally(2 * k + i) == Names(n)[2 * k..][i] == held[i];
    }
    hide IsPermutation, Silent, Coming;
    StretchSteps(fl, Uniform(dealt, rest), BY_ITEM);
  }

  lemma SecondHeld(n: nat)
    requires SENT_HISTORY < n < 2 * SENT_HISTORY
    ensures var k, held := n - SENT_HISTORY, SecondTime(n).history.value;
      |held| == SENT_HISTORY && forall i :: 0 <= i < SENT_HISTORY ==>
        held[i] == Tally(if i + 2 * k < n then i + 2 * k else i + 2 * k - n)
  {
  }

  lemma SmallPoolHead(n: nat, fl: Flow)
    requires SENT_HISTORY < n < 2 * SENT_HISTORY
    requires Valid(SecondTime(n).pool) && fl == SecondTime(n).(pool := SecondTime(n).pool.(cursor := n))
    ensures var order := Shifted(n, 2 * (n - SENT_HISTORY));
      && IsPermutation(order, n) && Valid(fl.pool)
      && Sound(fl, Uniform(order, SENT_HISTORY)) && Silent(fl, Uniform(order, SENT_HISTORY), BY_ITEM)
  {
    var k := n - SENT_HISTORY;
    var order := Shifted(n, 2 * k);
    OrdersArePermutations(n, 2 * k);
    ShuffleThenSteps(fl, order, SENT_HISTORY, BY_ITEM);
    var ready := fl.(pool := Pool(Numbered(n), order, 0));
    UniformIsSound(ready, order, SENT_HISTORY);
    ComingShifted(n, 2 * k, SENT_HISTORY);
    SecondHeld(n);
    hide IsPermutation, Silent, Coming, Steps, Tally, Shifted, Names, Numbered, SecondTime, AllReady, Uniform;
    AllComingHeld(ready.pool, SENT_HISTORY, fl.history.value, BY_ITEM);
    StretchIsSilent(ready, Uniform(order, SENT_HISTORY), BY_ITEM);
  }

  lemma AllComingHeld(p: Pool, m: nat, held: seq<PhotoId>, idOf: Naming)
    requires Valid(p) && p.items != [] && p.cursor + m <= |p.order| && m <= |held|
    requires forall i :: 0 <= i < m ==> Coming(p, m, idOf)[i] == held[i]
    ensures forall id :: id in Coming(p, m, idOf) ==> id in held
  {
    hide Coming, IsPermutation;
    forall id | id in Coming(p, m, idOf)
      ensures id in held
    {
      var i :| 0 <= i < m && Coming(p, m, idOf)[i] == id;
    }
  }

  lemma UniformJoins(dealt: seq<nat>, a: nat, b: nat)
    ensures Uniform(dealt, a) + Uniform(dealt, b) == Uniform(dealt, a + b)
  {
  }

  lemma SmallPoolIsSilent(n: nat)
    requires SENT_HISTORY < n < 2 * SENT_HISTORY
    ensures var order := Shifted(n, 2 * (n - SENT_HISTORY));
      && IsPermutation(order, n) && Valid(SecondTime(n).pool)
      && Sound(SecondTime(n), Uniform(order, LongestSilence(n)))
      && Silent(SecondTime(n), Uniform(order, LongestSilence(n)), BY_ITEM)
  {
    hide IsPermutation, Valid, SecondTime, Shifted, Swapped, Uniform, Silent, Sound, LongestSilence, Reached;
    var k, rest := n - SENT_HISTORY, 2 * SENT_HISTORY - n;
    var order := Shifted(n, 2 * k);
    OrdersArePermutations(n, 2 * k);
    OrdersArePermutations(n, k);
    SecondTimeIsReached(n);
    SecondItems(n);
    TailThenHead(n, SecondTime(n), order, rest);
    Longest(n);
  }

  lemma SecondItems(n: nat)
    requires SENT_HISTORY < n < 2 * SENT_HISTORY
    ensures |SecondTime(n).pool.items| == n
  {
  }

  lemma Longest(n: nat)
    requires SENT_HISTORY < n < 2 * SENT_HISTORY
    ensures 2 * SENT_HISTORY - n + SENT_HISTORY == LongestSilence(n)
  {
  }

  lemma TailThenHead(n: nat, fl: Flow, order: seq<nat>, rest: nat)
    requires SENT_HISTORY < n < 2 * SENT_HISTORY && rest == 2 * SENT_HISTORY - n
    requires fl == SecondTime(n) && |fl.pool.items| == n && Valid(fl.pool)
    requires order == Shifted(n, 2 * (n - SENT_HISTORY)) && IsPermutation(order, n)
    ensures Sound(fl, Uniform(order, rest + SENT_HISTORY)) && Silent(fl, Uniform(order, rest + SENT_HISTORY), BY_ITEM)
  {
    hide IsPermutation, Silent, Steps, SecondTime, Uniform, Shifted, AllReady, Sound, Valid;
    SmallPoolTail(n, order);
    SmallPoolHead(n, Steps(fl, Uniform(order, rest), BY_ITEM));
    UniformIsSound(fl, order, SENT_HISTORY);
    StepsTogether(fl, Uniform(order, rest), Uniform(order, SENT_HISTORY), BY_ITEM);
    UniformJoins(order, rest, SENT_HISTORY);
  }

  /** With at most 64 photos: once through, and all of them are held for good. */
  lemma HeldPoolIsSilent(n: nat, attempts: nat) returns (fl: Flow)
    requires n <= SENT_HISTORY
    ensures Reached(fl, n, BY_ITEM) && Valid(fl.pool) && fl.pool.items == Numbered(n)
    ensures IsPermutation(InTurn(n), n)
    ensures Sound(fl, Uniform(InTurn(n), attempts)) && Silent(fl, Uniform(InTurn(n), attempts), BY_ITEM)
  {
    OrdersArePermutations(n, 0);
    if n == 0 {
      fl := Flow(Pool([], [], 0), Some([]));
      assert Calls(fl, [], BY_ITEM) == fl && AllSound(fl, []) && CallsReady([]);
      UniformIsSound(fl, InTurn(n), attempts);
    } else {
      OnceThroughIsReached(n);
      fl := OnceThrough(n);
      UniformIsSound(fl, InTurn(n), attempts);
      assert forall i :: 0 <= i < n ==> BY_ITEM(Numbered(n)[i]) == Names(n)[i];
    }
    HoldingAllIsSilent(fl, Uniform(InTurn(n), attempts), BY_ITEM);
  }

  /** A reachable state from which that many attempts send nothing new. */
  lemma SilentRun(n: nat, attempts: nat) returns (fl: Flow, dealt: seq<nat>)
    requires n > SENT_HISTORY ==> attempts <= LongestSilence(n)
    ensures Reached(fl, n, BY_ITEM) && Valid(fl.pool) && |fl.pool.items| == n && IsPermutation(dealt, n)
    ensures Sound(fl, Uniform(dealt, attempts)) && Silent(fl, Uniform(dealt, attempts), BY_ITEM)
  {
    hide Reached, Silent, IsPermutation, Valid;
    if n <= SENT_HISTORY {
      fl := HeldPoolIsSilent(n, attempts);
      dealt := InTurn(n);
    } else if n >= 2 * SENT_HISTORY {
      fl, dealt := OnceThrough(n), Shifted(n, n - SENT_HISTORY);
      OnceThroughIsReached(n);
      LargePoolIsSilent(n);
      SilentForLess(fl, dealt, attempts, SENT_HISTORY, BY_ITEM);
    } else {
      fl, dealt := SecondTime(n), Shifted(n, 2 * (n - SENT_HISTORY));
      SecondTimeIsReached(n);
      SmallPoolIsSilent(n);
      SilentForLess(fl, dealt, attempts, LongestSilence(n), BY_ITEM);
    }
  }

  /** Exactly: over everything that rotations and fillings can make of a new
      connection, with every photo sendable, so many further attempts are sure to
      send something new if and only if the pool has more than 64 photos and the
      attempts are more than the longest silence: 64, and for a pool of fewer than
      128 as many more as it falls short of that. */
  lemma SilenceIsExactlyThatLong(n: nat, attempts: nat)
    ensures SomethingNewIn(n, attempts) <==> n > SENT_HISTORY && attempts > LongestSilence(n)
  {
    hide Silent, Sound, AllReady, IsPermutation, Reached, Fair, DistinctNames, LongestSilence;
    if n > SENT_HISTORY && attempts > LongestSilence(n) {
      forall fl: Flow, answers: seq<Answer>, idOf: Naming
        | Reached(fl, n, idOf) && Sound(fl, answers) && AllReady(answers) && |answers| == attempts
        ensures !Silent(fl, answers, idOf)
      {
        ReachedIsFair(fl, n, idOf);
        FairSilenceEnds(fl, answers, idOf);
      }
    } else {
      var fl, dealt := SilentRun(n, attempts);
      UniformIsSound(fl, dealt, attempts);
    }
  }

  // In rotations.

  /** A rotation that shows nothing met nothing new, and nothing else. */
  lemma {:induction false} FailedIsSilent(
      fl: Flow, answers: seq<Answer>, tries: nat, connected: bool, idOf: Naming)
    requires Sound(fl, answers) && |answers| >= tries + SPARES && fl.history.Some?
    requires tries > 0 ==> fl.pool.items != []
    requires AllReady(answers) && AllDelivered(answers)
    ensures Rotated(fl, answers, tries, connected, idOf).1.None? <==> Silent(fl, answers[..tries], idOf)
    ensures Silent(fl, answers[..tries], idOf) ==>
      Rotated(fl, answers, tries, connected, idOf).0 == Steps(fl, answers[..tries], idOf)
    decreases tries
  {
    hide Rotated, ToppedUp, IsPermutation, Advanced, Valid, Newest;
    NothingLeft(fl, answers, connected, idOf);
    if tries > 0 {
      RotatedStep(fl, answers, tries, connected, idOf);
      ShownIsStep(fl, answers[0], idOf);
      OneThenMore(fl, answers, tries - 1, idOf);
      assert answers[..tries][1..] == answers[1..][..tries - 1];
      var (ref, pool) := Drawn(fl.pool, answers[0].dealt);
      var (next, id) := Shown(fl.(pool := pool), ref.value, answers[0], idOf);
      assert id.Some? <==> Step(fl, answers[0], idOf).1;
      if id.None? {
        FailedIsSilent(next, answers[1..], tries - 1, connected, idOf);
      }
    }
  }

  ghost predicate GoodRotations(fl: Flow, rotations: seq<seq<Answer>>) {
    Valid(fl.pool) && forall k :: 0 <= k < |rotations| ==>
      Sound(fl, rotations[k]) && |rotations[k]| >= TRIES_PER_ROTATION + SPARES
      && AllReady(rotations[k]) && AllDelivered(rotations[k])
  }

  lemma RotationsGoOn(fl: Flow, rotations: seq<seq<Answer>>, idOf: Naming)
    requires GoodRotations(fl, rotations) && rotations != []
    ensures var after := Rotated(fl, rotations[0], Tries(fl.pool), true, idOf).0;
      && GoodRotations(after, rotations[1..]) && after.pool.items == fl.pool.items
      && (after.history.Some? <==> fl.history.Some?)
  {
    hide Rotated, IsPermutation, AllReady, AllDelivered, Sound;
    CalledKeepsSound(fl, Rotate(true, rotations[0]), idOf);
    var after := Rotated(fl, rotations[0], Tries(fl.pool), true, idOf).0;
    forall k | 0 <= k < |rotations[1..]|
      ensures Sound(after, rotations[1..][k])
    {
      SoundElsewhere(fl, after, rotations[k + 1]);
    }
  }

  lemma SoundElsewhere(fl: Flow, after: Flow, answers: seq<Answer>)
    requires Sound(fl, answers) && Valid(after.pool) && after.pool.items == fl.pool.items
    ensures Sound(after, answers)
  {
  }

  /** Rotation after rotation, nothing is shown. */
  ghost predicate AllBlank(fl: Flow, rotations: seq<seq<Answer>>, idOf: Naming)
    requires GoodRotations(fl, rotations)
    decreases |rotations|
  {
    rotations == [] ||
    (RotationsGoOn(fl, rotations, idOf);
     var (after, id) := Rotated(fl, rotations[0], Tries(fl.pool), true, idOf);
     id.None? && AllBlank(after, rotations[1..], idOf))
  }

  function Tried(rotations: seq<seq<Answer>>, tries: nat): seq<Answer>
    requires forall k :: 0 <= k < |rotations| ==> |rotations[k]| >= tries
  {
    if rotations == [] then [] else rotations[0][..tries] + Tried(rotations[1..], tries)
  }

  lemma ReadyTogether(a: seq<Answer>, b: seq<Answer>)
    requires AllReady(a) && AllReady(b)
    ensures AllReady(a + b)
  {
  }

  lemma {:induction false} BlankIsSilent(fl: Flow, rotations: seq<seq<Answer>>, idOf: Naming)
    requires GoodRotations(fl, rotations) && fl.history.Some?
    ensures Sound(fl, Tried(rotations, Tries(fl.pool))) && AllReady(Tried(rotations, Tries(fl.pool)))
    ensures AllBlank(fl, rotations, idOf) <==> Silent(fl, Tried(rotations, Tries(fl.pool)), idOf)
    decreases |rotations|
  {
    hide Rotated, IsPermutation, Step, Valid;
    if rotations != [] {
      var tries, answers := Tries(fl.pool), rotations[0];
      RotationsGoOn(fl, rotations, idOf);
      FailedIsSilent(fl, answers, tries, true, idOf);
      var after := Rotated(fl, answers, tries, true, idOf).0;
      BlankIsSilent(after, rotations[1..], idOf);
      SoundElsewhere(after, fl, Tried(rotations[1..], tries));
      ReadyTogether(answers[..tries], Tried(rotations[1..], tries));
      StepsTogether(fl, answers[..tries], Tried(rotations[1..], tries), idOf);
    }
  }

  lemma {:induction false} TriedLength(rotations: seq<seq<Answer>>, tries: nat)
    requires forall k :: 0 <= k < |rotations| ==> |rotations[k]| >= tries
    ensures |Tried(rotations, tries)| == tries * |rotations|
  {
    if rotations != [] {
      TriedLength(rotations[1..], tries);
      assert tries * |rotations| == tries + tries * |rotations[1..]|;
    }
  }

  ghost predicate ShowsWithin(n: nat, rotations: nat) {
    forall fl: Flow, met: seq<seq<Answer>>, idOf: Naming {:trigger AllBlank(fl, met, idOf)} ::
      Reached(fl, n, idOf) && GoodRotations(fl, met) && |met| == rotations ==> !AllBlank(fl, met, idOf)
  }

  function UniformRotations(dealt: seq<nat>, rotations: nat): (met: seq<seq<Answer>>)
    ensures |met| == rotations && forall k :: 0 <= k < rotations ==> |met[k]| == TRIES_PER_ROTATION + SPARES
  {
    seq(rotations, _ => Uniform(dealt, TRIES_PER_ROTATION + SPARES))
  }

  lemma {:induction false} UniformTried(dealt: seq<nat>, rotations: nat, tries: nat)
    requires tries <= TRIES_PER_ROTATION
    ensures Tried(UniformRotations(dealt, rotations), tries) == Uniform(dealt, tries * rotations)
    decreases rotations
  {
    if rotations > 0 {
      UniformTried(dealt, rotations - 1, tries);
      assert UniformRotations(dealt, rotations)[1..] == UniformRotations(dealt, rotations - 1);
      assert tries * rotations == tries + tries * (rotations - 1);
    }
  }

  lemma UniformRotationsAreGood(fl: Flow, dealt: seq<nat>, rotations: nat)
    requires Valid(fl.pool) && IsPermutation(dealt, |fl.pool.items|)
    ensures GoodRotations(fl, UniformRotations(dealt, rotations))
  {
    UniformIsSound(fl, dealt, TRIES_PER_ROTATION + SPARES);
  }

  /** Exactly: so many rotations on end are sure to show a photo if and only if the
      pool has more than 64 photos and their tries, ten each, outlast the longest
      silence. */
  lemma RotationsShowExactly(n: nat, rotations: nat)
    ensures ShowsWithin(n, rotations)
       <==> n > SENT_HISTORY && TRIES_PER_ROTATION * rotations > LongestSilence(n)
  {
    hide Silent, Sound, IsPermutation, AllBlank, DistinctNames, Valid, Uniform, AllReady, AllDelivered, Reached, Fair,
      LongestSilence, GoodRotations;
    if n > SENT_HISTORY && TRIES_PER_ROTATION * rotations > LongestSilence(n) {
      forall fl: Flow, met: seq<seq<Answer>>, idOf: Naming
        | Reached(fl, n, idOf) && GoodRotations(fl, met) && |met| == rotations
        ensures !AllBlank(fl, met, idOf)
      {
        ReachedIsFair(fl, n, idOf);
        BlankRotationsEnd(fl, met, idOf);
      }
    } else {
      var tries := if n < TRIES_PER_ROTATION then n else TRIES_PER_ROTATION;
      var fl, dealt := SilentRun(n, tries * rotations);
      ReachedIsFair(fl, n, BY_ITEM);
      FairHolds(fl, BY_ITEM);
      UniformRotationsAreGood(fl, dealt, rotations);
      UniformTried(dealt, rotations, tries);
      BlankIsSilent(fl, UniformRotations(dealt, rotations), BY_ITEM);
    }
  }

  lemma FairHolds(fl: Flow, idOf: Naming)
    requires Fair(fl, idOf)
    ensures Valid(fl.pool) && fl.history.Some? && |fl.history.value| <= SENT_HISTORY
  {
  }

  lemma BlankRotationsEnd(fl: Flow, met: seq<seq<Answer>>, idOf: Naming)
    requires Fair(fl, idOf) && DistinctNames(fl.pool.items, idOf) && GoodRotations(fl, met)
    requires |fl.pool.items| > SENT_HISTORY
    requires TRIES_PER_ROTATION * |met| > LongestSilence(|fl.pool.items|)
    ensures !AllBlank(fl, met, idOf)
  {
    FairHolds(fl, idOf);
    TriedLength(met, TRIES_PER_ROTATION);
    hide Silent, AllBlank, Fair, IsPermutation, Sound, DistinctNames, LongestSilence;
    BlankIsSilent(fl, met, idOf);
    FairSilenceEnds(fl, Tried(met, TRIES_PER_ROTATION), idOf);
  }

  /** In numbers: from 128 photos on, seven rotations are sure to show one and six are
      not; with 65 it takes thirteen. */
  lemma RotationsInNumbers(n: nat)
    ensures n >= 128 ==> ShowsWithin(n, 7) && !ShowsWithin(n, 6)
    ensures ShowsWithin(65, 13) && !ShowsWithin(65, 12)
  {
    hide ShowsWithin;
    RotationsShowExactly(n, 7);
    RotationsShowExactly(n, 6);
    RotationsShowExactly(65, 13);
    RotationsShowExactly(65, 12);
  }
}
