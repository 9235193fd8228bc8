// Keeping a frame's pool of photos filled: from the chosen source when it
// answers, from the bundled photos when it has nothing, and with a growing
// pause between attempts at a source that keeps having nothing.
module Coordinator {
  import opened Arithmetic
  import opened Wrappers
  import opened PlayOrder
  import MediaWalk

  const POOL_REFRESH_SECONDS: real := 3600.0
  const FALLBACK_RETRY_BASE_SECONDS: real := 60.0
  const FALLBACK_RETRY_MAX_SECONDS: real := 1800.0
  const FALLBACK_SOURCE := "sample"

  /** A source's listing, complete or broken off by an error. */
  datatype Answer = Listed(refs: seq<PhotoRef>) | Unavailable

  // Building the list.

  predicate IsImage(ref: PhotoRef) {
    "image/" <= ref.mimeType
  }

  function Key(ref: PhotoRef): (string, string) {
    (ref.sourceId, ref.itemId)
  }

  /** The images of a listing, each at its first appearance, leaving out `seen`. */
  function Deduped(refs: seq<PhotoRef>, seen: set<(string, string)>): seq<PhotoRef> {
    if refs == [] then []
    else if !IsImage(refs[0]) || Key(refs[0]) in seen then Deduped(refs[1..], seen)
    else [refs[0]] + Deduped(refs[1..], seen + {Key(refs[0])})
  }

  ghost predicate OncePerKey(refs: seq<PhotoRef>) {
    forall i, j :: 0 <= i < j < |refs| ==> Key(refs[i]) != Key(refs[j])
  }

  lemma {:induction false} DedupedIsSound(refs: seq<PhotoRef>, seen: set<(string, string)>)
    ensures forall ref :: ref in Deduped(refs, seen) ==> ref in refs && IsImage(ref) && Key(ref) !in seen
  {
    hide IsImage, Key;
    if refs != [] {
      if !IsImage(refs[0]) || Key(refs[0]) in seen {
        DedupedIsSound(refs[1..], seen);
      } else {
        DedupedIsSound(refs[1..], seen + {Key(refs[0])});
      }
    }
  }

  lemma {:induction false} DedupedIsComplete(refs: seq<PhotoRef>, seen: set<(string, string)>, ref: PhotoRef)
    returns (kept: PhotoRef)
    requires ref in refs && IsImage(ref) && Key(ref) !in seen
    ensures kept in Deduped(refs, seen) && Key(kept) == Key(ref)
  {
    hide IsImage, Key;
    if !IsImage(refs[0]) || Key(refs[0]) in seen {
      kept := DedupedIsComplete(refs[1..], seen, ref);
    } else if Key(refs[0]) == Key(ref) {
      kept := refs[0];
    } else {
      kept := DedupedIsComplete(refs[1..], seen + {Key(refs[0])}, ref);
    }
  }

  lemma {:induction false} DedupedIsOncePerKey(refs: seq<PhotoRef>, seen: set<(string, string)>)
    ensures OncePerKey(Deduped(refs, seen))
  {
    hide IsImage, Key;
    if refs != [] {
      if !IsImage(refs[0]) || Key(refs[0]) in seen {
        DedupedIsOncePerKey(refs[1..], seen);
      } else {
        var seen' := seen + {Key(refs[0])};
        DedupedIsOncePerKey(refs[1..], seen');
        DedupedIsSound(refs[1..], seen');
        var rest := Deduped(refs[1..], seen');
        assert forall i :: 0 <= i < |rest| ==> rest[i] in rest;
      }
    }
  }

  /** Whether entry `k` of a listing is an image and the first of its kind there. */
  predicate IsFirst(refs: seq<PhotoRef>, k: nat)
    requires k < |refs|
  {
    && "image/" <= refs[k].mimeType
    && forall j :: 0 <= j < k && "image/" <= refs[j].mimeType ==>
         refs[j].sourceId != refs[k].sourceId || refs[j].itemId != refs[k].itemId
  }

  /** The first image of each kind among the first `n` entries, in the order listed. */
  function Firsts(refs: seq<PhotoRef>, n: nat): seq<PhotoRef>
    requires n <= |refs|
  {
    if n == 0 then [] else Firsts(refs, n - 1) + (if IsFirst(refs, n - 1) then [refs[n - 1]] else [])
  }

  function KeysSeen(refs: seq<PhotoRef>, n: nat): set<(string, string)>
    requires n <= |refs|
  {
    if n == 0 then {} else KeysSeen(refs, n - 1) + (if IsImage(refs[n - 1]) then {Key(refs[n - 1])} else {})
  }

  lemma {:induction false} SeenIsEarlier(refs: seq<PhotoRef>, n: nat, key: (string, string))
    requires n <= |refs|
    ensures key in KeysSeen(refs, n) <==> exists j :: 0 <= j < n && IsImage(refs[j]) && Key(refs[j]) == key
  {
    hide IsImage, Key;
    if n > 0 {
      SeenIsEarlier(refs, n - 1, key);
    }
  }

  lemma NewIsFirst(refs: seq<PhotoRef>, k: nat)
    requires k < |refs|
    ensures IsFirst(refs, k) <==> IsImage(refs[k]) && Key(refs[k]) !in KeysSeen(refs, k)
  {
    SeenIsEarlier(refs, k, Key(refs[k]));
  }

  lemma {:induction false} DedupedFrom(refs: seq<PhotoRef>, n: nat)
    requires n <= |refs|
    ensures Firsts(refs, n) + Deduped(refs[n..], KeysSeen(refs, n)) == Firsts(refs, |refs|)
    decreases |refs| - n
  {
    hide IsImage, Key, IsFirst;
    if n < |refs| {
      assert refs[n..][1..] == refs[n + 1..];
      NewIsFirst(refs, n);
      DedupedFrom(refs, n + 1);
      var seen, rest := KeysSeen(refs, n), refs[n + 1..];
      if IsFirst(refs, n) {
        assert Firsts(refs, n) + [refs[n]] + Deduped(rest, seen + {Key(refs[n])})
            == Firsts(refs, n) + ([refs[n]] + Deduped(rest, seen + {Key(refs[n])}));
      } else {
        assert KeysSeen(refs, n + 1) == seen;
      }
    }
  }

  /** The pool built from a listing is the first image of each kind, in the order listed. */
  lemma DedupedIsTheFirsts(refs: seq<PhotoRef>)
    ensures Deduped(refs, {}) == Firsts(refs, |refs|)
    ensures Deduped(refs, {}) == [] <==> forall k :: 0 <= k < |refs| ==> !("image/" <= refs[k].mimeType)
  {
    DedupedFrom(refs, 0);
    assert refs[0..] == refs;
    DedupedIsSound(refs, {});
    forall k | 0 <= k < |refs| && "image/" <= refs[k].mimeType
      ensures Deduped(refs, {}) != []
    {
      var kept := DedupedIsComplete(refs, {}, refs[k]);
    }
    if Deduped(refs, {}) != [] {
      assert Deduped(refs, {})[0] in Deduped(refs, {});
    }
  }

  method BuildPool(refs: seq<PhotoRef>) returns (items: seq<PhotoRef>)
    ensures items == Deduped(refs, {})
  {
    hide IsImage;
    var seen: set<(string, string)> := {};
    items := [];
    for i := 0 to |refs|
      invariant items + Deduped(refs[i..], seen) == Deduped(refs, {})
    {
      assert refs[i..][1..] == refs[i + 1..];
      if !IsImage(refs[i]) {
        continue;
      }
      if Key(refs[i]) in seen {
        continue;
      }
      seen := seen + {Key(refs[i])};
      items := items + [refs[i]];
    }
  }

  /** A media source's photos as the coordinator receives them. */
  function Refs(items: seq<string>): seq<PhotoRef> {
    seq(|items|, i requires 0 <= i < |items| => PhotoRef("media_source", items[i], "image/jpeg"))
  }

  /** Below the cap, the pool built from a walk holds every photo that the chosen
      folders lead to exactly once, and nothing else. */
  lemma PoolIsTheReachablePhotos(g: MediaWalk.Source, selection: seq<string>, cap: nat)
    requires |MediaWalk.AllItems(g, selection)| <= cap
    ensures var pool := Deduped(Refs(MediaWalk.Take(MediaWalk.AllItems(g, selection), cap)), {});
      var starts := if selection == [] then ["media-source://"] else selection;
      && (forall i, j :: 0 <= i < j < |pool| ==> pool[i].itemId != pool[j].itemId)
      && (forall photo :: MediaWalk.Offers(g, starts, photo)
            <==> PhotoRef("media_source", photo, "image/jpeg") in pool)
      && (forall ref :: ref in pool ==> ref.sourceId == "media_source" && IsImage(ref))
  {
    hide MediaWalk.AllItems, MediaWalk.Offers, Deduped;
    var items := MediaWalk.AllItems(g, selection);
    var refs := Refs(items);
    var pool := Deduped(refs, {});
    DedupedIsSound(refs, {});
    DedupedIsOncePerKey(refs, {});
    forall ref | ref in pool
      ensures ref == PhotoRef("media_source", ref.itemId, "image/jpeg")
    {
      assert ref in refs;
    }
    forall i, j | 0 <= i < j < |pool|
      ensures pool[i].itemId != pool[j].itemId
    {
      assert pool[i] in pool && pool[j] in pool;
    }
    var starts := if selection == [] then ["media-source://"] else selection;
    forall photo
      ensures MediaWalk.Offers(g, starts, photo)
         <==> PhotoRef("media_source", photo, "image/jpeg") in pool
    {
      MediaWalk.AllItemsAreTheReachablePhotos(g, selection, photo);
      RefsKeepItems(items, photo);
      var ref := PhotoRef("media_source", photo, "image/jpeg");
      if ref in refs {
        JpegIsAnImage(ref);
        var kept := DedupedIsComplete(refs, {}, ref);
      }
    }
  }

  lemma RefsKeepItems(items: seq<string>, photo: string)
    ensures photo in items <==> PhotoRef("media_source", photo, "image/jpeg") in Refs(items)
  {
    var refs := Refs(items);
    assert forall i :: 0 <= i < |items| ==> refs[i] == PhotoRef("media_source", items[i], "image/jpeg");
  }

  lemma JpegIsAnImage(ref: PhotoRef)
    requires ref.mimeType == "image/jpeg"
    ensures IsImage(ref)
  {
    assert ref.mimeType[..6] == "image/";
  }

  // When to look again.

  function Backoff(failures: nat): real {
    var doubled := FALLBACK_RETRY_BASE_SECONDS * Pow2(Min(failures, 8)) as real;
    if doubled < FALLBACK_RETRY_MAX_SECONDS then doubled else FALLBACK_RETRY_MAX_SECONDS
  }

  datatype State = State(
    items: seq<PhotoRef>, usingFallback: bool, failed: nat, refreshedAt: Option<real>, errorKnown: bool)

  predicate ShouldRefresh(s: State, now: real) {
    match s.refreshedAt
    case None => true
    case Some(at) =>
      if s.usingFallback then now - at >= Backoff(s.failed) else now - at >= POOL_REFRESH_SECONDS
  }

  /** One refresh: the walk starts at `start` and is over at `end`. */
  datatype Refresh = Refresh(start: real, end: real, answer: Answer)

  /** What one refresh makes of the pool; `standIn` are the bundled photos. */
  function Refreshed(s: State, r: Refresh, standIn: seq<PhotoRef>, bundled: bool): State {
    match r.answer
    case Unavailable => s.(errorKnown := true, refreshedAt := Some(r.end), failed := s.failed + 1)
    case Listed(refs) =>
      var items := Deduped(refs, {});
      if items != [] then State(items, false, 0, Some(r.end), false)
      else if bundled then s.(items := [], refreshedAt := Some(r.end))
      else s.(items := standIn, usingFallback := true, failed := s.failed + 1, refreshedAt := Some(r.end))
  }

  predicate Provides(r: Refresh) {
    r.answer.Listed? && Deduped(r.answer.refs, {}) != []
  }

  ghost predicate HasImage(refs: seq<PhotoRef>) {
    exists k :: 0 <= k < |refs| && "image/" <= refs[k].mimeType
  }

  class FrameCoordinator {
    const pool: PhotoPool
    const standIn: seq<PhotoRef>
    const sourceId: string
    var usingFallback: bool
    var failedRefreshes: nat
    var poolRefreshedAt: Option<real>
    var errorKnown: bool

    ghost predicate Valid()
      reads this, pool
    {
      PlayOrder.Valid(pool.State())
    }

    function Now(): State
      reads this, pool
    {
      State(pool.items, usingFallback, failedRefreshes, poolRefreshedAt, errorKnown)
    }

    constructor (pool: PhotoPool, standIn: seq<PhotoRef>, sourceId: string)
      requires pool.State() == Pool([], [], 0)
      ensures Valid() && Now() == State([], false, 0, None, false)
      ensures this.pool == pool && this.standIn == standIn && this.sourceId == sourceId
    {
      this.pool, this.standIn, this.sourceId := pool, standIn, sourceId;
      usingFallback, failedRefreshes, poolRefreshedAt, errorKnown := false, 0, None, false;
    }

    /** Re-read the source. `deal` is what the shuffle would make of a pool of any size. */
    method RefreshPool(r: Refresh, deal: nat -> seq<nat>)
      requires Valid() && forall n :: IsPermutation(deal(n), n)
      modifies this, pool
      ensures Valid()
      ensures Now() == Refreshed(old(Now()), r, standIn, sourceId == FALLBACK_SOURCE)
      // An error leaves the pool as it is; a listing is played from the start of a new order.
      ensures poolRefreshedAt == Some(r.end)
      ensures r.answer.Unavailable? ==> pool.State() == old(pool.State()) && usingFallback == old(usingFallback)
      ensures r.answer.Listed? && HasImage(r.answer.refs) ==>
        var items := Firsts(r.answer.refs, |r.answer.refs|);
        pool.State() == Pool(items, deal(|items|), 0) && !usingFallback
      ensures r.answer.Listed? && !HasImage(r.answer.refs) ==>
        if sourceId == "sample"
        then pool.State() == old(pool.State()).(items := []) && usingFallback == old(usingFallback)
        else pool.State() == Pool(standIn, deal(|standIn|), 0) && usingFallback
    {
      hide Deduped, Firsts, IsPermutation;
      if r.answer.Unavailable? {
        errorKnown := true;
        poolRefreshedAt := Some(r.end);
        failedRefreshes := failedRefreshes + 1;
        return;
      }
      var items := BuildPool(r.answer.refs);
      DedupedIsTheFirsts(r.answer.refs);
      poolRefreshedAt := Some(r.end);
      if items != [] {
        failedRefreshes := 0;
        usingFallback := false;
        pool.Replace(items, deal(|items|));
        errorKnown := false;
        return;
      }
      if sourceId == FALLBACK_SOURCE {
        pool.Drain();
        return;
      }
      failedRefreshes := failedRefreshes + 1;
      usingFallback := true;
      pool.Replace(standIn, deal(|standIn|));
    }

    method OnTick(r: Refresh, deal: nat -> seq<nat>)
      requires Valid() && forall n :: IsPermutation(deal(n), n)
      modifies this, pool
      ensures Valid()
      ensures Now() == if ShouldRefresh(old(Now()), r.start)
                       then Refreshed(old(Now()), r, standIn, sourceId == FALLBACK_SOURCE) else old(Now())
    {
      if ShouldRefresh(Now(), r.start) {
        RefreshPool(r, deal);
      }
    }
  }

  // Whole runs of refreshes. Ticks that decide against one change nothing.

  const INITIAL := State([], false, 0, None, false)

  ghost function After(refreshes: seq<Refresh>, standIn: seq<PhotoRef>, bundled: bool): State
    decreases |refreshes|
  {
    if refreshes == [] then INITIAL
    else Refreshed(After(refreshes[..|refreshes| - 1], standIn, bundled), refreshes[|refreshes| - 1], standIn, bundled)
  }

  /** The last listing that came back, complete. */
  function LastListing(refreshes: seq<Refresh>): Option<seq<PhotoRef>>
    decreases |refreshes|
  {
    if refreshes == [] then None
    else match refreshes[|refreshes| - 1].answer
      case Listed(refs) => Some(refs)
      case Unavailable => LastListing(refreshes[..|refreshes| - 1])
  }

  /** Whatever came before, the pool is what the last complete listing makes it: its
      images, or the bundled photos if it had none (nothing, if they are the source). */
  lemma {:induction false} PoolIsTheLastListing(refreshes: seq<Refresh>, standIn: seq<PhotoRef>, bundled: bool)
    ensures var s := After(refreshes, standIn, bundled);
      match LastListing(refreshes)
      case None => s.items == [] && !s.usingFallback
      case Some(refs) =>
        if HasImage(refs) then s.items == Firsts(refs, |refs|) && !s.usingFallback
        else if bundled then s.items == [] && !s.usingFallback
        else s.items == standIn && s.usingFallback
    decreases |refreshes|
  {
    hide Deduped, Firsts;
    if refreshes != [] {
      PoolIsTheLastListing(refreshes[..|refreshes| - 1], standIn, bundled);
      var last := refreshes[|refreshes| - 1];
      if last.answer.Listed? {
        DedupedIsTheFirsts(last.answer.refs);
      }
    }
  }

  /** How many refreshes there have been since one that provided photos. The bundled
      photos' own listing coming back empty is no failure. */
  ghost function SinceProvided(refreshes: seq<Refresh>, bundled: bool): nat
    decreases |refreshes|
  {
    if refreshes == [] then 0
    else
      var last, before := refreshes[|refreshes| - 1].answer, refreshes[..|refreshes| - 1];
      if last.Listed? && HasImage(last.refs) then 0
      else (if last.Listed? && bundled then 0 else 1) + SinceProvided(before, bundled)
  }

  /** An error is remembered until photos are provided again. */
  ghost predicate ErrorSince(refreshes: seq<Refresh>)
    decreases |refreshes|
  {
    && refreshes != []
    && var last := refreshes[|refreshes| - 1].answer;
       last.Unavailable? || (!HasImage(last.refs) && ErrorSince(refreshes[..|refreshes| - 1]))
  }

  /** The failure counter counts exactly the refreshes since the source last provided photos. */
  lemma {:induction false} CounterCountsFailures(refreshes: seq<Refresh>, standIn: seq<PhotoRef>, bundled: bool)
    ensures var s := After(refreshes, standIn, bundled);
      && s.failed == SinceProvided(refreshes, bundled) && (s.errorKnown <==> ErrorSince(refreshes))
      && s.refreshedAt == if refreshes == [] then None else Some(refreshes[|refreshes| - 1].end)
    decreases |refreshes|
  {
    hide Deduped, HasImage;
    if refreshes != [] {
      CounterCountsFailures(refreshes[..|refreshes| - 1], standIn, bundled);
      var last := refreshes[|refreshes| - 1];
      if last.answer.Listed? {
        ProvidesMeansImages(last.answer.refs);
      }
    }
  }

  lemma ProvidesMeansImages(refs: seq<PhotoRef>)
    ensures Deduped(refs, {}) != [] <==> HasImage(refs)
  {
    DedupedIsTheFirsts(refs);
  }

  ghost predicate AllFrom(refs: seq<PhotoRef>, source: string) {
    forall ref :: ref in refs ==> ref.sourceId == source
  }

  /** Sources list only their own photos, as the provider contract has it. */
  ghost predicate OwnPhotosOnly(refreshes: seq<Refresh>, source: string) {
    forall k :: 0 <= k < |refreshes| ==>
      refreshes[k].answer.Listed? ==> AllFrom(refreshes[k].answer.refs, source)
  }

  /** The pool holds one source's photos at a time, and the flag says which. */
  lemma {:induction false} PoolIsNeverMixed(refreshes: seq<Refresh>, standIn: seq<PhotoRef>, source: string)
    requires OwnPhotosOnly(refreshes, source) && AllFrom(standIn, FALLBACK_SOURCE)
    ensures var s := After(refreshes, standIn, false);
      && AllFrom(s.items, if s.usingFallback then FALLBACK_SOURCE else source)
      && (s.usingFallback ==> s.items == standIn && s.failed > 0)
    decreases |refreshes|
  {
    hide Deduped;
    if refreshes != [] {
      var last := refreshes[|refreshes| - 1];
      PoolIsNeverMixed(refreshes[..|refreshes| - 1], standIn, source);
      if last.answer.Listed? {
        DedupedIsSound(last.answer.refs, {});
      }
    }
  }

  /** The pool is empty only until a listing first comes back, if there is anything to stand in. */
  lemma {:induction false} EmptyOnlyBeforeTheFirstListing(refreshes: seq<Refresh>, standIn: seq<PhotoRef>)
    requires standIn != []
    ensures After(refreshes, standIn, false).items == []
       <==> forall k :: 0 <= k < |refreshes| ==> refreshes[k].answer.Unavailable?
    ensures After(refreshes, standIn, false).items == [] ==> !After(refreshes, standIn, false).usingFallback
    decreases |refreshes|
  {
    hide Deduped;
    if refreshes != [] {
      var before := refreshes[..|refreshes| - 1];
      EmptyOnlyBeforeTheFirstListing(before, standIn);
      assert forall k :: 0 <= k < |before| ==> before[k] == refreshes[k];
    }
  }

  // Pacing.

  /** Each refresh after the first was due when it started, and none overlap. */
  ghost predicate TickDriven(refreshes: seq<Refresh>, standIn: seq<PhotoRef>) {
    && (forall k :: 0 <= k < |refreshes| ==> refreshes[k].start <= refreshes[k].end)
    && (forall k :: 0 < k < |refreshes| ==>
          ShouldRefresh(After(refreshes[..k], standIn, false), refreshes[k].start))
  }

  lemma BackoffSteps()
    ensures Backoff(0) == 60.0 && Backoff(1) == 120.0 && Backoff(2) == 240.0
    ensures Backoff(3) == 480.0 && Backoff(4) == 960.0
  {
    assert Pow2(2) == 4 && Pow2(4) == 16 by {
      assert Pow2(1) == 2 && Pow2(3) == 2 * Pow2(2);
    }
  }

  lemma {:induction false} Pow2Grows(m: nat, n: nat)
    requires m <= n
    ensures Pow2(m) <= Pow2(n)
  {
    if n > 0 {
      Pow2Grows(if m < n then m else m - 1, n - 1);
    }
  }

  lemma BackoffGrows(m: nat, n: nat)
    requires m <= n
    ensures Backoff(m) <= Backoff(n) <= 1800.0
  {
    Pow2Grows(Min(m, 8), Min(n, 8));
  }

  /** From the fifth failure on, the pause is the longest one. */
  lemma BackoffLevelsOff(n: nat)
    requires n >= 5
    ensures Backoff(n) == 1800.0
  {
    BackoffSteps();
    assert Pow2(5) == 2 * Pow2(4);
    BackoffGrows(5, n);
  }

  /** The bundled photos are standing in: the last complete listing had nothing. */
  ghost predicate StandingIn(refreshes: seq<Refresh>, bundled: bool) {
    LastListing(refreshes).Some? && !HasImage(LastListing(refreshes).value) && !bundled
  }

  /** When the next refresh is due: at once if there has been none, an hour after the last
      one, and while the bundled photos stand in after two minutes, doubling up to half
      an hour with each refresh that provides nothing. */
  lemma RefreshIsDueExactly(refreshes: seq<Refresh>, standIn: seq<PhotoRef>, bundled: bool, now: real)
    ensures var failures := SinceProvided(refreshes, bundled);
      ShouldRefresh(After(refreshes, standIn, bundled), now) <==>
        || refreshes == []
        || now - refreshes[|refreshes| - 1].end >=
             if !StandingIn(refreshes, bundled) then 3600.0
             else if failures <= 1 then 120.0
             else if failures == 2 then 240.0
             else if failures == 3 then 480.0
             else if failures == 4 then 960.0
             else 1800.0
  {
    hide After, SinceProvided, HasImage, Backoff, Firsts;
    PoolIsTheLastListing(refreshes, standIn, bundled);
    CounterCountsFailures(refreshes, standIn, bundled);
    BackoffSteps();
    var failures := SinceProvided(refreshes, bundled);
    if StandingIn(refreshes, bundled) {
      StandingInCounts(refreshes, bundled);
      if failures >= 5 {
        BackoffLevelsOff(failures);
      }
    }
  }

  lemma {:induction false} StandingInCounts(refreshes: seq<Refresh>, bundled: bool)
    requires StandingIn(refreshes, bundled)
    ensures SinceProvided(refreshes, bundled) >= 1
    decreases |refreshes|
  {
    hide HasImage;
    var last := refreshes[|refreshes| - 1].answer;
    if last.Unavailable? {
      StandingInCounts(refreshes[..|refreshes| - 1], bundled);
    }
  }

  /** The source is never walked again within two minutes of the last walk. */
  lemma WalksAreApart(refreshes: seq<Refresh>, standIn: seq<PhotoRef>, k: nat)
    requires TickDriven(refreshes, standIn)
    requires 0 < k < |refreshes|
    ensures refreshes[k].start - refreshes[k - 1].end >= 120.0
  {
    hide Deduped, Backoff;
    var s := After(refreshes[..k], standIn, false);
    assert refreshes[..k][..k - 1] == refreshes[..k - 1];
    FallbackMeansFailure(refreshes[..k], standIn);
    if s.usingFallback {
      BackoffGrows(1, s.failed);
      BackoffSteps();
    }
    assert s.refreshedAt == Some(refreshes[k - 1].end);
  }

  lemma {:induction false} FallbackMeansFailure(refreshes: seq<Refresh>, standIn: seq<PhotoRef>)
    ensures var s := After(refreshes, standIn, false); s.usingFallback ==> s.failed > 0
    decreases |refreshes|
  {
    hide Deduped;
    if refreshes != [] {
      FallbackMeansFailure(refreshes[..|refreshes| - 1], standIn);
    }
  }

  function SumOfBackoffs(from: nat, count: nat): real
    decreases count
  {
    if count == 0 then 0.0 else Backoff(from) + SumOfBackoffs(from + 1, count - 1)
  }

  /** Once the bundled photos are up, a refresh that provides nothing leaves them
      up and starts at least the due pause after the last. */
  lemma OneRetry(refreshes: seq<Refresh>, standIn: seq<PhotoRef>, k: nat)
    requires TickDriven(refreshes, standIn) && k + 1 < |refreshes|
    requires After(refreshes[..k + 1], standIn, false).usingFallback
    ensures var s := After(refreshes[..k + 1], standIn, false);
            refreshes[k + 1].start - refreshes[k].end >= Backoff(s.failed)
    ensures var s, s' := After(refreshes[..k + 1], standIn, false), After(refreshes[..k + 2], standIn, false);
            !Provides(refreshes[k + 1]) ==> s'.usingFallback && s'.failed == s.failed + 1
  {
    hide Deduped, Backoff;
    assert refreshes[..k + 1][..k] == refreshes[..k];
    assert refreshes[..k + 2][..k + 1] == refreshes[..k + 1];
    assert After(refreshes[..k + 1], standIn, false).refreshedAt == Some(refreshes[k].end);
  }

  /** `count` refreshes on end that provide nothing, once the bundled photos are
      up, take at least the sum of the growing pauses. */
  lemma {:induction false} RetriesTakeAtLeast(
      refreshes: seq<Refresh>, standIn: seq<PhotoRef>, from: nat, count: nat)
    requires TickDriven(refreshes, standIn) && 0 < count && from + count < |refreshes|
    requires After(refreshes[..from + 1], standIn, false).usingFallback
    requires forall k :: from < k < from + count ==> !Provides(refreshes[k])
    ensures refreshes[from + count].start - refreshes[from].end
         >= SumOfBackoffs(After(refreshes[..from + 1], standIn, false).failed, count)
    decreases count
  {
    hide Backoff, After, Provides;
    OneRetry(refreshes, standIn, from);
    var failed := After(refreshes[..from + 1], standIn, false).failed;
    assert SumOfBackoffs(failed, count) == Backoff(failed) + SumOfBackoffs(failed + 1, count - 1);
    if count > 1 {
      assert !Provides(refreshes[from + 1]);
      RetriesTakeAtLeast(refreshes, standIn, from + 1, count - 1);
    }
  }

  /** A media source never reports an error of its own: a folder that cannot be
      read is an empty one. So a refresh from it provides photos exactly when some
      photo can be reached, and otherwise puts the bundled photos up. */
  lemma MediaSourceFallsBackExactly(
      g: MediaWalk.Source, selection: seq<string>, cap: nat, s: State, r: Refresh, standIn: seq<PhotoRef>)
    requires cap > 0
    requires r.answer == Listed(Refs(MediaWalk.Take(MediaWalk.AllItems(g, selection), cap)))
    ensures var starts := if selection == [] then ["media-source://"] else selection;
      Provides(r) <==> exists photo :: MediaWalk.Offers(g, starts, photo)
    ensures var after := Refreshed(s, r, standIn, false);
      && (after.usingFallback <==> !Provides(r))
      && (!Provides(r) ==> after.items == standIn && after.failed == s.failed + 1)
  {
    hide MediaWalk.AllItems, MediaWalk.Offers;
    var all := MediaWalk.AllItems(g, selection);
    var starts := if selection == [] then ["media-source://"] else selection;
    forall photo
      ensures photo in all <==> MediaWalk.Offers(g, starts, photo)
    {
      MediaWalk.AllItemsAreTheReachablePhotos(g, selection, photo);
    }
    var items := MediaWalk.Take(all, cap);
    if all != [] {
      assert items[0] == all[0] && all[0] in all;
      var ref := PhotoRef("media_source", items[0], "image/jpeg");
      assert Refs(items)[0] == ref;
      JpegIsAnImage(ref);
      var kept := DedupedIsComplete(Refs(items), {}, ref);
    } else {
      assert Refs(items) == [];
    }
  }

  /** With nothing readable at all, the first refresh puts the bundled photos up
      and the next attempt is due two minutes later. */
  lemma UnreachableSourceIsStoodInFor(
      selection: seq<string>, cap: nat, first: Refresh, standIn: seq<PhotoRef>, now: real)
    requires first.answer == Listed(Refs(MediaWalk.Take(MediaWalk.AllItems(map[], selection), cap)))
    ensures var s := After([first], standIn, false);
      s.items == standIn && s.usingFallback && (ShouldRefresh(s, now) <==> now - first.end >= 120.0)
  {
    NothingIsReadable(selection);
    assert Refs([]) == [];
    assert [first][..0] == [];
    assert After([first][..0], standIn, false) == INITIAL;
    BackoffSteps();
  }

  lemma NothingIsReadable(selection: seq<string>)
    ensures MediaWalk.AllItems(map[], selection) == []
  {
    var all := MediaWalk.AllItems(map[], selection);
    if all != [] {
      assert all[0] in all;
      MediaWalk.AllItemsAreTheReachablePhotos(map[], selection, all[0]);
    }
  }

  /** A source behind the same interface may report an error. If it does so on the
      very first refresh, nothing is shown and nothing is tried again for an hour:
      the bundled photos do not step in. */
  lemma FirstErrorMeansAnHourBlank(first: Refresh, standIn: seq<PhotoRef>, now: real)
    requires first.answer.Unavailable?
    ensures var s := After([first], standIn, false);
      s.items == [] && !s.usingFallback && (ShouldRefresh(s, now) <==> now - first.end >= 3600.0)
  {
    assert [first][..0] == [];
    assert After([first][..0], standIn, false) == INITIAL;
  }
}
