// Asking for the previous photo just after a rotation: the spares that followed the
// photo moved the same order on.
module GoingBack {
  import opened Wrappers
  import opened FiniteSets
  import opened PlayOrder
  import opened FrameSessions
  import opened Delivery

  /** Taking two different ids in turn, the first is let go again only if it was
      the oldest of a full history. */
  lemma FirstOfTwoIsHeld(held: seq<PhotoId>, a: PhotoId, b: PhotoId)
    requires Distinct(held) && |held| <= SENT_HISTORY && a != b
    ensures a !in Offered(Offered(held, a).0, b).0
       <==> |held| == SENT_HISTORY && held[0] == a && b !in held
  {
    var first := Offered(held, a).0;
    if a in held {
      var i :| 0 <= i < |held| && held[i] == a;
      var all := held + [b];
      if b !in held && i > 0 {
        assert Newest(all)[if |held| == SENT_HISTORY then i - 1 else i] == a;
      } else if b !in held && |held| < SENT_HISTORY {
        assert Newest(all)[i] == a;
      }
    } else {
      assert first[|first| - 1] == a;
      if b !in first {
        var all := first + [b];
        assert Newest(all)[|Newest(all)| - 2] == all[|all| - 2] == a;
      }
    }
  }

  /** Some photo of the order has been drawn. */
  ghost predicate MidPlay(p: Pool) {
    p.items != [] && IsPermutation(p.order, |p.items|) && 0 < p.cursor <= |p.order|
  }

  ghost function LastDrawn(p: Pool): PhotoRef
    requires MidPlay(p)
  {
    p.items[p.order[p.cursor - 1]]
  }

  ghost predicate Proper(history: Option<seq<PhotoId>>) {
    history.Some? ==> Distinct(history.value) && |history.value| <= SENT_HISTORY
  }

  lemma OfferedStaysProper(held: seq<PhotoId>, id: PhotoId)
    requires Proper(Some(held))
    ensures Proper(Some(Offered(held, id).0)) && id in Offered(held, id).0
  {
    var after := Offered(held, id).0;
    if id !in held {
      assert after[|after| - 1] == id;
    }
  }

  lemma DrawnIsMidPlay(p: Pool, dealt: seq<nat>)
    requires Valid(p) && IsPermutation(dealt, |p.items|) && p.items != []
    ensures var (ref, next) := Drawn(p, dealt); MidPlay(next) && ref == Some(LastDrawn(next))
  {
  }

  /** A rotation that shows a photo: which attempt showed it, and how things stood
      just after it, before the spares. */
  lemma {:induction false} RotationShows(
      fl: Flow, answers: seq<Answer>, tries: nat, connected: bool, idOf: Naming)
    returns (i: nat, shown: Flow)
    requires Sound(fl, answers) && |answers| >= tries + SPARES && Proper(fl.history)
    requires Rotated(fl, answers, tries, connected, idOf).1.Some?
    ensures i < tries && shown == Steps(fl, answers[..i + 1], idOf)
    ensures Sound(shown, answers[i + 1..]) && MidPlay(shown.pool) && shown.pool.items == fl.pool.items
    ensures shown.history.Some? && Proper(shown.history) && idOf(LastDrawn(shown.pool)) in shown.history.value
    ensures Rotated(fl, answers, tries, connected, idOf)
         == (ToppedUp(shown, answers[i + 1..], connected, idOf), Some(idOf(LastDrawn(shown.pool))))
    decreases tries
  {
    hide Rotated, ToppedUp, IsPermutation, Valid, MidPlay, Proper, Offered, Drawn;
    NothingLeft(fl, answers, connected, idOf);
    if fl.pool.items == [] {
      NothingDrawn(fl, answers, tries, connected, idOf);
    }
    RotatedStep(fl, answers, tries, connected, idOf);
    ShownIsStep(fl, answers[0], idOf);
    DrawnIsMidPlay(fl.pool, answers[0].dealt);
    StepStaysProper(fl, answers[0], idOf);
    var (ref, pool) := Drawn(fl.pool, answers[0].dealt);
    var (next, id) := Shown(fl.(pool := pool), ref.value, answers[0], idOf);
    DrawnKeepsItems(fl.pool, answers[0].dealt);
    if id.Some? {
      i, shown := 0, next;
      OneThenMore(fl, answers, 0, idOf);
      assert answers[1..][..0] == [];
    } else {
      var i', shown' := RotationShows(next, answers[1..], tries - 1, connected, idOf);
      i, shown := i' + 1, shown';
      OneThenMore(fl, answers, i, idOf);
      assert answers[1..][i' + 1..] == answers[i + 1..];
    }
  }

  lemma DrawnKeepsItems(p: Pool, dealt: seq<nat>)
    requires Valid(p) && IsPermutation(dealt, |p.items|)
    ensures Drawn(p, dealt).1.items == p.items
  {
  }

  lemma StepStaysProper(fl: Flow, a: Answer, idOf: Naming)
    requires Valid(fl.pool) && IsPermutation(a.dealt, |fl.pool.items|) && fl.pool.items != [] && Proper(fl.history)
    ensures var (ref, pool) := Drawn(fl.pool, a.dealt);
      && ref.Some?
      && var (after, id) := Shown(fl.(pool := pool), ref.value, a, idOf);
      && Proper(after.history) && after.pool == pool
      && (id.Some? ==> id.value == idOf(ref.value) && after.history.Some? && id.value in after.history.value)
  {
    hide IsPermutation, Offered, Proper;
    var (ref, pool) := Drawn(fl.pool, a.dealt);
    if fl.history.Some? {
      OfferedStaysProper(fl.history.value, idOf(ref.value));
    }
  }

  /** How many spares a rotation draws: none without a connection, and no second one
      if the first turns out to have no address to be served from. */
  function SparesDrawn(spares: seq<Answer>, connected: bool): nat
    requires |spares| >= SPARES
  {
    if !connected then 0 else if spares[0].prepared && !spares[0].addressed then 1 else 2
  }

  predicate IsOffered(a: Answer) {
    a.prepared && a.addressed
  }

  ghost function FirstSpare(p: Pool, spares: seq<Answer>): (PhotoRef, Pool)
    requires MidPlay(p) && Dealable(p, spares)
  {
    var (ref, next) := Drawn(p, spares[0].dealt);
    (ref.value, next)
  }

  ghost predicate Dealable(p: Pool, spares: seq<Answer>) {
    && |spares| >= SPARES && IsPermutation(spares[0].dealt, |p.items|) && IsPermutation(spares[1].dealt, |p.items|)
  }

  ghost function SecondSpare(p: Pool, spares: seq<Answer>): (PhotoRef, Pool)
    requires MidPlay(p) && Dealable(p, spares)
  {
    var (ref, next) := Drawn(FirstSpare(p, spares).1, spares[1].dealt);
    (ref.value, next)
  }

  ghost function PoolAfterSpares(p: Pool, spares: seq<Answer>, drawn: nat): Pool
    requires MidPlay(p) && Dealable(p, spares)
  {
    if drawn == 0 then p else if drawn == 1 then FirstSpare(p, spares).1 else SecondSpare(p, spares).1
  }

  ghost function HeldAfterSpares(held: seq<PhotoId>, p: Pool, spares: seq<Answer>, drawn: nat, idOf: Naming)
    : seq<PhotoId>
    requires MidPlay(p) && Dealable(p, spares)
  {
    var one := if drawn > 0 && IsOffered(spares[0]) then Offered(held, idOf(FirstSpare(p, spares).0)).0 else held;
    if drawn > 1 && IsOffered(spares[1]) then Offered(one, idOf(SecondSpare(p, spares).0)).0 else one
  }

  lemma SparesAre(fl: Flow, spares: seq<Answer>, connected: bool, idOf: Naming)
    requires Sound(fl, spares) && |spares| >= SPARES && MidPlay(fl.pool) && fl.history.Some?
    ensures Dealable(fl.pool, spares)
    ensures var drawn := SparesDrawn(spares, connected);
      ToppedUp(fl, spares, connected, idOf)
        == Flow(PoolAfterSpares(fl.pool, spares, drawn),
                Some(HeldAfterSpares(fl.history.value, fl.pool, spares, drawn, idOf)))
  {
    assert spares[0].dealt == spares[..SPARES][0].dealt && spares[1].dealt == spares[..SPARES][1].dealt;
    DealableFrom(fl, spares);
    if connected {
      var two := spares[..SPARES];
      SparesAreTheBatch(fl, spares, idOf);
      DrawnIsMidPlay(fl.pool, two[0].dealt);
      hide IsPermutation, Valid, MidPlay, Offered, ToppedUp, Batch, Drawn;
      BatchStep(fl, two, idOf);
      if IsOffered(two[0]) || !two[0].prepared {
        var first := FirstSpare(fl.pool, spares);
        var fl1 := Shown(fl.(pool := first.1), first.0, two[0], idOf).0;
        SecondOfBatch(fl1, two[1..], idOf);
        assert two[1..][0] == spares[1];
      }
    }
  }

  lemma DealableFrom(fl: Flow, spares: seq<Answer>)
    requires Sound(fl, spares) && |spares| >= SPARES
    ensures Dealable(fl.pool, spares)
  {
    hide IsPermutation;
  }

  lemma SecondOfBatch(fl: Flow, answers: seq<Answer>, idOf: Naming)
    requires Sound(fl, answers) && |answers| == 1 && fl.pool.items != [] && fl.history.Some?
    ensures IsPermutation(answers[0].dealt, |fl.pool.items|)
    ensures var (ref, pool) := Drawn(fl.pool, answers[0].dealt);
      && ref.Some?
      && Batch(fl, answers, idOf).0 == Flow(pool,
           Some(if IsOffered(answers[0]) then Offered(fl.history.value, idOf(ref.value)).0 else fl.history.value))
  {
    hide IsPermutation, Offered, Batch;
    BatchStep(fl, answers, idOf);
    var (ref, pool) := Drawn(fl.pool, answers[0].dealt);
    var after := Shown(fl.(pool := pool), ref.value, answers[0], idOf).0;
    assert answers[1..] == [];
    NothingLeft(after, [], true, idOf);
  }

  lemma SparesAreTheBatch(fl: Flow, spares: seq<Answer>, idOf: Naming)
    requires |spares| >= SPARES && Sound(fl, spares) && fl.history.Some?
    ensures Sound(fl, spares[..SPARES])
    ensures ToppedUp(fl, spares, true, idOf) == Batch(fl, spares[..SPARES], idOf).0
  {
    hide IsPermutation;
  }

  /** What stepping back finds, by where the order had got to when the photo was
      shown and by how many spares were drawn after it. */
  ghost function FoundGoingBack(p: Pool, spares: seq<Answer>, drawn: nat): PhotoRef
    requires MidPlay(p) && Dealable(p, spares)
  {
    if drawn == 0 then p.items[p.order[if p.cursor >= 2 then p.cursor - 2 else 0]]
    else if drawn == 1 then (if NeedsShuffle(p) then FirstSpare(p, spares).0 else LastDrawn(p))
    else if NeedsShuffle(FirstSpare(p, spares).1) then SecondSpare(p, spares).0
    else FirstSpare(p, spares).0
  }

  lemma BackFinds(p: Pool, spares: seq<Answer>, drawn: nat, dealt: seq<nat>)
    requires MidPlay(p) && Dealable(p, spares) && IsPermutation(dealt, |p.items|) && drawn <= 2
    ensures Valid(PoolAfterSpares(p, spares, drawn)) && PoolAfterSpares(p, spares, drawn).items == p.items
    ensures DrawnBack(PoolAfterSpares(p, spares, drawn), dealt).0 == Some(FoundGoingBack(p, spares, drawn))
    ensures DrawnBack(PoolAfterSpares(p, spares, drawn), dealt).1.items == p.items
  {
  }

  /** `a` was the oldest of a full history and taking `b` pushed it out. */
  predicate LetGo(held: seq<PhotoId>, a: PhotoId, b: PhotoId) {
    |held| == SENT_HISTORY && held[0] == a && b !in held
  }

  /** Whether the photo found is not held any more, told from what was held before
      the spares and from what became of them. */
  ghost predicate FreeAgain(held: seq<PhotoId>, p: Pool, spares: seq<Answer>, drawn: nat, idOf: Naming)
    requires MidPlay(p) && Dealable(p, spares)
  {
    var a, b := idOf(FirstSpare(p, spares).0), idOf(SecondSpare(p, spares).0);
    if drawn < 2 then idOf(FoundGoingBack(p, spares, drawn)) !in held
    else if NeedsShuffle(FirstSpare(p, spares).1) then
      !IsOffered(spares[1]) && b !in (if IsOffered(spares[0]) then Offered(held, a).0 else held)
    else
      (!IsOffered(spares[0]) && a !in held) || (IsOffered(spares[1]) && LetGo(held, a, b))
  }

  lemma LetGoExactly(held: seq<PhotoId>, a: PhotoId, b: PhotoId)
    requires Proper(Some(held)) && a != b && a in held
    ensures a !in Offered(held, b).0 <==> LetGo(held, a, b)
  {
    FirstOfTwoIsHeld(held, a, b);
  }

  lemma NeverHeldIsFree(held: seq<PhotoId>, a: PhotoId, b: PhotoId)
    requires Proper(Some(held)) && a != b && a !in held
    ensures a !in Offered(held, b).0
  {
  }

  lemma SparesDiffer(p: Pool, spares: seq<Answer>, idOf: Naming)
    requires MidPlay(p) && Dealable(p, spares) && DistinctNames(p.items, idOf)
    requires !NeedsShuffle(FirstSpare(p, spares).1)
    ensures idOf(FirstSpare(p, spares).0) != idOf(SecondSpare(p, spares).0)
  {
    var first := FirstSpare(p, spares).1;
    var i, j := first.order[first.cursor - 1], first.order[first.cursor];
    assert i != j;
    assert idOf(p.items[i]) != idOf(p.items[j]);
  }

  lemma FreeAgainExactly(held: seq<PhotoId>, p: Pool, spares: seq<Answer>, drawn: nat, idOf: Naming)
    requires MidPlay(p) && Dealable(p, spares) && DistinctNames(p.items, idOf) && drawn <= 2
    requires drawn == SparesDrawn(spares, drawn > 0)
    requires Proper(Some(held)) && idOf(LastDrawn(p)) in held
    ensures idOf(FoundGoingBack(p, spares, drawn)) !in HeldAfterSpares(held, p, spares, drawn, idOf)
       <==> FreeAgain(held, p, spares, drawn, idOf)
  {
    var (first, next) := FirstSpare(p, spares);
    var second := SecondSpare(p, spares).0;
    var a, b := idOf(first), idOf(second);
    var between := NeedsShuffle(next);
    if drawn == 2 && !between {
      SparesDiffer(p, spares, idOf);
    }
    hide MidPlay, Dealable, FirstSpare, SecondSpare, Offered, NeedsShuffle, DistinctNames, Proper, LetGo;
    if drawn == 2 {
      OfferedStaysProper(held, a);
      var one := if IsOffered(spares[0]) then Offered(held, a).0 else held;
      OfferedStaysProper(one, b);
      if !between {
        if IsOffered(spares[0]) {
          FirstThenSecond(held, a, b);
        } else if a in held {
          LetGoExactly(held, a, b);
        } else {
          NeverHeldIsFree(held, a, b);
          NotHeldNotLetGo(held, a, b);
        }
      }
    }
  }

  lemma FirstThenSecond(held: seq<PhotoId>, a: PhotoId, b: PhotoId)
    requires Proper(Some(held)) && a != b
    ensures a in Offered(held, a).0
    ensures a !in Offered(Offered(held, a).0, b).0 <==> LetGo(held, a, b)
  {
    OfferedStaysProper(held, a);
    FirstOfTwoIsHeld(held, a, b);
  }

  lemma NotHeldNotLetGo(held: seq<PhotoId>, a: PhotoId, b: PhotoId)
    requires a !in held
    ensures !LetGo(held, a, b)
  {
  }

  /** Asking for the previous photo right after a rotation that showed one. In every
      case: which photo is found, and that it goes out if and only if it can be sent
      and the connection has let go of it. With both spares sent and no shuffle
      between them that is the first spare, let go of only if it was the oldest of
      a full history and the second spare pushed it out. */
  lemma GoingBackAfterARotation(
      fl: Flow, answers: seq<Answer>, tries: nat, connected: bool, back: Answer, idOf: Naming)
    returns (i: nat, shown: Flow)
    requires Sound(fl, answers) && |answers| >= tries + SPARES && Proper(fl.history)
    requires Rotated(fl, answers, tries, connected, idOf).1.Some?
    requires Sound(fl, [back]) && DistinctNames(fl.pool.items, idOf)
    ensures i < tries && shown == Steps(fl, answers[..i + 1], idOf)
    ensures MidPlay(shown.pool) && shown.history.Some? && Dealable(shown.pool, answers[i + 1..])
    ensures Rotated(fl, answers, tries, connected, idOf).1 == Some(idOf(LastDrawn(shown.pool)))
    ensures
      var after, spares := Rotated(fl, answers, tries, connected, idOf).0, answers[i + 1..];
      var drawn := SparesDrawn(spares, connected);
      && Sound(after, [back]) && IsPermutation(back.dealt, |after.pool.items|)
      && DrawnBack(after.pool, back.dealt).0 == Some(FoundGoingBack(shown.pool, spares, drawn))
      && (BackedUp(after, back, idOf).1.Some?
          <==> IsOffered(back) && back.delivered
               && FreeAgain(shown.history.value, shown.pool, spares, drawn, idOf))
  {
    assert [back][0] == back;
    i, shown := RotationShows(fl, answers, tries, connected, idOf);
    var spares := answers[i + 1..];
    var drawn := SparesDrawn(spares, connected);
    SparesAre(shown, spares, connected, idOf);
    var after := Rotated(fl, answers, tries, connected, idOf).0;
    hide Rotated, ToppedUp, Steps, MidPlay, Dealable, Proper, DistinctNames, FoundGoingBack, FreeAgain,
      PoolAfterSpares, HeldAfterSpares, DrawnBack, IsPermutation, Valid;
    BackDealt(fl, back);
    BackFinds(shown.pool, spares, drawn, back.dealt);
    FreeAgainExactly(shown.history.value, shown.pool, spares, drawn, idOf);
    BackSound(after, back);
    BackedUpShows(after, back, idOf);
  }

  lemma BackDealt(fl: Flow, back: Answer)
    requires Sound(fl, [back])
    ensures IsPermutation(back.dealt, |fl.pool.items|)
  {
    assert [back][0] == back;
  }

  lemma BackSound(fl: Flow, back: Answer)
    requires Valid(fl.pool) && IsPermutation(back.dealt, |fl.pool.items|)
    ensures Sound(fl, [back])
  {
  }

  /** A step back shows what it finds if that can be sent and is not held. */
  lemma BackedUpShows(fl: Flow, back: Answer, idOf: Naming)
    requires Sound(fl, [back]) && IsPermutation(back.dealt, |fl.pool.items|) && fl.history.Some?
    requires DrawnBack(fl.pool, back.dealt).0.Some?
    ensures BackedUp(fl, back, idOf).1.Some?
       <==> IsOffered(back) && back.delivered
            && idOf(DrawnBack(fl.pool, back.dealt).0.value) !in fl.history.value
  {
    hide IsPermutation, DrawnBack, Newest;
  }

  /** A photo shown earlier in the same order is found again only if it was the very
      last before the one now up and no spare was drawn, or if a shuffle has just
      dealt it first and it is the spare found. */
  lemma WhenGoingBackGoesBack(p: Pool, spares: seq<Answer>, drawn: nat, j: nat, idOf: Naming)
    requires MidPlay(p) && Dealable(p, spares) && drawn <= 2 && DistinctNames(p.items, idOf)
    requires j + 1 < p.cursor
    ensures p.order[j] < |p.items|
    ensures FoundGoingBack(p, spares, drawn) == p.items[p.order[j]]
       <==> || (drawn == 0 && j + 2 == p.cursor)
            || (drawn > 0 && NeedsShuffle(p) && FirstSpare(p, spares).0 == p.items[p.order[j]]
                && (drawn == 1 || !NeedsShuffle(FirstSpare(p, spares).1)))
            || (drawn == 2 && NeedsShuffle(FirstSpare(p, spares).1) && SecondSpare(p, spares).0 == p.items[p.order[j]])
  {
    DifferentPlaces(p, idOf);
  }

  lemma DifferentPlaces(p: Pool, idOf: Naming)
    requires MidPlay(p) && DistinctNames(p.items, idOf)
    ensures forall i, j :: 0 <= i < j < |p.order| ==> p.items[p.order[i]] != p.items[p.order[j]]
  {
    forall i, j | 0 <= i < j < |p.order|
      ensures p.items[p.order[i]] != p.items[p.order[j]]
    {
      assert p.order[i] != p.order[j];
    }
  }
}
