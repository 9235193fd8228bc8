// What a rotation and a filling come to, told attempt by attempt: how many photos
// each draws, which one a rotation shows and how many of them go out.
module Consumers {
  import opened Wrappers
  import opened PlayOrder
  import opened FrameSessions
  import opened Delivery

  /** The photo whose turn it is is prepared, served and not held already, and the socket takes it. */
  ghost predicate GoesOut(fl: Flow, a: Answer, idOf: Naming)
    requires Valid(fl.pool) && IsPermutation(a.dealt, |fl.pool.items|)
  {
    && fl.pool.items != [] && a.prepared && a.addressed && a.delivered && fl.history.Some?
    && idOf(TurnOf(fl.pool, a.dealt)) !in fl.history.value
  }

  /** The photo whose turn it is: the next of the order, or the first of a new one. */
  ghost function TurnOf(p: Pool, dealt: seq<nat>): PhotoRef
    requires Valid(p) && IsPermutation(dealt, |p.items|) && p.items != []
  {
    if p.order == [] || p.cursor >= |p.order| then p.items[dealt[0]] else p.items[p.order[p.cursor]]
  }

  ghost predicate GoesOutAt(fl: Flow, answers: seq<Answer>, k: nat, idOf: Naming)
    requires Sound(fl, answers) && k < |answers|
  {
    GoesOut(Steps(fl, answers[..k], idOf), answers[k], idOf)
  }

  lemma GoesOutNext(fl: Flow, answers: seq<Answer>, k: nat, idOf: Naming)
    requires Sound(fl, answers) && 0 < k < |answers|
    ensures Sound(Step(fl, answers[0], idOf).0, answers[1..])
    ensures GoesOutAt(fl, answers, k, idOf) <==> GoesOutAt(Step(fl, answers[0], idOf).0, answers[1..], k - 1, idOf)
  {
    hide IsPermutation, Step;
    SoundAfter(fl, answers, idOf);
    assert answers[..k][1..] == answers[1..][..k - 1];
  }

  lemma SoundAfter(fl: Flow, answers: seq<Answer>, idOf: Naming)
    requires Sound(fl, answers) && answers != []
    ensures Sound(Step(fl, answers[0], idOf).0, answers[1..])
    ensures Step(fl, answers[0], idOf).0.pool.items == fl.pool.items
  {
  }

  /** Drawing and sending the photo whose turn it is. */
  lemma ShownExactly(fl: Flow, a: Answer, idOf: Naming)
    requires Valid(fl.pool) && IsPermutation(a.dealt, |fl.pool.items|) && fl.pool.items != []
    ensures var (ref, pool) := Drawn(fl.pool, a.dealt);
      && ref.Some?
      && Shown(fl.(pool := pool), ref.value, a, idOf)
           == (Step(fl, a, idOf).0, if GoesOut(fl, a, idOf) then Some(idOf(TurnOf(fl.pool, a.dealt))) else None)
  {
  }

  // Spares and fillings.

  /** How many photos a series of spares draws: all, unless one turns out to have no
      address to be served from. */
  function Met(answers: seq<Answer>): nat {
    if answers == [] then 0
    else if answers[0].prepared && !answers[0].addressed then 1
    else 1 + Met(answers[1..])
  }

  lemma {:induction false} MetIsBounded(answers: seq<Answer>)
    ensures Met(answers) <= |answers|
    ensures Met(answers) == |answers| <==>
      forall k :: 0 <= k < |answers| - 1 ==> !answers[k].prepared || answers[k].addressed
  {
    if answers != [] {
      MetIsBounded(answers[1..]);
      assert answers == [answers[0]] + answers[1..];
      forall k | 0 <= k < |answers[1..]| - 1
        ensures answers[1..][k] == answers[k + 1]
      {
      }
      if Met(answers) == |answers| && answers[0].prepared && !answers[0].addressed {
        assert |answers| == 1;
      }
      if forall k :: 0 <= k < |answers| - 1 ==> !answers[k].prepared || answers[k].addressed {
        assert |answers| > 1 ==> !answers[0].prepared || answers[0].addressed;
      }
    }
  }

  ghost function WentOut(fl: Flow, answers: seq<Answer>, idOf: Naming): nat
    requires Sound(fl, answers)
    decreases |answers|
  {
    if answers == [] then 0
    else
      SoundAfter(fl, answers, idOf);
      (if GoesOut(fl, answers[0], idOf) then 1 else 0) + WentOut(Step(fl, answers[0], idOf).0, answers[1..], idOf)
  }

  /** Sending spares is so many attempts, and counts those that went out. */
  lemma {:induction false} BatchExactly(fl: Flow, answers: seq<Answer>, idOf: Naming)
    requires Sound(fl, answers) && fl.pool.items != []
    ensures Met(answers) <= |answers|
    ensures Batch(fl, answers, idOf)
         == (Steps(fl, answers[..Met(answers)], idOf), WentOut(fl, answers[..Met(answers)], idOf))
    decreases |answers|
  {
    hide IsPermutation, Valid, Batch, Step, GoesOut, Shown, Drawn;
    MetIsBounded(answers);
    var met := Met(answers);
    if answers == [] {
      NothingLeft(fl, answers, false, idOf);
    } else {
      BatchStep(fl, answers, idOf);
      ShownExactly(fl, answers[0], idOf);
      SoundAfter(fl, answers, idOf);
      var next := Step(fl, answers[0], idOf).0;
      if answers[0].prepared && !answers[0].addressed {
        NoAddress(fl, answers, idOf);
      } else {
        BatchExactly(next, answers[1..], idOf);
        assert answers[..met][1..] == answers[1..][..met - 1];
      }
    }
  }

  lemma NoAddress(fl: Flow, answers: seq<Answer>, idOf: Naming)
    requires Sound(fl, answers) && answers != [] && fl.pool.items != []
    requires answers[0].prepared && !answers[0].addressed
    ensures WentOut(fl, answers[..1], idOf) == 0
    ensures Steps(fl, answers[..1], idOf) == fl.(pool := Drawn(fl.pool, answers[0].dealt).1)
  {
    assert answers[..1] == [answers[0]];
    assert [answers[0]][1..] == [];
    SoundAfter(fl, [answers[0]], idOf);
    assert WentOut(Step(fl, answers[0], idOf).0, [], idOf) == 0;
  }

  /** A filling asked for `wanted` photos draws that many, eight at most, and none for a
      frame that is away. A rotation that showed a photo draws two spares after it. */
  lemma FillingExactly(fl: Flow, wanted: int, answers: seq<Answer>, connected: bool, idOf: Naming)
    requires Sound(fl, answers) && |answers| >= 10
    ensures fl.pool.items == [] || fl.history.None? || !connected ==>
      Filled(fl, wanted, answers, connected, idOf) == (fl, 0)
    ensures fl.pool.items != [] && fl.history.Some? && connected ==>
      var asked := answers[..if wanted < 0 then 0 else if wanted <= 8 then wanted else 8];
      && Met(asked) <= |asked|
      && Filled(fl, wanted, answers, connected, idOf)
           == (Steps(fl, asked[..Met(asked)], idOf), WentOut(fl, asked[..Met(asked)], idOf))
    ensures fl.pool.items != [] ==>
      && Met(answers[..2]) <= 2
      && ToppedUp(fl, answers, connected, idOf)
           == if connected && fl.history.Some? then Steps(fl, answers[..2][..Met(answers[..2])], idOf) else fl
  {
    hide IsPermutation, Valid, Batch, Steps, WentOut;
    if fl.pool.items != [] {
      BatchExactly(fl, answers[..2], idOf);
      if wanted < 0 {
        BatchExactly(fl, answers[..0], idOf);
      } else if wanted <= 8 {
        BatchExactly(fl, answers[..wanted], idOf);
      } else {
        BatchExactly(fl, answers[..8], idOf);
      }
    }
  }

  // Rotations.

  /** None of the first `tries` photos goes out. */
  ghost predicate NoneGoesOut(fl: Flow, answers: seq<Answer>, tries: nat, idOf: Naming)
    requires Sound(fl, answers) && tries <= |answers|
  {
    forall k :: 0 <= k < tries ==> !GoesOutAt(fl, answers, k, idOf)
  }

  /** A rotation goes on until a photo goes out, past those that cannot be prepared, those
      the connection holds and those the socket loses. It shows the first that does. */
  lemma {:induction false} RotatedExactly(
      fl: Flow, answers: seq<Answer>, tries: nat, connected: bool, idOf: Naming)
    returns (k: nat)
    requires Sound(fl, answers) && |answers| >= tries + SPARES && fl.pool.items != []
    ensures k <= tries && NoneGoesOut(fl, answers, k, idOf)
    ensures k == tries ==> Rotated(fl, answers, tries, connected, idOf) == (Steps(fl, answers[..tries], idOf), None)
    ensures k < tries ==>
      && GoesOutAt(fl, answers, k, idOf)
      && Sound(Steps(fl, answers[..k + 1], idOf), answers[k + 1..])
      && Rotated(fl, answers, tries, connected, idOf)
           == (ToppedUp(Steps(fl, answers[..k + 1], idOf), answers[k + 1..], connected, idOf),
               Some(idOf(TurnOf(Steps(fl, answers[..k], idOf).pool, answers[k].dealt))))
    decreases tries
  {
    hide IsPermutation, Valid, Rotated, Step, GoesOut, Shown, Drawn, ToppedUp, TurnOf;
    k := 0;
    NothingLeft(fl, answers, connected, idOf);
    if tries > 0 {
      RotatedStep(fl, answers, tries, connected, idOf);
      ShownExactly(fl, answers[0], idOf);
      SoundAfter(fl, answers, idOf);
      var next := Step(fl, answers[0], idOf).0;
      if GoesOut(fl, answers[0], idOf) {
        OneThenMore(fl, answers, 0, idOf);
        assert answers[1..][..0] == [];
      } else {
        var k' := RotatedExactly(next, answers[1..], tries - 1, connected, idOf);
        k := k' + 1;
        LaterAttempts(fl, answers, k', tries, idOf);
      }
    }
  }

  lemma LaterAttempts(fl: Flow, answers: seq<Answer>, k: nat, tries: nat, idOf: Naming)
    requires Sound(fl, answers) && k < tries < |answers| && !GoesOut(fl, answers[0], idOf)
    requires Sound(Step(fl, answers[0], idOf).0, answers[1..])
    requires NoneGoesOut(Step(fl, answers[0], idOf).0, answers[1..], k, idOf)
    ensures var next := Step(fl, answers[0], idOf).0;
      && NoneGoesOut(fl, answers, k + 1, idOf)
      && (GoesOutAt(next, answers[1..], k, idOf) ==> GoesOutAt(fl, answers, k + 1, idOf))
      && Steps(fl, answers[..k + 1], idOf) == Steps(next, answers[1..][..k], idOf)
      && Steps(fl, answers[..k + 2], idOf) == Steps(next, answers[1..][..k + 1], idOf)
      && Steps(fl, answers[..tries], idOf) == Steps(next, answers[1..][..tries - 1], idOf)
      && answers[k + 2..] == answers[1..][k + 1..]
  {
    hide IsPermutation, Valid, Step, GoesOut;
    OneThenMore(fl, answers, k, idOf);
    OneThenMore(fl, answers, k + 1, idOf);
    OneThenMore(fl, answers, tries - 1, idOf);
    forall j | 0 <= j < k + 1
      ensures !GoesOutAt(fl, answers, j, idOf)
    {
      if j > 0 {
        GoesOutNext(fl, answers, j, idOf);
      } else {
        assert answers[..0] == [];
      }
    }
    if k + 1 < |answers| {
      GoesOutNext(fl, answers, k + 1, idOf);
    }
  }

  /** A rotation that shows nothing has tried ten photos, or as many as there are; with ten
      or fewer, and the order at its start, it has tried every one. */
  lemma BlankRotationTries(fl: Flow, answers: seq<Answer>, connected: bool, idOf: Naming)
    returns (drawn: seq<PhotoRef>)
    requires Sound(fl, answers) && |answers| >= 12 && fl.pool.items != []
    requires Rotated(fl, answers, Tries(fl.pool), connected, idOf).1.None?
    ensures |drawn| == if |fl.pool.items| < 10 then |fl.pool.items| else 10
    ensures forall k :: 0 <= k < |drawn| ==>
      drawn[k] == TurnOf(Steps(fl, answers[..k], idOf).pool, answers[k].dealt) && !GoesOutAt(fl, answers, k, idOf)
    ensures |fl.pool.items| <= 10 && AtEpochStart(fl.pool) ==> forall ref :: ref in fl.pool.items ==> ref in drawn
  {
    var tries := if |fl.pool.items| < 10 then |fl.pool.items| else 10;
    assert tries == Tries(fl.pool);
    hide *;
    var k := RotatedExactly(fl, answers, tries, connected, idOf);
    var states;
    states, drawn := TurnsOfPrefix(fl, answers, tries, idOf);
    NoneMeansNone(fl, answers, tries, idOf);
    if |fl.pool.items| <= 10 && AtEpochStart(fl.pool) {
      forall ref | ref in fl.pool.items
        ensures ref in drawn
      {
        WholeOrder(states, drawn, ref);
      }
    }
  }

  lemma NoneMeansNone(fl: Flow, answers: seq<Answer>, tries: nat, idOf: Naming)
    requires Sound(fl, answers) && tries <= |answers| && NoneGoesOut(fl, answers, tries, idOf)
    ensures forall k :: 0 <= k < tries ==> !GoesOutAt(fl, answers, k, idOf)
  {
    hide GoesOutAt;
  }

  lemma TurnsOfPrefix(fl: Flow, answers: seq<Answer>, tries: nat, idOf: Naming)
    returns (states: seq<Pool>, drawn: seq<PhotoRef>)
    requires Sound(fl, answers) && fl.pool.items != [] && tries <= |answers|
    ensures IsPlay(states, drawn) && |drawn| == tries && |states| > 0 && states[0] == fl.pool
    ensures forall k :: 0 <= k < tries ==>
      drawn[k] == TurnOf(Steps(fl, answers[..k], idOf).pool, answers[k].dealt)
  {
    hide IsPermutation, Valid, Steps, TurnOf;
    states, drawn := TurnsArePlay(fl, answers[..tries], idOf);
    forall k | 0 <= k < tries
      ensures drawn[k] == TurnOf(Steps(fl, answers[..k], idOf).pool, answers[k].dealt)
    {
      assert answers[..tries][..k] == answers[..k];
    }
  }

  /** Going back is one attempt from two places earlier, or from the start of the order; with
      nothing played yet it is nothing. */
  lemma BackedUpExactly(fl: Flow, a: Answer, idOf: Naming)
    requires Sound(fl, [a])
    ensures Valid(fl.pool) && IsPermutation(a.dealt, |fl.pool.items|)
    ensures fl.pool.items == [] || fl.pool.order == [] ==> BackedUp(fl, a, idOf) == (fl, None)
    ensures fl.pool.items != [] && fl.pool.order != [] ==>
      var back := fl.(pool := fl.pool.(cursor := if fl.pool.cursor < 2 then 0 else fl.pool.cursor - 2));
      && Valid(back.pool)
      && BackedUp(fl, a, idOf)
           == (Step(back, a, idOf).0, if GoesOut(back, a, idOf) then Some(idOf(TurnOf(back.pool, a.dealt))) else None)
  {
    assert [a][0] == a;
    var back := fl.(pool := SteppedBack(fl.pool));
    if fl.pool.items != [] && fl.pool.order != [] {
      ShownExactly(back, a, idOf);
    }
  }

  /** Attempts draw the photos whose turn it is. */
  lemma {:induction false} TurnsArePlay(fl: Flow, answers: seq<Answer>, idOf: Naming)
    returns (states: seq<Pool>, drawn: seq<PhotoRef>)
    requires Sound(fl, answers) && fl.pool.items != []
    ensures IsPlay(states, drawn) && |drawn| == |answers| && |states| > 0 && states[0] == fl.pool
    ensures forall k :: 0 <= k < |drawn| ==>
      drawn[k] == TurnOf(Steps(fl, answers[..k], idOf).pool, answers[k].dealt)
    decreases |answers|
  {
    hide IsPermutation, Step;
    if answers == [] {
      states, drawn := [fl.pool], [];
      OneState(fl.pool);
    } else {
      SoundAfter(fl, answers, idOf);
      var next := Step(fl, answers[0], idOf).0;
      var states', drawn' := TurnsArePlay(next, answers[1..], idOf);
      var first := TurnOf(fl.pool, answers[0].dealt);
      TurnAdvances(fl, answers[0], idOf);
      PlayFrom(fl.pool, first, states', drawn');
      states, drawn := [fl.pool] + states', [first] + drawn';
      forall k | 0 <= k < |drawn|
        ensures drawn[k] == TurnOf(Steps(fl, answers[..k], idOf).pool, answers[k].dealt)
      {
        if k > 0 {
          assert answers[..k][1..] == answers[1..][..k - 1];
          assert drawn[k] == drawn'[k - 1];
        }
      }
    }
  }

  lemma OneState(p: Pool)
    requires Valid(p) && p.items != []
    ensures IsPlay([p], [])
  {
  }

  lemma TurnAdvances(fl: Flow, a: Answer, idOf: Naming)
    requires Valid(fl.pool) && IsPermutation(a.dealt, |fl.pool.items|) && fl.pool.items != []
    ensures Advanced(fl.pool, Some(TurnOf(fl.pool, a.dealt)), Step(fl, a, idOf).0.pool)
  {
  }

  lemma WholeOrder(states: seq<Pool>, drawn: seq<PhotoRef>, ref: PhotoRef)
    requires IsPlay(states, drawn) && |states| > 0 && AtEpochStart(states[0])
    requires |drawn| == |states[0].items| && ref in states[0].items
    ensures ref in drawn
  {
    hide AtEpochStart, Advanced;
    var n := |states[0].items|;
    var order := EachEpochIsAPermutation(states, drawn, 0);
    var i :| 0 <= i < n && states[0].items[i] == ref;
    PermutationCovers(order, n, i);
    var k :| 0 <= k < |order| && order[k] == i;
    assert drawn[0 + k] == states[0].items[order[k]];
  }
}
