// Getting photos from the pool to the frame. The rotation, the refilling of the
// frame's memory and the filling of its card all advance one play order and all
// send over one connection, which refuses what it was sent recently.
module Delivery {
  import opened Wrappers
  import opened PlayOrder
  import opened FrameSessions

  const TRIES_PER_ROTATION: nat := 10
  const SPARES: nat := 2
  const MAX_PHOTOS_PER_REQUEST: nat := 8

  /** The id a photo gets for this frame's panel. */
  type Naming = PhotoRef -> PhotoId

  /** What one attempt meets: the order a shuffle would deal, whether the photo can
      be fetched and prepared, whether there is an address to serve it from, and
      whether the socket takes it. */
  datatype Answer = Answer(dealt: seq<nat>, prepared: bool, addressed: bool, delivered: bool)

  /** The pool, and what the frame's connection, if it has one, was recently sent. */
  datatype Flow = Flow(pool: Pool, history: Option<seq<PhotoId>>)

  ghost predicate Sound(fl: Flow, answers: seq<Answer>) {
    Valid(fl.pool) && forall k :: 0 <= k < |answers| ==> IsPermutation(answers[k].dealt, |fl.pool.items|)
  }

  function Sent(history: Option<seq<PhotoId>>, id: PhotoId, delivered: bool): (Option<seq<PhotoId>>, bool) {
    match history
    case None => (None, false)
    case Some(held) =>
      var (after, accepted) := Offered(held, id);
      (Some(after), accepted && delivered)
  }

  /** Sending one photo, and its id if it went out. */
  function Shown(fl: Flow, ref: PhotoRef, a: Answer, idOf: Naming): (Flow, Option<PhotoId>) {
    if !a.prepared || !a.addressed then (fl, None)
    else
      var (history, sent) := Sent(fl.history, idOf(ref), a.delivered);
      (fl.(history := history), if sent then Some(idOf(ref)) else None)
  }

  /** Sending spares, one per answer, and how many went out. Without an address
      there is no point in going on. */
  ghost function Batch(fl: Flow, answers: seq<Answer>, idOf: Naming): (Flow, nat)
    requires Sound(fl, answers)
    decreases |answers|
  {
    if answers == [] then (fl, 0)
    else
      var (ref, pool) := Drawn(fl.pool, answers[0].dealt);
      var drawn := fl.(pool := pool);
      if ref.None? || (answers[0].prepared && !answers[0].addressed) then (drawn, 0)
      else
        var (after, id) := Shown(drawn, ref.value, answers[0], idOf);
        var (end, count) := Batch(after, answers[1..], idOf);
        (end, (if id.Some? then 1 else 0) + count)
  }

  ghost function ToppedUp(fl: Flow, answers: seq<Answer>, connected: bool, idOf: Naming): Flow
    requires Sound(fl, answers) && |answers| >= SPARES
  {
    if fl.history.None? || !connected then fl else Batch(fl, answers[..SPARES], idOf).0
  }

  /** Advancing until a photo goes out, for at most `tries` photos; then spares behind it. */
  ghost function Rotated(fl: Flow, answers: seq<Answer>, tries: nat, connected: bool, idOf: Naming)
    : (Flow, Option<PhotoId>)
    requires Sound(fl, answers) && |answers| >= tries + SPARES
    decreases tries
  {
    if tries == 0 then (fl, None)
    else
      var (ref, pool) := Drawn(fl.pool, answers[0].dealt);
      var drawn := fl.(pool := pool);
      if ref.None? then (drawn, None)
      else
        var (after, id) := Shown(drawn, ref.value, answers[0], idOf);
        if id.Some? then (ToppedUp(after, answers[1..], connected, idOf), id)
        else Rotated(after, answers[1..], tries - 1, connected, idOf)
  }

  function Tries(pool: Pool): nat {
    if |pool.items| < TRIES_PER_ROTATION then |pool.items| else TRIES_PER_ROTATION
  }

  function BatchSize(wanted: int): nat {
    if wanted < 0 then 0 else if wanted > MAX_PHOTOS_PER_REQUEST then MAX_PHOTOS_PER_REQUEST else wanted
  }

  ghost function Filled(fl: Flow, wanted: int, answers: seq<Answer>, connected: bool, idOf: Naming): (Flow, nat)
    requires Sound(fl, answers) && |answers| >= MAX_PHOTOS_PER_REQUEST
  {
    if fl.pool.items == [] || fl.history.None? || !connected then (fl, 0)
    else Batch(fl, answers[..BatchSize(wanted)], idOf)
  }

  ghost function BackedUp(fl: Flow, a: Answer, idOf: Naming): (Flow, Option<PhotoId>)
    requires Sound(fl, [a])
  {
    assert [a][0] == a;
    var (ref, pool) := DrawnBack(fl.pool, a.dealt);
    var drawn := fl.(pool := pool);
    if ref.None? then (drawn, None) else Shown(drawn, ref.value, a, idOf)
  }

  lemma BatchStep(fl: Flow, answers: seq<Answer>, idOf: Naming)
    requires Sound(fl, answers) && answers != []
    ensures Valid(fl.pool) && IsPermutation(answers[0].dealt, |fl.pool.items|)
    ensures var (ref, pool) := Drawn(fl.pool, answers[0].dealt);
      var drawn := fl.(pool := pool);
      && Sound(drawn, answers[1..])
      && (ref.Some? ==> Sound(Shown(drawn, ref.value, answers[0], idOf).0, answers[1..]))
      && Batch(fl, answers, idOf) ==
           if ref.None? || (answers[0].prepared && !answers[0].addressed) then (drawn, 0)
           else
             var (after, id) := Shown(drawn, ref.value, answers[0], idOf);
             var (end, count) := Batch(after, answers[1..], idOf);
             (end, (if id.Some? then 1 else 0) + count)
  {
    hide IsPermutation, Sent, Advanced;
  }

  lemma RotatedStep(fl: Flow, answers: seq<Answer>, tries: nat, connected: bool, idOf: Naming)
    requires Sound(fl, answers) && |answers| >= tries + SPARES && tries > 0
    ensures Valid(fl.pool) && IsPermutation(answers[0].dealt, |fl.pool.items|)
    ensures var (ref, pool) := Drawn(fl.pool, answers[0].dealt);
      var drawn := fl.(pool := pool);
      && (ref.Some? ==> Sound(Shown(drawn, ref.value, answers[0], idOf).0, answers[1..]))
      && Rotated(fl, answers, tries, connected, idOf) ==
           if ref.None? then (drawn, None)
           else
             var (after, id) := Shown(drawn, ref.value, answers[0], idOf);
             if id.Some? then (ToppedUp(after, answers[1..], connected, idOf), id)
             else Rotated(after, answers[1..], tries - 1, connected, idOf)
  {
    hide IsPermutation, Sent, Advanced, ToppedUp;
  }

  lemma NothingLeft(fl: Flow, answers: seq<Answer>, connected: bool, idOf: Naming)
    requires Sound(fl, answers)
    ensures |answers| >= SPARES ==> Rotated(fl, answers, 0, connected, idOf) == (fl, None)
    ensures answers == [] ==> Batch(fl, answers, idOf) == (fl, 0)
  {
  }

  class FrameDelivery {
    const pool: PhotoPool
    const server: ControlServer
    const frameId: string
    const idOf: Naming
    var currentPhotoId: Option<PhotoId>

    constructor (pool: PhotoPool, server: ControlServer, frameId: string, idOf: Naming)
      ensures this.pool == pool && this.server == server && this.frameId == frameId && this.idOf == idOf
      ensures currentPhotoId == None
    {
      this.pool, this.server, this.frameId, this.idOf, currentPhotoId := pool, server, frameId, idOf, None;
    }

    ghost function Session(): set<FrameSession>
      reads server
    {
      if frameId in server.sessions then {server.sessions[frameId]} else {}
    }

    ghost function Now(): Flow
      reads pool, server, Session()
    {
      Flow(pool.State(), if frameId in server.sessions then Some(server.sessions[frameId].sentPhotoIds) else None)
    }

    /** Prepare a photo and send it; only one that went out becomes the current photo. */
    method Show(ref: PhotoRef, a: Answer) returns (sent: bool)
      modifies this, Session()
      ensures var (after, id) := Shown(old(Now()), ref, a, idOf);
        Now() == after && sent == id.Some? && currentPhotoId == if sent then id else old(currentPhotoId)
    {
      if !a.prepared || !a.addressed {
        return false;
      }
      var photoId := idOf(ref);
      sent := server.SendRender(frameId, Some(photoId), a.delivered);
      if sent {
        currentPhotoId := Some(photoId);
      }
    }

    /** The loop that both refilling and filling run: it never changes what is current. */
    method SendSpares(answers: seq<Answer>) returns (sent: nat)
      requires Sound(Now(), answers)
      modifies pool, Session()
      ensures (Now(), sent) == Batch(old(Now()), answers, idOf)
    {
      hide Batch, Drawn, Offered, IsPermutation, Sound, Valid, Advanced;
      sent := 0;
      assert answers[0..] == answers;
      for i := 0 to |answers|
        invariant Sound(Now(), answers[i..])
        invariant var (end, count) := Batch(Now(), answers[i..], idOf);
          (end, sent + count) == Batch(old(Now()), answers, idOf)
      {
        assert answers[i..][1..] == answers[i + 1..] && answers[i..][0] == answers[i];
        BatchStep(Now(), answers[i..], idOf);
        var ref := pool.Advance(answers[i].dealt);
        if ref.None? {
          return;
        }
        if !answers[i].prepared {
          continue;
        }
        if !answers[i].addressed {
          return;
        }
        var out := server.SendRender(frameId, Some(idOf(ref.value)), answers[i].delivered);
        if out {
          sent := sent + 1;
        }
      }
      assert answers[|answers|..] == [];
      NothingLeft(Now(), [], false, idOf);
    }

    method TopUp(connected: bool, answers: seq<Answer>)
      requires Sound(Now(), answers) && |answers| >= SPARES
      modifies pool, Session()
      ensures Now() == ToppedUp(old(Now()), answers, connected, idOf)
    {
      if frameId !in server.sessions || !connected {
        return;
      }
      var _ := SendSpares(answers[..SPARES]);
    }

    method FillFrameCache(wanted: int, connected: bool, answers: seq<Answer>) returns (sent: nat)
      requires Sound(Now(), answers) && |answers| >= MAX_PHOTOS_PER_REQUEST
      modifies pool, Session()
      ensures (Now(), sent) == Filled(old(Now()), wanted, answers, connected, idOf)
    {
      if pool.items == [] {
        return 0;
      }
      if frameId !in server.sessions || !connected {
        return 0;
      }
      sent := SendSpares(answers[..BatchSize(wanted)]);
    }

    /** One rotation. `answers` are met in turn, photo by photo. */
    method ShowNext(connected: bool, answers: seq<Answer>) returns (shown: bool)
      requires Sound(Now(), answers) && |answers| >= TRIES_PER_ROTATION + SPARES
      modifies this, pool, Session()
      ensures var (after, id) := Rotated(old(Now()), answers, Tries(old(pool.State())), connected, idOf);
        Now() == after && shown == id.Some? && currentPhotoId == if shown then id else old(currentPhotoId)
    {
      hide Rotated, ToppedUp, Drawn, Shown, IsPermutation, Sound, Valid, Advanced;
      if pool.items == [] {
        NothingLeft(Now(), answers, connected, idOf);
        return false;
      }
      var tries := Tries(pool.State());
      assert answers[0..] == answers;
      for i := 0 to tries
        invariant Sound(Now(), answers[i..])
        invariant Rotated(Now(), answers[i..], tries - i, connected, idOf)
               == Rotated(old(Now()), answers, tries, connected, idOf)
        invariant currentPhotoId == old(currentPhotoId)
      {
        assert answers[i..][1..] == answers[i + 1..] && answers[i..][0] == answers[i];
        RotatedStep(Now(), answers[i..], tries - i, connected, idOf);
        var ref := pool.Advance(answers[i].dealt);
        if ref.None? {
          return false;
        }
        shown := Show(ref.value, answers[i]);
        if shown {
          TopUp(connected, answers[i + 1..]);
          return true;
        }
      }
      NothingLeft(Now(), answers[tries..], connected, idOf);
      return false;
    }

    method ShowPrevious(a: Answer) returns (shown: bool)
      requires Sound(Now(), [a])
      modifies this, pool, Session()
      ensures var (after, id) := BackedUp(old(Now()), a, idOf);
        Now() == after && shown == id.Some? && currentPhotoId == if shown then id else old(currentPhotoId)
    {
      assert [a][0] == a;
      var ref := pool.Previous(a.dealt);
      if ref.None? {
        return false;
      }
      shown := Show(ref.value, a);
    }
  }

  // Every consumer draws from one order.

  ghost predicate AllReady(answers: seq<Answer>) {
    forall k :: 0 <= k < |answers| ==> answers[k].prepared && answers[k].addressed
  }

  ghost predicate DistinctNames(items: seq<PhotoRef>, idOf: Naming) {
    forall i, j :: 0 <= i < j < |items| ==> idOf(items[i]) != idOf(items[j])
  }

  /** One attempt, whoever makes it, and whether the connection takes the photo. */
  ghost function Step(fl: Flow, a: Answer, idOf: Naming): (Flow, bool)
    requires Valid(fl.pool) && IsPermutation(a.dealt, |fl.pool.items|)
  {
    var (ref, pool) := Drawn(fl.pool, a.dealt);
    if ref.None? || !a.prepared || !a.addressed || fl.history.None? then (fl.(pool := pool), false)
    else
      var (held, accepted) := Offered(fl.history.value, idOf(ref.value));
      (Flow(pool, Some(held)), accepted)
  }

  ghost function Steps(fl: Flow, answers: seq<Answer>, idOf: Naming): (after: Flow)
    requires Sound(fl, answers)
    ensures Valid(after.pool) && after.pool.items == fl.pool.items
    ensures after.history.Some? <==> fl.history.Some?
    decreases |answers|
  {
    if answers == [] then fl else Steps(Step(fl, answers[0], idOf).0, answers[1..], idOf)
  }

  /** Nothing new goes out. */
  ghost predicate Silent(fl: Flow, answers: seq<Answer>, idOf: Naming)
    requires Sound(fl, answers)
    decreases |answers|
  {
    answers == [] ||
    (!Step(fl, answers[0], idOf).1 && Silent(Step(fl, answers[0], idOf).0, answers[1..], idOf))
  }

  lemma {:induction false} BatchIsAttempts(fl: Flow, answers: seq<Answer>, idOf: Naming) returns (used: nat)
    requires Sound(fl, answers)
    ensures used <= |answers| && Batch(fl, answers, idOf).0 == Steps(fl, answers[..used], idOf)
    decreases |answers|
  {
    used := 0;
    if answers != [] && fl.pool.items != [] {
      BatchStep(fl, answers, idOf);
      var next := Step(fl, answers[0], idOf).0;
      used := 1;
      if answers[0].prepared && !answers[0].addressed {
        assert answers[..1][1..] == [];
      } else {
        var more := BatchIsAttempts(next, answers[1..], idOf);
        used := 1 + more;
        assert answers[..used][1..] == answers[1..][..more];
      }
    }
  }

  lemma {:induction false} RotatedIsAttempts(
      fl: Flow, answers: seq<Answer>, tries: nat, connected: bool, idOf: Naming) returns (used: nat)
    requires Sound(fl, answers) && |answers| >= tries + SPARES
    ensures used <= |answers| && Rotated(fl, answers, tries, connected, idOf).0 == Steps(fl, answers[..used], idOf)
    decreases tries
  {
    hide Rotated, ToppedUp, IsPermutation, Advanced, Valid, Sent, Offered;
    used := 0;
    NothingLeft(fl, answers, connected, idOf);
    if tries > 0 && fl.pool.items != [] {
      RotatedStep(fl, answers, tries, connected, idOf);
      ShownIsStep(fl, answers[0], idOf);
      var (ref, pool) := Drawn(fl.pool, answers[0].dealt);
      var (next, id) := Shown(fl.(pool := pool), ref.value, answers[0], idOf);
      var more: nat := 0;
      if id.None? {
        more := RotatedIsAttempts(next, answers[1..], tries - 1, connected, idOf);
      } else {
        more := ToppedUpIsAttempts(next, answers[1..], connected, idOf);
      }
      used := 1 + more;
      OneThenMore(fl, answers, more, idOf);
    } else if tries > 0 {
      NothingDrawn(fl, answers, tries, connected, idOf);
    }
  }

  lemma NothingDrawn(fl: Flow, answers: seq<Answer>, tries: nat, connected: bool, idOf: Naming)
    requires Sound(fl, answers) && |answers| >= tries + SPARES && fl.pool.items == []
    ensures Rotated(fl, answers, tries, connected, idOf) == (fl, None)
  {
  }

  /** Sending a drawn photo moves the pool and the connection as one attempt. */
  lemma ShownIsStep(fl: Flow, a: Answer, idOf: Naming)
    requires Valid(fl.pool) && IsPermutation(a.dealt, |fl.pool.items|) && fl.pool.items != []
    ensures var (ref, pool) := Drawn(fl.pool, a.dealt);
      ref.Some? && Shown(fl.(pool := pool), ref.value, a, idOf).0 == Step(fl, a, idOf).0
  {
    hide IsPermutation;
  }

  lemma ToppedUpIsAttempts(fl: Flow, answers: seq<Answer>, connected: bool, idOf: Naming) returns (used: nat)
    requires Sound(fl, answers) && |answers| >= SPARES
    ensures used <= |answers| && ToppedUp(fl, answers, connected, idOf) == Steps(fl, answers[..used], idOf)
  {
    hide IsPermutation, Batch, Valid;
    used := 0;
    if fl.history.Some? && connected {
      used := BatchIsAttempts(fl, answers[..SPARES], idOf);
      assert answers[..SPARES][..used] == answers[..used];
    }
  }

  lemma OneThenMore(fl: Flow, answers: seq<Answer>, more: nat, idOf: Naming)
    requires Sound(fl, answers) && more < |answers|
    ensures Sound(Step(fl, answers[0], idOf).0, answers[1..])
    ensures Steps(fl, answers[..1 + more], idOf) == Steps(Step(fl, answers[0], idOf).0, answers[1..][..more], idOf)
  {
    hide IsPermutation;
    assert answers[..1 + more][1..] == answers[1..][..more];
  }

  datatype Call =
    | Rotate(connected: bool, answers: seq<Answer>)
    | Fill(wanted: int, connected: bool, answers: seq<Answer>)

  ghost predicate AllSound(fl: Flow, calls: seq<Call>) {
    Valid(fl.pool) && forall k :: 0 <= k < |calls| ==>
      Sound(fl, calls[k].answers) && |calls[k].answers| >= TRIES_PER_ROTATION + SPARES
  }

  ghost function Called(fl: Flow, c: Call, idOf: Naming): Flow
    requires Sound(fl, c.answers) && |c.answers| >= TRIES_PER_ROTATION + SPARES
  {
    match c
    case Rotate(connected, answers) => Rotated(fl, answers, Tries(fl.pool), connected, idOf).0
    case Fill(wanted, connected, answers) => Filled(fl, wanted, answers, connected, idOf).0
  }

  lemma CalledIsAttempts(fl: Flow, c: Call, idOf: Naming) returns (attempts: seq<Answer>)
    requires Sound(fl, c.answers) && |c.answers| >= TRIES_PER_ROTATION + SPARES
    ensures Sound(fl, attempts) && Called(fl, c, idOf) == Steps(fl, attempts, idOf)
    ensures AllReady(c.answers) ==> AllReady(attempts)
  {
    hide IsPermutation;
    attempts := [];
    match c {
      case Rotate(connected, answers) =>
        var used := RotatedIsAttempts(fl, answers, Tries(fl.pool), connected, idOf);
        attempts := answers[..used];
      case Fill(wanted, connected, answers) =>
        if fl.pool.items != [] && fl.history.Some? && connected {
          var used := BatchIsAttempts(fl, answers[..BatchSize(wanted)], idOf);
          attempts := answers[..BatchSize(wanted)][..used];
        }
    }
  }

  lemma CalledKeepsSound(fl: Flow, c: Call, idOf: Naming)
    requires Sound(fl, c.answers) && |c.answers| >= TRIES_PER_ROTATION + SPARES
    ensures var after := Called(fl, c, idOf);
      && Valid(after.pool) && after.pool.items == fl.pool.items
      && (after.history.Some? <==> fl.history.Some?)
  {
    hide Called, IsPermutation, Steps;
    var attempts := CalledIsAttempts(fl, c, idOf);
  }

  ghost function Calls(fl: Flow, calls: seq<Call>, idOf: Naming): Flow
    requires AllSound(fl, calls)
    decreases |calls|
  {
    if calls == [] then fl
    else
      CalledKeepsSound(fl, calls[0], idOf);
      Calls(Called(fl, calls[0], idOf), calls[1..], idOf)
  }

  lemma {:induction false} StepsTogether(fl: Flow, a: seq<Answer>, b: seq<Answer>, idOf: Naming)
    requires Sound(fl, a) && Sound(fl, b)
    ensures Sound(fl, a + b) && Sound(Steps(fl, a, idOf), b)
    ensures Steps(fl, a + b, idOf) == Steps(Steps(fl, a, idOf), b, idOf)
    ensures Silent(fl, a + b, idOf) <==> Silent(fl, a, idOf) && Silent(Steps(fl, a, idOf), b, idOf)
    decreases |a|
  {
    hide IsPermutation;
    if a == [] {
      assert a + b == b;
    } else {
      assert (a + b)[1..] == a[1..] + b;
      StepsTogether(Step(fl, a[0], idOf).0, a[1..], b, idOf);
    }
  }

  /** Rotations and fillings, however they follow one another, are one series of attempts. */
  lemma {:induction false} CallsAreAttempts(fl: Flow, calls: seq<Call>, idOf: Naming) returns (attempts: seq<Answer>)
    requires AllSound(fl, calls)
    ensures Sound(fl, attempts) && Calls(fl, calls, idOf) == Steps(fl, attempts, idOf)
    ensures (forall k :: 0 <= k < |calls| ==> AllReady(calls[k].answers)) ==> AllReady(attempts)
    decreases |calls|
  {
    hide Called, IsPermutation, Step;
    attempts := [];
    if calls != [] {
      CalledKeepsSound(fl, calls[0], idOf);
      var first := CalledIsAttempts(fl, calls[0], idOf);
      var rest := CallsAreAttempts(Called(fl, calls[0], idOf), calls[1..], idOf);
      StepsTogether(fl, first, rest, idOf);
      attempts := first + rest;
    }
  }

  function OffersOf(drawn: seq<PhotoRef>, answers: seq<Answer>, idOf: Naming): seq<PhotoId>
    requires |drawn| == |answers|
  {
    if drawn == [] then []
    else
      (if answers[0].prepared && answers[0].addressed then [idOf(drawn[0])] else [])
      + OffersOf(drawn[1..], answers[1..], idOf)
  }

  function Offering(held: seq<PhotoId>, offers: seq<PhotoId>): seq<PhotoId>
    decreases |offers|
  {
    if offers == [] then held else Offering(Offered(held, offers[0]).0, offers[1..])
  }

  /** Attempts play the pool's order, and offer the connection what they could prepare. */
  lemma {:induction false} AttemptsArePlay(fl: Flow, answers: seq<Answer>, idOf: Naming)
    returns (states: seq<Pool>, drawn: seq<PhotoRef>)
    requires Sound(fl, answers) && fl.pool.items != []
    ensures IsPlay(states, drawn) && |drawn| == |answers|
    ensures states[0] == fl.pool && states[|drawn|] == Steps(fl, answers, idOf).pool
    ensures fl.history.Some? ==>
      Steps(fl, answers, idOf).history == Some(Offering(fl.history.value, OffersOf(drawn, answers, idOf)))
    ensures fl.history.Some? && AllReady(answers) && Silent(fl, answers, idOf) ==>
      forall k :: 0 <= k < |drawn| ==> idOf(drawn[k]) in fl.history.value
    decreases |answers|
  {
    hide IsPermutation, Newest;
    if answers == [] {
      states, drawn := [fl.pool], [];
    } else {
      var (ref, pool) := Drawn(fl.pool, answers[0].dealt);
      var next := Step(fl, answers[0], idOf).0;
      var states', drawn' := AttemptsArePlay(next, answers[1..], idOf);
      states, drawn := [fl.pool] + states', [ref.value] + drawn';
      PlayFrom(fl.pool, ref.value, states', drawn');
      assert drawn[1..] == drawn';
      if fl.history.Some? {
        OffersFrom(fl, ref.value, drawn', answers, idOf);
      }
    }
  }

  lemma PlayFrom(p: Pool, ref: PhotoRef, states: seq<Pool>, drawn: seq<PhotoRef>)
    requires IsPlay(states, drawn) && Valid(p) && p.items != [] && Advanced(p, Some(ref), states[0])
    ensures IsPlay([p] + states, [ref] + drawn)
  {
    hide Advanced, Valid;
    var states', drawn' := [p] + states, [ref] + drawn;
    forall k | 0 <= k < |drawn'|
      ensures Advanced(states'[k], Some(drawn'[k]), states'[k + 1])
    {
      if k > 0 {
        assert Advanced(states[k - 1], Some(drawn[k - 1]), states[k]);
      }
    }
  }

  lemma {:induction false} OffersFrom(fl: Flow, ref: PhotoRef, rest: seq<PhotoRef>, answers: seq<Answer>, idOf: Naming)
    requires Sound(fl, answers) && answers != [] && |rest| + 1 == |answers| && fl.history.Some?
    requires Drawn(fl.pool, answers[0].dealt).0 == Some(ref)
    ensures Offering(fl.history.value, OffersOf([ref] + rest, answers, idOf))
         == Offering(Step(fl, answers[0], idOf).0.history.value, OffersOf(rest, answers[1..], idOf))
  {
    assert ([ref] + rest)[1..] == rest;
    var later := OffersOf(rest, answers[1..], idOf);
    if answers[0].prepared && answers[0].addressed {
      assert ([idOf(ref)] + later)[1..] == later;
    } else {
      assert [] + later == later;
    }
  }

  /** However rotations and fillings take turns, they play one shuffled order
      between them, and what the connection holds is what those offers make of it. */
  lemma ConsumersShareOneOrder(fl: Flow, calls: seq<Call>, idOf: Naming)
    returns (attempts: seq<Answer>, states: seq<Pool>, drawn: seq<PhotoRef>)
    requires AllSound(fl, calls) && fl.pool.items != []
    ensures IsPlay(states, drawn) && |attempts| == |drawn|
    ensures states[0] == fl.pool && states[|drawn|] == Calls(fl, calls, idOf).pool
    ensures fl.history.Some? ==>
      Calls(fl, calls, idOf).history == Some(Offering(fl.history.value, OffersOf(drawn, attempts, idOf)))
  {
    hide Calls, Steps, IsPermutation, Valid, IsPlay;
    attempts := CallsAreAttempts(fl, calls, idOf);
    states, drawn := AttemptsArePlay(fl, attempts, idOf);
  }

  /** From a new connection, that is the history of a run of offers, so any 65
      photos in a row that went out are different. */
  lemma {:induction false} OfferingIsHistory(before: seq<PhotoId>, offers: seq<PhotoId>)
    ensures Offering(History(before), offers) == History(before + offers)
    decreases |offers|
  {
    hide Offered;
    if offers == [] {
      assert before + [] == before;
    } else {
      var next := before + [offers[0]];
      assert next[..|next| - 1] == before;
      OfferingIsHistory(next, offers[1..]);
      assert next + offers[1..] == before + offers;
    }
  }
}
