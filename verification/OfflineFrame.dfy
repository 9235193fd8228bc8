// The frame as its owner sees it: whatever the tiers of storage are doing and
// however rarely the panel is redrawn, the panel shows the playlist in order.
// The main loop reconciles the panel and rotates while the controller is away;
// touch, health and render threads tap, refill and store spares in between, and
// the connection thread decides whether the controller counts as away.
module OfflineFrame {
  import opened CardNames
  import CardCache
  import opened PhotoQueue
  import opened RenderedImages
  import opened ImageBuffer
  import PanelRotation
  import opened PanelSync
  import opened FrameCore
  import ControlPlane
  import Playlist

  /** `rotatedAt` are the start of the loop and the times it rotated, `talk` what the
      connection thread has been through. */
  datatype Frame = Frame(history: Playlist.History, world: World, rotatedAt: seq<nat>, talk: seq<ControlPlane.Turn>)

  /** Half a pass of the main loop, or something another thread does in between. */
  datatype Turn =
    | Reconcile(at: Surroundings, transfer: Transfer)
    | RotateIfDue(now: nat)
    | Talk(turn: ControlPlane.Turn)
    | Other(event: Playlist.Event)

  // What each event does to the photos in memory, change by change.

  function Applied(r: Reserve, changes: seq<Change>): Reserve
    decreases |changes|
  {
    if changes == [] then r else Applied(Changed(r, changes[0]), changes[1..])
  }

  function MutateAll(world: World, changes: seq<Change>): World
    decreases |changes|
  {
    if changes == [] then world else MutateAll(Mutate(world, changes[0]), changes[1..])
  }

  ghost function TopUpChanges(t: Playlist.Tiers): seq<Change>
    decreases |Queue(t.dir)|
  {
    if |t.reserve.buffer| >= Playlist.MEMORY_BUFFER_TARGET then []
    else
      var (taken, dir) := Taken(t.dir);
      TakenIsDequeue(t.dir);
      if taken.None? then []
      else
        var image := FromRgb565Bytes(taken.value);
        if image.Success?
        then [QueuePhoto(image.value)] + TopUpChanges(Playlist.Tiers(Push(t.reserve, image.value), dir))
        else TopUpChanges(t.(dir := dir))
  }

  ghost function EventChanges(t: Playlist.Tiers, e: Playlist.Event): seq<Change> {
    match e
    case Rotate =>
      var ready := Playlist.TopUp(t);
      TopUpChanges(t) +
      (if |ready.reserve.buffer| < 2 then []
       else [NextPhoto] + TopUpChanges(ready.(reserve := Advance(ready.reserve))))
    case Tap => if |t.reserve.buffer| < 2 then TopUpChanges(t) else [NextPhoto]
    case Refill => TopUpChanges(t)
    case Spare(id, _, bytes, refuses) =>
      if |bytes| != CardCache.PHOTO_BYTES || !UsableId(id) then []
      else TopUpChanges(Playlist.Tiers(t.reserve, Stored(t.dir, id, bytes, refuses, Landed)))
  }

  lemma {:induction false} AppliedTogether(r: Reserve, a: seq<Change>, b: seq<Change>)
    ensures Applied(r, a + b) == Applied(Applied(r, a), b)
    decreases |a|
  {
    hide Changed;
    if a == [] {
      assert a + b == b;
    } else {
      assert (a + b)[1..] == a[1..] + b;
      AppliedTogether(Changed(r, a[0]), a[1..], b);
    }
  }

  lemma {:induction false} TopUpIsChanges(t: Playlist.Tiers)
    ensures Applied(t.reserve, TopUpChanges(t)) == Playlist.TopUp(t).reserve
    decreases |Queue(t.dir)|
  {
    hide Queue, Taken, Push, FromRgb565Bytes;
    if |t.reserve.buffer| < Playlist.MEMORY_BUFFER_TARGET {
      TakenIsDequeue(t.dir);
      var (taken, dir) := Taken(t.dir);
      if taken.Some? {
        var image := FromRgb565Bytes(taken.value);
        if image.Success? {
          var next := Playlist.Tiers(Push(t.reserve, image.value), dir);
          TopUpIsChanges(next);
          assert ([QueuePhoto(image.value)] + TopUpChanges(next))[1..] == TopUpChanges(next);
        } else {
          TopUpIsChanges(t.(dir := dir));
        }
      }
    }
  }

  lemma AdvanceThenTopUp(t: Playlist.Tiers)
    ensures Applied(t.reserve, [NextPhoto] + TopUpChanges(t.(reserve := Advance(t.reserve))))
         == Playlist.TopUp(t.(reserve := Advance(t.reserve))).reserve
    ensures Applied(t.reserve, [NextPhoto]) == Advance(t.reserve)
  {
    hide Playlist.TopUp, TopUpChanges, Advance;
    var advanced := t.(reserve := Advance(t.reserve));
    TopUpIsChanges(advanced);
    assert ([NextPhoto] + TopUpChanges(advanced))[1..] == TopUpChanges(advanced);
    assert [NextPhoto][1..] == [];
  }

  /** Those changes are what the event makes of the photos in memory. */
  lemma EventIsChanges(h: Playlist.History, e: Playlist.Event)
    requires h.tiers.reserve.buffer != []
    ensures Applied(h.tiers.reserve, EventChanges(h.tiers, e)) == Playlist.After(h, e).tiers.reserve
  {
    hide Playlist.TopUp, TopUpChanges, Changed, Stored;
    var t := h.tiers;
    match e
    case Rotate =>
      TopUpIsChanges(t);
      var ready := Playlist.TopUp(t);
      if |ready.reserve.buffer| >= 2 {
        AdvanceThenTopUp(ready);
        var advanced := ready.(reserve := Advance(ready.reserve));
        AppliedTogether(t.reserve, TopUpChanges(t), [NextPhoto] + TopUpChanges(advanced));
      } else {
        assert TopUpChanges(t) + [] == TopUpChanges(t);
      }
    case Tap =>
      TopUpIsChanges(t);
      AdvanceThenTopUp(t);
    case Refill => TopUpIsChanges(t);
    case Spare(id, image, bytes, refuses) =>
      TopUpIsChanges(Playlist.Tiers(t.reserve, Stored(t.dir, id, bytes, refuses, Landed)));
  }

  /** Changing the photos leaves the panel alone and keeps the reconciler's record true. */
  lemma {:induction false} ChangesKeepInv(l: Layout, world: World, changes: seq<Change>)
    requires l.Valid() && Inv(l, world)
    ensures var after := MutateAll(world, changes);
      && Inv(l, after) && after.reserve == Applied(world.reserve, changes)
      && after.screen == world.screen && after.showing == world.showing
      && after.running == world.running && after.drawnAt == world.drawnAt
    decreases |changes|
  {
    if changes != [] {
      hide Changed, Inv;
      StepKeepsInv(l, world, Mutation(changes[0]));
      ChangesKeepInv(l, Mutate(world, changes[0]), changes[1..]);
    }
  }

  // How often the panel can come to want another picture.

  lemma {:induction false} MutatedTogether(world: World, a: seq<Change>, b: seq<Change>)
    ensures MutateAll(world, a + b) == MutateAll(MutateAll(world, a), b)
    decreases |a|
  {
    hide Mutate;
    if a == [] {
      assert a + b == b;
    } else {
      assert (a + b)[1..] == a[1..] + b;
      MutatedTogether(Mutate(world, a[0]), a[1..], b);
    }
  }

  /** Topping up behind a photo changes no generation. */
  lemma {:induction false} TopUpNeverBumps(world: World, t: Playlist.Tiers)
    requires world.reserve == t.reserve && t.reserve.buffer != []
    ensures var after := MutateAll(world, TopUpChanges(t));
      && after.bumps == world.bumps && after.drawnAt == world.drawnAt
      && after.reserve == Playlist.TopUp(t).reserve && after.reserve.buffer != []
    decreases |Queue(t.dir)|
  {
    hide Queue, Taken, FromRgb565Bytes;
    if |t.reserve.buffer| < Playlist.MEMORY_BUFFER_TARGET {
      TakenIsDequeue(t.dir);
      var (taken, dir) := Taken(t.dir);
      if taken.Some? {
        var image := FromRgb565Bytes(taken.value);
        if image.Success? {
          var next := Playlist.Tiers(Push(t.reserve, image.value), dir);
          TopUpNeverBumps(Mutate(world, QueuePhoto(image.value)), next);
          assert ([QueuePhoto(image.value)] + TopUpChanges(next))[1..] == TopUpChanges(next);
        } else {
          TopUpNeverBumps(world, t.(dir := dir));
        }
      }
    }
  }

  /** Moving on to the next photo changes it once. */
  lemma AdvanceBumpsOnce(world: World, t: Playlist.Tiers)
    requires world.reserve == t.reserve && |t.reserve.buffer| >= 2
    ensures var advanced := t.(reserve := Advance(t.reserve));
      && MutateAll(world, [NextPhoto]).bumps <= world.bumps + 1
      && MutateAll(world, [NextPhoto] + TopUpChanges(advanced)).bumps <= world.bumps + 1
      && MutateAll(world, [NextPhoto]).drawnAt == world.drawnAt
      && MutateAll(world, [NextPhoto] + TopUpChanges(advanced)).drawnAt == world.drawnAt
  {
    hide TopUpChanges, Playlist.TopUp;
    var advanced := t.(reserve := Advance(t.reserve));
    var moved := Mutate(world, NextPhoto);
    assert [NextPhoto][1..] == [];
    assert ([NextPhoto] + TopUpChanges(advanced))[1..] == TopUpChanges(advanced);
    TopUpNeverBumps(moved, advanced);
  }

  /** So every event changes it at most once. */
  lemma EventBumpsOnce(world: World, t: Playlist.Tiers, e: Playlist.Event)
    requires world.reserve == t.reserve && t.reserve.buffer != []
    ensures var after := MutateAll(world, EventChanges(t, e));
      after.bumps <= world.bumps + 1 && after.drawnAt == world.drawnAt
  {
    hide TopUpChanges, Playlist.TopUp, Stored, UsableId, Mutate;
    TopUpNeverBumps(world, t);
    match e
    case Rotate =>
      var ready := Playlist.TopUp(t);
      if |ready.reserve.buffer| >= 2 {
        var advanced := ready.(reserve := Advance(ready.reserve));
        MutatedTogether(world, TopUpChanges(t), [NextPhoto] + TopUpChanges(advanced));
        AdvanceBumpsOnce(MutateAll(world, TopUpChanges(t)), ready);
      } else {
        assert TopUpChanges(t) + [] == TopUpChanges(t);
      }
    case Tap =>
      if |t.reserve.buffer| >= 2 {
        AdvanceBumpsOnce(world, t);
      }
    case Refill =>
    case Spare(id, _, bytes, refuses) =>
      TopUpNeverBumps(world, Playlist.Tiers(t.reserve, Stored(t.dir, id, bytes, refuses, Landed)));
  }

  // The loop and the other threads, turn by turn.

  ghost function Happened(f: Frame, e: Playlist.Event): Frame
    requires f.history.tiers.reserve.buffer != []
  {
    f.(history := Playlist.After(f.history, e),
       world := MutateAll(f.world, EventChanges(f.history.tiers, e)))
  }

  predicate DueToRotate(rotatedAt: seq<nat>, now: nat, phase: ControllerPhase)
    requires rotatedAt != []
  {
    phase != Connected && now - rotatedAt[|rotatedAt| - 1] >= Playlist.OFFLINE_ROTATION_SECONDS
  }

  /** What the connection thread last said of the controller. */
  function PhaseOf(f: Frame): ControllerPhase {
    ControlPlane.Run(f.talk).phase
  }

  /** Other threads do not rotate, and a loop that has ended does nothing. */
  ghost function After(l: Layout, f: Frame, turn: Turn): Frame
    requires l.Valid() && f.history.tiers.reserve.buffer != [] && f.rotatedAt != []
  {
    match turn
    case Reconcile(at, transfer) =>
      if f.world.running then f.(world := Synced(l, f.world, at, transfer).0) else f
    case RotateIfDue(now) =>
      if f.world.running && DueToRotate(f.rotatedAt, now, PhaseOf(f))
      then Happened(f.(rotatedAt := f.rotatedAt + [now]), Playlist.Rotate)
      else f
    case Talk(t) => f.(talk := f.talk + [t])
    case Other(e) => if e.Rotate? then f else Happened(f, e)
  }

  ghost predicate InTune(l: Layout, f: Frame, start: seq<Playlist.Picture>, bound: nat)
    requires l.Valid()
  {
    && Inv(l, f.world) && f.world.reserve == f.history.tiers.reserve
    && Playlist.InStep(f.history, start, bound) && f.rotatedAt != []
  }

  lemma InTuneIsReady(l: Layout, f: Frame, start: seq<Playlist.Picture>, bound: nat)
    requires l.Valid() && InTune(l, f, start, bound)
    ensures f.history.tiers.reserve.buffer != [] && f.rotatedAt != []
  {
  }

  lemma HappenedKeepsTune(l: Layout, f: Frame, e: Playlist.Event, start: seq<Playlist.Picture>, bound: nat)
    requires l.Valid() && InTune(l, f, start, bound) && bound < FIRST_UNPADDED_ORDER
    ensures f.history.tiers.reserve.buffer != []
    ensures var after := Happened(f, e);
      && InTune(l, after, start, bound + 1) && after.world.running == f.world.running
      && after.world.screen == f.world.screen && after.rotatedAt == f.rotatedAt && after.talk == f.talk
      && after.world.bumps <= f.world.bumps + 1 && after.world.drawnAt == f.world.drawnAt
  {
    InTuneIsReady(l, f, start, bound);
    hide Inv, Playlist.InStep, Playlist.After, EventChanges;
    Playlist.AfterKeepsStep(f.history, e, start, bound);
    EventIsChanges(f.history, e);
    ChangesKeepInv(l, f.world, EventChanges(f.history.tiers, e));
    EventBumpsOnce(f.world, f.history.tiers, e);
  }

  lemma SyncKeepsTune(l: Layout, f: Frame, at: Surroundings, transfer: Transfer,
                      start: seq<Playlist.Picture>, bound: nat)
    requires l.Valid() && InTune(l, f, start, bound) && f.world.running && bound < FIRST_UNPADDED_ORDER
    ensures var world := Synced(l, f.world, at, transfer).0;
      && InTune(l, f.(world := world), start, bound + 1)
      && Undrawn(world) <= Undrawn(f.world)
  {
    StepKeepsInv(l, f.world, Sync(at, transfer));
    hide Inv, Playlist.PlaylistOf;
    assert f.world.drawnAt <= f.world.bumps by { InvCounts(l, f.world); }
    Playlist.BoundGrows(f.history.tiers.dir, bound);
  }

  lemma InvCounts(l: Layout, world: World)
    requires l.Valid() && Inv(l, world)
    ensures world.drawnAt <= world.bumps
  {
  }

  /** How many changes of photo the panel is behind. */
  function Undrawn(world: World): int {
    world.bumps - world.drawnAt
  }

  lemma AfterKeepsTune(l: Layout, f: Frame, turn: Turn, start: seq<Playlist.Picture>, bound: nat)
    requires l.Valid() && InTune(l, f, start, bound) && bound < FIRST_UNPADDED_ORDER
    ensures f.history.tiers.reserve.buffer != [] && f.rotatedAt != []
    ensures InTune(l, After(l, f, turn), start, bound + 1)
    ensures Undrawn(After(l, f, turn).world) <= Undrawn(f.world) + 1
  {
    InTuneIsReady(l, f, start, bound);
    hide *;
    match turn
    case Reconcile(at, transfer) => ReconcileKeepsTune(l, f, at, transfer, start, bound);
    case RotateIfDue(now) => RotateKeepsTune(l, f, now, start, bound);
    case Talk(t) => TalkKeepsTune(l, f, t, start, bound);
    case Other(e) => OtherKeepsTune(l, f, e, start, bound);
  }

  lemma ReconcileKeepsTune(l: Layout, f: Frame, at: Surroundings, transfer: Transfer,
                           start: seq<Playlist.Picture>, bound: nat)
    requires l.Valid() && InTune(l, f, start, bound) && bound < FIRST_UNPADDED_ORDER
    requires f.history.tiers.reserve.buffer != [] && f.rotatedAt != []
    ensures var after := After(l, f, Reconcile(at, transfer));
      InTune(l, after, start, bound + 1) && Undrawn(after.world) <= Undrawn(f.world) + 1
  {
    hide Inv, Playlist.InStep, InTune, Synced, PhaseOf, DueToRotate, Happened, Undrawn, InSequence, Layout.Valid;
    IdleKeepsTune(l, f, start, bound);
    if f.world.running {
      SyncKeepsTune(l, f, at, transfer, start, bound);
    }
  }

  lemma RotateKeepsTune(l: Layout, f: Frame, now: nat, start: seq<Playlist.Picture>, bound: nat)
    requires l.Valid() && InTune(l, f, start, bound) && bound < FIRST_UNPADDED_ORDER
    requires f.history.tiers.reserve.buffer != [] && f.rotatedAt != []
    ensures var after := After(l, f, RotateIfDue(now));
      InTune(l, after, start, bound + 1) && Undrawn(after.world) <= Undrawn(f.world) + 1
  {
    hide Inv, Playlist.InStep, InTune, Synced, PhaseOf, DueToRotate, Happened, InSequence, Layout.Valid;
    IdleKeepsTune(l, f, start, bound);
    if f.world.running && DueToRotate(f.rotatedAt, now, PhaseOf(f)) {
      RotatedIsInTune(l, f, f.rotatedAt + [now], start, bound);
      HappenedKeepsTune(l, f.(rotatedAt := f.rotatedAt + [now]), Playlist.Rotate, start, bound);
    }
  }

  lemma TalkKeepsTune(l: Layout, f: Frame, t: ControlPlane.Turn, start: seq<Playlist.Picture>, bound: nat)
    requires l.Valid() && InTune(l, f, start, bound) && bound < FIRST_UNPADDED_ORDER
    requires f.history.tiers.reserve.buffer != [] && f.rotatedAt != []
    ensures var after := After(l, f, Talk(t));
      InTune(l, after, start, bound + 1) && Undrawn(after.world) <= Undrawn(f.world) + 1
  {
    hide Inv, Playlist.InStep, InTune, Synced, PhaseOf, DueToRotate, Happened, InSequence, Layout.Valid;
    IdleKeepsTune(l, f, start, bound);
    TalkingKeepsTune(l, f, f.talk + [t], start, bound + 1);
  }

  lemma OtherKeepsTune(l: Layout, f: Frame, e: Playlist.Event, start: seq<Playlist.Picture>, bound: nat)
    requires l.Valid() && InTune(l, f, start, bound) && bound < FIRST_UNPADDED_ORDER
    requires f.history.tiers.reserve.buffer != [] && f.rotatedAt != []
    ensures var after := After(l, f, Other(e));
      InTune(l, after, start, bound + 1) && Undrawn(after.world) <= Undrawn(f.world) + 1
  {
    hide Inv, Playlist.InStep, InTune, Synced, PhaseOf, DueToRotate, Happened, InSequence, Layout.Valid;
    IdleKeepsTune(l, f, start, bound);
    if !e.Rotate? {
      HappenedKeepsTune(l, f, e, start, bound);
    }
  }

  lemma TalkingKeepsTune(
      l: Layout, f: Frame, talk: seq<ControlPlane.Turn>, start: seq<Playlist.Picture>, bound: nat)
    requires l.Valid() && InTune(l, f, start, bound)
    ensures InTune(l, f.(talk := talk), start, bound)
  {
    hide Inv, Playlist.InStep;
  }

  lemma RotatedIsInTune(l: Layout, f: Frame, rotatedAt: seq<nat>, start: seq<Playlist.Picture>, bound: nat)
    requires l.Valid() && InTune(l, f, start, bound) && rotatedAt != []
    ensures InTune(l, f.(rotatedAt := rotatedAt), start, bound)
  {
    hide Inv, Playlist.InStep;
  }

  lemma IdleKeepsTune(l: Layout, f: Frame, start: seq<Playlist.Picture>, bound: nat)
    requires l.Valid() && InTune(l, f, start, bound) && bound < FIRST_UNPADDED_ORDER
    ensures InTune(l, f, start, bound + 1)
  {
    hide Inv, Playlist.PlaylistOf;
    Playlist.BoundGrows(f.history.tiers.dir, bound);
  }

  /** A run, turn by turn. It would stop if the screen went blank, which it never does. */
  ghost function Run(l: Layout, f: Frame, turns: seq<Turn>): Frame
    requires l.Valid()
    decreases |turns|
  {
    if turns == [] || f.history.tiers.reserve.buffer == [] || f.rotatedAt == [] then f
    else Run(l, After(l, f, turns[0]), turns[1..])
  }

  lemma {:induction false} RunKeepsTune(
      l: Layout, f: Frame, turns: seq<Turn>, start: seq<Playlist.Picture>, bound: nat)
    requires l.Valid() && InTune(l, f, start, bound) && bound + |turns| <= FIRST_UNPADDED_ORDER
    ensures InTune(l, Run(l, f, turns), start, bound + |turns|)
    ensures Undrawn(Run(l, f, turns).world) <= Undrawn(f.world) + |turns|
    decreases |turns|
  {
    hide After, InTune, Undrawn;
    if turns != [] {
      InTuneIsReady(l, f, start, bound);
      AfterKeepsTune(l, f, turns[0], start, bound);
      RunKeepsTune(l, After(l, f, turns[0]), turns[1..], start, bound + 1);
    }
  }

  lemma {:induction false} RunOneMore(
      l: Layout, f: Frame, turns: seq<Turn>, turn: Turn, start: seq<Playlist.Picture>, bound: nat)
    requires l.Valid() && InTune(l, f, start, bound) && bound + |turns| <= FIRST_UNPADDED_ORDER
    ensures var before := Run(l, f, turns);
      && before.history.tiers.reserve.buffer != [] && before.rotatedAt != []
      && Run(l, f, turns + [turn]) == After(l, before, turn)
    decreases |turns|
  {
    hide After, InTune;
    InTuneIsReady(l, f, start, bound);
    if turns == [] {
      assert turns + [turn] == [turn] && [turn][1..] == [];
    } else {
      assert (turns + [turn])[1..] == turns[1..] + [turn];
      AfterKeepsTune(l, f, turns[0], start, bound);
      RunOneMore(l, After(l, f, turns[0]), turns[1..], turn, start, bound + 1);
    }
  }

  /** What the connection thread goes through during the turns. */
  function Said(turns: seq<Turn>): seq<ControlPlane.Turn> {
    if turns == [] then [] else (if turns[0].Talk? then [turns[0].turn] else []) + Said(turns[1..])
  }

  /** What a turn does to the photos: what another thread does, or a rotation that the
      loop records. */
  ghost function Happening(l: Layout, f: Frame, turn: Turn): seq<Playlist.Event>
    requires l.Valid() && f.history.tiers.reserve.buffer != [] && f.rotatedAt != []
  {
    if |After(l, f, turn).rotatedAt| > |f.rotatedAt| then [Playlist.Rotate]
    else if turn.Other? && !turn.event.Rotate? then [turn.event]
    else []
  }

  ghost function Happenings(l: Layout, f: Frame, turns: seq<Turn>): seq<Playlist.Event>
    requires l.Valid()
    decreases |turns|
  {
    if turns == [] || f.history.tiers.reserve.buffer == [] || f.rotatedAt == [] then []
    else Happening(l, f, turns[0]) + Happenings(l, After(l, f, turns[0]), turns[1..])
  }

  lemma OneHappening(l: Layout, f: Frame, turn: Turn, rest: seq<Playlist.Event>)
    requires l.Valid() && f.history.tiers.reserve.buffer != [] && f.rotatedAt != []
    ensures Playlist.Run(f.history, Happening(l, f, turn) + rest) == Playlist.Run(After(l, f, turn).history, rest)
    ensures After(l, f, turn).talk == f.talk + (if turn.Talk? then [turn.turn] else [])
  {
    hide MutateAll, EventChanges, Playlist.After, Playlist.Run, Synced, PhaseOf, Layout.Valid;
    assert f.talk + [] == f.talk && [] + rest == rest;
    FirstEvent(f.history, Playlist.Rotate, rest);
    if turn.Other? {
      FirstEvent(f.history, turn.event, rest);
    }
  }

  lemma FirstTurn(l: Layout, f: Frame, turns: seq<Turn>)
    requires l.Valid() && f.history.tiers.reserve.buffer != [] && f.rotatedAt != []
    ensures turns == [] ==>
      && Run(l, f, turns) == f && f.talk + Said(turns) == f.talk
      && Playlist.Run(f.history, Happenings(l, f, turns)) == f.history
    ensures turns != [] ==>
      var next := After(l, f, turns[0]);
      && Run(l, f, turns) == Run(l, next, turns[1..])
      && Happenings(l, f, turns) == Happening(l, f, turns[0]) + Happenings(l, next, turns[1..])
      && f.talk + Said(turns) == f.talk + (if turns[0].Talk? then [turns[0].turn] else []) + Said(turns[1..])
  {
    hide *;
    FirstTurnRuns(l, f, turns);
    FirstTurnHappens(l, f, turns);
    FirstTurnIsSaid(f.talk, turns);
    FirstEvent(f.history, Playlist.Rotate, []);
  }

  lemma FirstTurnRuns(l: Layout, f: Frame, turns: seq<Turn>)
    requires l.Valid() && f.history.tiers.reserve.buffer != [] && f.rotatedAt != []
    ensures Run(l, f, turns) == if turns == [] then f else Run(l, After(l, f, turns[0]), turns[1..])
  {
    hide After, Layout.Valid;
  }

  lemma FirstTurnHappens(l: Layout, f: Frame, turns: seq<Turn>)
    requires l.Valid() && f.history.tiers.reserve.buffer != [] && f.rotatedAt != []
    ensures Happenings(l, f, turns)
         == if turns == [] then [] else Happening(l, f, turns[0]) + Happenings(l, After(l, f, turns[0]), turns[1..])
  {
    hide After, Happening, Layout.Valid;
  }

  lemma FirstTurnIsSaid(talk: seq<ControlPlane.Turn>, turns: seq<Turn>)
    ensures talk + Said(turns)
         == if turns == [] then talk else talk + (if turns[0].Talk? then [turns[0].turn] else []) + Said(turns[1..])
  {
  }

  /** The photos go through exactly what the threads do and the loop records, and the
      connection thread through exactly its own turns. */
  lemma {:induction false} RunIsThePlaylistsRun(
      l: Layout, f: Frame, turns: seq<Turn>, start: seq<Playlist.Picture>, bound: nat)
    requires l.Valid() && InTune(l, f, start, bound) && bound + |turns| <= FIRST_UNPADDED_ORDER
    ensures Run(l, f, turns).history == Playlist.Run(f.history, Happenings(l, f, turns))
    ensures Run(l, f, turns).talk == f.talk + Said(turns)
    decreases |turns|
  {
    hide *;
    InTuneIsReady(l, f, start, bound);
    FirstTurn(l, f, turns);
    if turns != [] {
      var next := After(l, f, turns[0]);
      AfterKeepsTune(l, f, turns[0], start, bound);
      RunIsThePlaylistsRun(l, next, turns[1..], start, bound + 1);
      OneHappening(l, f, turns[0], Happenings(l, next, turns[1..]));
    }
  }

  lemma FirstEvent(h: Playlist.History, e: Playlist.Event, rest: seq<Playlist.Event>)
    requires h.tiers.reserve.buffer != []
    ensures Playlist.Run(h, [e] + rest) == Playlist.Run(Playlist.After(h, e), rest)
    ensures Playlist.Run(h, []) == h
  {
    hide Playlist.After;
    assert ([e] + rest)[1..] == rest;
  }

  /** The loop's start: whatever the panel went through before, with a photo in memory. */
  ghost predicate Starts(l: Layout, before: seq<PanelSync.Event>, t: Playlist.Tiers, bound: nat)
    requires l.Valid()
  {
    && t.reserve == PanelSync.Run(l, before).reserve && t.reserve.buffer != []
    && InSequence(t.dir, bound)
  }

  /** The loop begins at time `at`, after whatever the connection thread has been through. */
  ghost function StartOf(l: Layout, before: seq<PanelSync.Event>, t: Playlist.Tiers, at: nat,
                         talk: seq<ControlPlane.Turn>): Frame
    requires l.Valid()
  {
    Frame(Playlist.History(t, [], []), PanelSync.Run(l, before), [at], talk)
  }

  lemma StartIsInTune(l: Layout, before: seq<PanelSync.Event>, t: Playlist.Tiers, bound: nat, at: nat,
                      talk: seq<ControlPlane.Turn>)
    requires l.Valid() && Starts(l, before, t, bound)
    ensures InTune(l, StartOf(l, before, t, at, talk), Playlist.PlaylistOf(t), bound)
    ensures StartOf(l, before, t, at, talk).world == PanelSync.Run(l, before)
  {
    PanelSync.RunKeepsInv(l, before);
    hide Inv, Playlist.PlaylistOf, PanelSync.Run, InSequence;
    assert [] + Playlist.PlaylistOf(t) == Playlist.PlaylistOf(t) + [];
  }

  lemma FrontIsTheNextTurn(h: Playlist.History, start: seq<Playlist.Picture>, bound: nat)
    requires Playlist.InStep(h, start, bound)
    ensures h.tiers.reserve.buffer != [] && |h.gone| < |start + h.added|
    ensures h.tiers.reserve.buffer[0].rgb565 == (start + h.added)[|h.gone|]
  {
    hide Playlist.PlaylistOf, InSequence;
    Playlist.BufferLeadsPlaylist(h.tiers);
    assert h.gone + Playlist.PlaylistOf(h.tiers) == start + h.added;
  }

  /** The panel has the picture on it, turned to the panel's own orientation. */
  predicate Shows(l: Layout, screen: seq<Pixel>, picture: Playlist.Picture) {
    |picture| >= l.w * l.h && screen == PanelRotation.Rotated(picture[..l.w * l.h], l.w, l.h)
  }

  /** End to end. From any state the panel and the photos can be in with one up, take
      any run of passes, rotations among them, with taps, refills, stored spares and
      the connection's ups and downs in between. One more reconciliation, if it succeeds,
      leaves on the panel, turned to its own orientation, the picture whose turn it is in the
      one playlist. The generation number must not run out: 2^64 less the number of
      turns is the most by which the panel may be behind at the start. */
  lemma PanelShowsThePlaylist(
      l: Layout, before: seq<PanelSync.Event>, t: Playlist.Tiers, turns: seq<Turn>, bound: nat, begun: nat,
      talk: seq<ControlPlane.Turn>, at: Surroundings, transfer: Transfer)
    requires l.Valid() && Starts(l, before, t, bound) && bound + |turns| <= FIRST_UNPADDED_ORDER
    requires Undrawn(PanelSync.Run(l, before)) + |turns| < GENERATIONS
    requires Run(l, StartOf(l, before, t, begun, talk), turns + [Reconcile(at, transfer)]).world.running
    ensures var f := Run(l, StartOf(l, before, t, begun, talk), turns + [Reconcile(at, transfer)]);
      var turn := Playlist.PlaylistOf(t) + f.history.added;
      |f.history.gone| < |turn| && Shows(l, f.world.screen, turn[|f.history.gone|])
  {
    StartIsInTune(l, before, t, bound, begun, talk);
    var f := Run(l, StartOf(l, before, t, begun, talk), turns);
    var start := Playlist.PlaylistOf(t);
    hide Run, StartOf, Starts, Inv, Playlist.PlaylistOf, Playlist.InStep, Synced, PanelSync.Run;
    RunKeepsTune(l, StartOf(l, before, t, begun, talk), turns, start, bound);
    RunOneMore(l, StartOf(l, before, t, begun, talk), turns, Reconcile(at, transfer), start, bound);
    FrontIsTheNextTurn(f.history, start, bound + |turns|);
    if f.world.running {
      LastSync(l, f.world, at, transfer);
    }
  }

  lemma LastSync(l: Layout, world: World, at: Surroundings, transfer: Transfer)
    requires l.Valid() && Inv(l, world) && world.running && world.reserve.buffer != []
    requires world.bumps - world.drawnAt < GENERATIONS && Synced(l, world, at, transfer).0.running
    ensures Synced(l, world, at, transfer).1 && SyncIsRedraw(l, world, at, transfer)
  {
    hide Inv;
    assert Synced(l, world, at, transfer).1;
    hide Synced;
    InvRefinesRedraw(l, world, at, transfer);
  }

  // After a failure, and between rotations.

  /** Once a reconciliation has failed the loop is over: taps and spares still move
      photos about, but nothing is rotated and the panel never changes again. */
  lemma {:induction false} NothingHappensAfterAFailure(
      l: Layout, f: Frame, turns: seq<Turn>, start: seq<Playlist.Picture>, bound: nat)
    requires l.Valid() && InTune(l, f, start, bound) && bound + |turns| <= FIRST_UNPADDED_ORDER
    requires !f.world.running
    ensures var after := Run(l, f, turns);
      && !after.world.running && after.world.screen == f.world.screen && after.rotatedAt == f.rotatedAt
    decreases |turns|
  {
    hide InTune, Happened, Synced, PhaseOf;
    if turns != [] {
      InTuneIsReady(l, f, start, bound);
      AfterKeepsTune(l, f, turns[0], start, bound);
      if turns[0].Other? && !turns[0].event.Rotate? {
        HappenedKeepsTune(l, f, turns[0].event, start, bound);
      }
      NothingHappensAfterAFailure(l, After(l, f, turns[0]), turns[1..], start, bound + 1);
    }
  }

  ghost predicate Apart(times: seq<nat>) {
    forall k :: 0 < k < |times| ==> times[k] >= times[k - 1] + 300
  }

  /** Rotations are at least 300 seconds apart, and the first that long after the loop began. */
  lemma {:induction false} RotationsAreApart(l: Layout, f: Frame, turns: seq<Turn>)
    requires l.Valid() && Apart(f.rotatedAt)
    ensures Apart(Run(l, f, turns).rotatedAt) && f.rotatedAt <= Run(l, f, turns).rotatedAt
    decreases |turns|
  {
    hide MutateAll, EventChanges, Playlist.After, Synced, PhaseOf;
    if turns != [] && f.history.tiers.reserve.buffer != [] && f.rotatedAt != [] {
      RotationsAreApart(l, After(l, f, turns[0]), turns[1..]);
    }
  }

  // Rotations and the connection.

  /** While the connection thread dials or pauses, the loop rotates whenever 300 seconds
      have gone by since it last did, and then moves exactly one picture on. */
  lemma AwayMeansRotating(l: Layout, f: Frame, now: nat, start: seq<Playlist.Picture>, bound: nat)
    requires l.Valid() && InTune(l, f, start, bound) && f.world.running
    requires ControlPlane.Run(f.talk).mode == ControlPlane.Connecting
          || ControlPlane.Run(f.talk).mode == ControlPlane.Waiting
    ensures f.history.tiers.reserve.buffer != [] && f.rotatedAt != []
    ensures var after := After(l, f, RotateIfDue(now));
      var waiting := Playlist.PlaylistOf(f.history.tiers);
      && (after.rotatedAt != f.rotatedAt
          <==> now >= f.rotatedAt[|f.rotatedAt| - 1] + 300)
      && Playlist.PlaylistOf(after.history.tiers)
           == if after.rotatedAt != f.rotatedAt && |waiting| >= 2 then waiting[1..] else waiting
  {
    hide ControlPlane.Run, Playlist.PlaylistOf, Playlist.Rotation, MutateAll, EventChanges, InTune, Happened;
    InTuneIsReady(l, f, start, bound);
    ControlPlane.ConnectedNeedsAConnection(f.talk);
    Playlist.RotationIsNext(f.history.tiers);
    assert PhaseOf(f) != Connected;
    var rotated := f.rotatedAt + [now];
    assert |rotated| > |f.rotatedAt|;
    RotatingIsRotation(f.(rotatedAt := rotated));
  }

  lemma RotatingIsRotation(f: Frame)
    requires f.history.tiers.reserve.buffer != []
    ensures Happened(f, Playlist.Rotate).history.tiers == Playlist.Rotation(f.history.tiers)
    ensures Happened(f, Playlist.Rotate).rotatedAt == f.rotatedAt
  {
    hide Playlist.PlaylistOf, Playlist.Rotation, MutateAll, EventChanges;
  }

  lemma StoppedForGood(p: ControlPlane.Plane, t: ControlPlane.Turn)
    requires p.mode == ControlPlane.Stopped
    ensures ControlPlane.Step(p, t) == p
  {
  }

  /** A connection thread that has ended while connected leaves the frame waiting for a
      controller that cannot come back: it never rotates by itself again. */
  lemma {:induction false} EndedWhileConnectedNeverRotates(l: Layout, f: Frame, turns: seq<Turn>)
    requires l.Valid() && ControlPlane.Run(f.talk).mode == ControlPlane.Stopped && PhaseOf(f) == Connected
    ensures Run(l, f, turns).rotatedAt == f.rotatedAt
    decreases |turns|
  {
    hide ControlPlane.Run, MutateAll, EventChanges, Playlist.After, Synced, ControlPlane.Step;
    if turns != [] && f.history.tiers.reserve.buffer != [] && f.rotatedAt != [] {
      var next := After(l, f, turns[0]);
      if turns[0].Talk? {
        OneMoreTalk(f.talk, turns[0].turn);
        StoppedForGood(ControlPlane.Run(f.talk), turns[0].turn);
      }
      assert next.rotatedAt == f.rotatedAt && ControlPlane.Run(next.talk) == ControlPlane.Run(f.talk);
      EndedWhileConnectedNeverRotates(l, next, turns[1..]);
    }
  }

  lemma OneMoreTalk(talk: seq<ControlPlane.Turn>, t: ControlPlane.Turn)
    ensures ControlPlane.Run(talk + [t]) == ControlPlane.Step(ControlPlane.Run(talk), t)
  {
    assert (talk + [t])[..|talk|] == talk;
  }

  /** One pass of the main loop: reconcile, and rotate if that is due. An error from
      the reconciliation ends the loop before anything is rotated. */
  method MainPass(ui: FrameUi, frame: Playlist.Frame, at: Surroundings, transfer: Transfer, now: nat,
                  phase: ControllerPhase)
    returns (running: bool)
    requires ui.Valid() && |ui.layout.art(WantedScreen(at))| == ui.layout.w * ui.layout.h
    requires frame.lastOfflineRotation <= now
    modifies ui, ui.panel, ui.panel.canvas, ui.panel.rotated, frame, frame.images, frame.cache
    ensures ui.Valid()
    ensures (ui.showing, ui.panel.screen, running)
         == Reconciled(ui.layout, old(frame.images.State()), old(ui.showing), old(ui.panel.screen), at, transfer)
    ensures if running && DueToRotate([old(frame.lastOfflineRotation)], now, phase)
            then frame.State() == Playlist.Rotation(old(frame.State())) && frame.lastOfflineRotation == now
            else frame.State() == old(frame.State()) && frame.lastOfflineRotation == old(frame.lastOfflineRotation)
  {
    running := ui.Sync(frame.images, at, transfer);
    if running {
      var _ := frame.Pass(now, phase == Connected);
    }
  }
}
