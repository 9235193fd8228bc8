// Redrawing the panel only when something changed. The reconciler compares
// what it last drew with what it wants, and trusts a generation number to
// stand for the photo itself.
module PanelSync {
  import opened Wrappers
  import opened FrameCore
  import opened RenderedImages
  import opened ImageBuffer
  import opened PanelRotation

  datatype Surroundings = Surroundings(
    network: NetworkPhase, controller: ControllerPhase, ssid: Option<string>, deviceId: Option<string>)

  datatype Showing =
    | Nothing
    | Starting
    | WifiSetup(ssid: string)
    | AwaitingAdoption(deviceId: string)
    | Ready
    | Photo(generation: nat)

  function WantedScreen(at: Surroundings): (s: Showing)
    ensures !s.Photo? && s != Nothing
  {
    if at.controller == Connected then Ready
    else match at.network
      case Provisioning => WifiSetup(if at.ssid.Some? then at.ssid.value else "Photo Frame setup")
      case NetworkConnected => AwaitingAdoption(if at.deviceId.Some? then at.deviceId.value else "unknown")
      case Unprovisioned => Starting
  }

  /** The panel's size and how each setup screen is drawn on the canvas. */
  datatype Layout = Layout(w: nat, h: nat, art: Showing -> seq<Pixel>) {
    ghost predicate Valid() {
      forall s :: |art(s)| == w * h
    }

    function ScreenFrame(s: Showing): seq<Pixel>
      requires |art(s)| == w * h
    {
      Rotated(art(s), w, h)
    }

    function PhotoFrame(pixels: seq<Pixel>): seq<Pixel>
      requires |pixels| >= w * h
    {
      Rotated(pixels[..w * h], w, h)
    }
  }

  /** How the panel takes one transfer. A failed one may leave anything behind. */
  datatype Transfer = Transfer(drawn: bool, damage: seq<Pixel>)

  /** `bumps` counts changes of generation since the start, without wrapping;
      `drawnAt` is that count when the panel was last drawn. The main loop runs
      until a reconciliation fails: the error ends it for good. */
  datatype World = World(
    reserve: Reserve, showing: Showing, screen: seq<Pixel>, bumps: nat, drawnAt: nat, running: bool)

  const BOOT := World(Reserve([], 0), Nothing, [], 0, 0, true)

  function Wanted(r: Reserve, at: Surroundings): Showing {
    if r.buffer != [] then Photo(r.generation) else WantedScreen(at)
  }

  /** What redrawing unconditionally would put on the panel. */
  function Ideal(l: Layout, r: Reserve, at: Surroundings): Option<seq<Pixel>>
    requires |l.art(WantedScreen(at))| == l.w * l.h
  {
    if r.buffer == [] then Some(l.ScreenFrame(WantedScreen(at)))
    else if |r.buffer[0].rgb565| < l.w * l.h then None
    else Some(l.PhotoFrame(r.buffer[0].rgb565))
  }

  function Mutate(world: World, c: Change): World {
    world.(reserve := Changed(world.reserve, c),
           bumps := if Bumps(world.reserve, c) then world.bumps + 1 else world.bumps)
  }

  /** One reconciliation: what is recorded as showing, what the panel shows, and
      whether it succeeded. */
  function Reconciled(l: Layout, r: Reserve, showing: Showing, screen: seq<Pixel>, at: Surroundings, t: Transfer)
    : (Showing, seq<Pixel>, bool)
    requires |l.art(WantedScreen(at))| == l.w * l.h
  {
    var wanted := Wanted(r, at);
    if showing == wanted then (showing, screen, true)
    else match Ideal(l, r, at)
      case None => (showing, screen, false)
      case Some(frame) => if t.drawn then (wanted, frame, true) else (showing, t.damage, false)
  }

  function Synced(l: Layout, world: World, at: Surroundings, t: Transfer): (World, bool)
    requires |l.art(WantedScreen(at))| == l.w * l.h
  {
    var (showing, screen, ok) := Reconciled(l, world.reserve, world.showing, world.screen, at, t);
    var drawnAt := if ok && showing != world.showing then world.bumps else world.drawnAt;
    (world.(showing := showing, screen := screen, drawnAt := drawnAt, running := world.running && ok), ok)
  }

  datatype Event = Mutation(change: Change) | Sync(at: Surroundings, transfer: Transfer)

  ghost function Step(l: Layout, world: World, e: Event): World
    requires l.Valid()
  {
    match e
    case Mutation(c) => Mutate(world, c)
    case Sync(at, t) => if world.running then Synced(l, world, at, t).0 else world
  }

  ghost function Run(l: Layout, events: seq<Event>): World
    requires l.Valid()
    decreases |events|
  {
    if events == [] then BOOT
    else Step(l, Run(l, events[..|events| - 1]), events[|events| - 1])
  }

  ghost predicate Inv(l: Layout, world: World)
    requires l.Valid()
  {
    && |world.reserve.buffer| <= BUFFER_CAPACITY
    && world.reserve.generation == world.bumps % GENERATIONS
    && world.drawnAt <= world.bumps
    && (world.showing.Photo? ==> world.showing.generation == world.drawnAt % GENERATIONS)
    && (world.running ==> PanelIsRight(l, world))
  }

  /** While the loop runs, the panel shows what is recorded: the photo then in
      front, or the setup screen. */
  ghost predicate PanelIsRight(l: Layout, world: World)
    requires l.Valid()
  {
    && (world.showing.Photo? && world.bumps == world.drawnAt ==>
          && world.reserve.buffer != []
          && |world.reserve.buffer[0].rgb565| >= l.w * l.h
          && world.screen == l.PhotoFrame(world.reserve.buffer[0].rgb565))
    && (!world.showing.Photo? && world.showing != Nothing ==> world.screen == l.ScreenFrame(world.showing))
  }

  lemma BumpCounts(n: nat)
    ensures Bump(n % GENERATIONS) == (n + 1) % GENERATIONS
  {
  }

  lemma StepKeepsInv(l: Layout, world: World, e: Event)
    requires l.Valid() && Inv(l, world)
    ensures Inv(l, Step(l, world, e))
  {
    match e
    case Mutation(c) =>
      ChangesAreCounted(world.reserve, c);
      BumpCounts(world.bumps);
      hide Changed, Bumps;
    case Sync(at, t) =>
  }

  lemma {:induction false} RunKeepsInv(l: Layout, events: seq<Event>)
    requires l.Valid()
    ensures Inv(l, Run(l, events))
    decreases |events|
  {
    if events != [] {
      RunKeepsInv(l, events[..|events| - 1]);
      StepKeepsInv(l, Run(l, events[..|events| - 1]), events[|events| - 1]);
    }
  }

  /** Counts fewer than a full turn of the generation number apart are told apart by it. */
  lemma GenerationTellsCountsApart(m: nat, n: nat)
    requires m <= n < m + GENERATIONS
    ensures m % GENERATIONS == n % GENERATIONS <==> m == n
  {
  }

  /** Whatever happened between reconciliations, one that succeeds leaves the
      panel exactly as an unconditional redraw would, as long as fewer than 2^64
      changes of photo went by since the last draw. */
  lemma SyncRefinesRedraw(l: Layout, events: seq<Event>, at: Surroundings, t: Transfer)
    requires l.Valid() && Run(l, events).running
    requires var world := Run(l, events);
             world.reserve.buffer != [] ==> world.bumps - world.drawnAt < GENERATIONS
    requires Synced(l, Run(l, events), at, t).1
    ensures SyncIsRedraw(l, Run(l, events), at, t)
  {
    RunKeepsInv(l, events);
    InvRefinesRedraw(l, Run(l, events), at, t);
  }

  ghost predicate SyncIsRedraw(l: Layout, world: World, at: Surroundings, t: Transfer)
    requires l.Valid()
  {
    var (after, _) := Synced(l, world, at, t);
    && Some(after.screen) == Ideal(l, after.reserve, at)
    && after.showing == Wanted(after.reserve, at)
    && after.reserve == world.reserve
  }

  /** The screen that belongs to how far the frame has got: ready once the controller
      knows it, and else what its network still needs. */
  predicate Belongs(s: Showing, at: Surroundings) {
    match at.controller
    case Connected => s == Ready
    case _ =>
      match at.network
      case Unprovisioned => s == Starting
      case Provisioning =>
        s.WifiSetup? && (if at.ssid == None then s.ssid == "Photo Frame setup" else at.ssid == Some(s.ssid))
      case NetworkConnected =>
        s.AwaitingAdoption?
        && (if at.deviceId == None then s.deviceId == "unknown" else at.deviceId == Some(s.deviceId))
  }

  /** With no photo in memory, a successful reconciliation leaves the panel with the
      one screen that belongs to the phase, whatever went before. */
  lemma ScreenFollowsThePhase(l: Layout, events: seq<Event>, at: Surroundings, t: Transfer)
    requires l.Valid() && Run(l, events).running && Run(l, events).reserve.buffer == []
    requires Synced(l, Run(l, events), at, t).1
    ensures var after := Synced(l, Run(l, events), at, t).0;
      Belongs(after.showing, at) && after.screen == Rotated(l.art(after.showing), l.w, l.h)
  {
    SyncRefinesRedraw(l, events, at, t);
    hide Run, Rotated;
  }

  lemma InvRefinesRedraw(l: Layout, world: World, at: Surroundings, t: Transfer)
    requires l.Valid() && Inv(l, world) && world.running
    requires world.reserve.buffer != [] ==> world.bumps - world.drawnAt < GENERATIONS
    requires Synced(l, world, at, t).1
    ensures SyncIsRedraw(l, world, at, t)
  {
    if world.reserve.buffer != [] {
      GenerationTellsCountsApart(world.drawnAt, world.bumps);
    }
  }

  /** The loop survives being given a new photo exactly when the photo fills the
      panel and the transfer succeeds. A photo that arrived as an encoded image is
      used at its own size, so one smaller than the panel ends the loop. */
  lemma LoopSurvivesExactly(l: Layout, world: World, image: RenderedImage, at: Surroundings, t: Transfer)
    requires l.Valid() && Inv(l, world) && world.running
    requires !AlreadyShowing(world.reserve.buffer, image) && world.bumps + 1 - world.drawnAt < GENERATIONS
    ensures Step(l, Mutate(world, ShowPhoto(image)), Sync(at, t)).running
       <==> |image.rgb565| >= l.w * l.h && t.drawn
  {
    BumpCounts(world.bumps);
    GenerationTellsCountsApart(world.drawnAt, world.bumps + 1);
  }

  lemma {:induction false} StoppedStays(l: Layout, before: seq<Event>, more: seq<Event>)
    requires l.Valid() && !Run(l, before).running
    ensures var stopped, after := Run(l, before), Run(l, before + more);
      !after.running && after.screen == stopped.screen && after.showing == stopped.showing
    decreases |more|
  {
    if more == [] {
      assert before + more == before;
    } else {
      var all := before + more;
      assert all[..|all| - 1] == before + more[..|more| - 1];
      StoppedStays(l, before, more[..|more| - 1]);
      hide Changed, Bumps, Synced;
    }
  }

  /** Once a reconciliation has failed nothing is drawn again, whatever happens:
      what the failure left on the panel stays there. */
  lemma NothingIsDrawnAfterAFailure(
      l: Layout, events: seq<Event>, at: Surroundings, t: Transfer, more: seq<Event>)
    requires l.Valid() && Run(l, events).running && !Synced(l, Run(l, events), at, t).1
    ensures var after := Run(l, events + [Sync(at, t)] + more);
      !after.running && after.screen == Synced(l, Run(l, events), at, t).0.screen
  {
    var failed := events + [Sync(at, t)];
    assert failed[..|failed| - 1] == events;
    StoppedStays(l, failed, more);
  }

  /** A photo on screen is redrawn only if the generation moved, so queueing
      spares and repeating the shown photo never touch the panel. */
  lemma SettledPanelIsLeftAlone(l: Layout, world: World, c: Change, at: Surroundings, at': Surroundings,
                                t: Transfer, t': Transfer)
    requires l.Valid() && Inv(l, world) && world.reserve.buffer != []
    requires Synced(l, world, at, t).1 && !Bumps(world.reserve, c)
    ensures var settled := Synced(l, world, at, t).0;
            Synced(l, Mutate(settled, c), at', t') == (Mutate(settled, c), true)
  {
    ChangesAreCounted(world.reserve, c);
  }

  function SetMany(world: World, image: RenderedImage, n: nat): World
    decreases n
  {
    if n == 0 then world else Mutate(SetMany(world, image, n - 1), SetPhoto(image))
  }

  lemma {:induction false} SetManyCounts(world: World, image: RenderedImage, n: nat)
    requires world.reserve.generation == world.bumps % GENERATIONS
    ensures SetMany(world, image, n).bumps == world.bumps + n
    ensures SetMany(world, image, n).reserve.generation == (world.bumps + n) % GENERATIONS
    ensures n > 0 ==> SetMany(world, image, n).reserve.buffer == [image]
    ensures SetMany(world, image, n).screen == world.screen
    ensures SetMany(world, image, n).showing == world.showing
  {
    if n > 0 {
      SetManyCounts(world, image, n - 1);
      BumpCounts(world.bumps + n - 1);
    }
  }

  lemma WholeTurns(m: nat, n: nat)
    ensures (m + n) % GENERATIONS == m % GENERATIONS <==> n % GENERATIONS == 0
  {
    var turns := n / GENERATIONS;
    assert (m + n % GENERATIONS + turns * GENERATIONS) % GENERATIONS == (m + n % GENERATIONS) % GENERATIONS;
  }

  /** The bound of 2^64 is exact: replacing the photo on screen `n` times
      leaves the old one up if and only if `n` is a multiple of it. */
  lemma WrapHidesTheChange(l: Layout, world: World, image: RenderedImage, n: nat, at: Surroundings, damage: seq<Pixel>)
    requires l.Valid() && Inv(l, world)
    requires world.showing == Photo(world.reserve.generation) && world.bumps == world.drawnAt
    requires n > 0 && |image.rgb565| >= l.w * l.h
    requires l.PhotoFrame(image.rgb565) != world.screen
    ensures var (after, ok) := Synced(l, SetMany(world, image, n), at, Transfer(true, damage));
            ok && (Some(after.screen) == Ideal(l, after.reserve, at) <==> n % GENERATIONS != 0)
  {
    hide SetMany, Rotated, Changed, Bumps;
    SetManyCounts(world, image, n);
    WholeTurns(world.bumps, n);
  }

  class FrameUi {
    const panel: Panel
    const layout: Layout
    var showing: Showing

    ghost predicate Valid()
      reads this, panel
    {
      panel.Valid() && layout.w == panel.w && layout.h == panel.h
    }

    constructor (panel: Panel, layout: Layout)
      requires panel.Valid() && layout.w == panel.w && layout.h == panel.h
      ensures Valid() && showing == Nothing && this.panel == panel && this.layout == layout
    {
      this.panel, this.layout, this.showing := panel, layout, Nothing;
    }

    /** Reconcile the panel with the photos in memory and the state around them. */
    method Sync(images: RenderedImageState, at: Surroundings, t: Transfer) returns (ok: bool)
      requires Valid() && |layout.art(WantedScreen(at))| == layout.w * layout.h
      modifies this, panel, panel.canvas, panel.rotated
      ensures Valid()
      ensures (showing, panel.screen, ok)
           == Reconciled(layout, images.State(), old(showing), old(panel.screen), at, t)
    {
      if |images.buffer| > 0 {
        var wanted := Photo(images.generation);
        if showing != wanted {
          var r := panel.Present(images.buffer[0].rgb565, t.drawn, t.damage);
          if r.Failure? {
            return false;
          }
          showing := wanted;
        }
        return true;
      }
      var wanted := WantedScreen(at);
      if showing == wanted {
        return true;
      }
      var r := panel.ShowScreen(layout.art(wanted), t.drawn, t.damage);
      if r.Failure? {
        return false;
      }
      showing := wanted;
      return true;
    }
  }
}
