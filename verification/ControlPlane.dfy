// The two threads that keep the frame in touch with its controller: one holds
// the connection open and carries messages, the other answers requests.
module ControlPlane {
  import opened Arithmetic
  import opened Wrappers
  import opened FrameCore

  const MAX_DURATION_MS: nat := 0x1_0000_0000_0000_0000 * 1000
  const INITIAL_DELAY_MS: nat := 1_000
  const MAX_DELAY_MS: nat := 30_000

  // Pauses between attempts.

  function Doubled(delay: nat): nat {
    Min(MAX_DURATION_MS, 2 * delay)
  }

  class ExponentialBackoff {
    const initialDelay: nat
    const maxDelay: nat
    var currentDelay: nat

    constructor (initialDelay: nat, maxDelay: nat)
      requires initialDelay <= maxDelay <= MAX_DURATION_MS
      ensures this.initialDelay == initialDelay && this.maxDelay == maxDelay && currentDelay == initialDelay
    {
      this.initialDelay, this.maxDelay, currentDelay := initialDelay, maxDelay, initialDelay;
    }

    method NextDelay() returns (delay: nat)
      modifies this
      ensures delay == old(currentDelay) && currentDelay == Min(maxDelay, Doubled(old(currentDelay)))
    {
      delay := currentDelay;
      currentDelay := Min(maxDelay, Doubled(currentDelay));
    }

    method Reset()
      modifies this
      ensures currentDelay == initialDelay
    {
      currentDelay := initialDelay;
    }
  }

  /** The pause before the next attempt after `k` pauses in a row. */
  function DelayAfter(initial: nat, max: nat, k: nat): nat {
    if k == 0 then initial else Min(max, Doubled(DelayAfter(initial, max, k - 1)))
  }

  /** The k-th pause in a row is the first one doubled k times, up to the longest. */
  lemma {:induction false} DelayDoublesUpToTheLongest(initial: nat, max: nat, k: nat)
    requires initial <= max <= MAX_DURATION_MS
    ensures DelayAfter(initial, max, k) == Min(max, initial * Pow2(k))
  {
    if k > 0 {
      DelayDoublesUpToTheLongest(initial, max, k - 1);
      assert initial * Pow2(k) == 2 * (initial * Pow2(k - 1));
    } else {
      assert initial * Pow2(0) == initial;
    }
  }

  // Messages.

  datatype DeviceCommand = Reboot | ReloadUi

  datatype Status =
    | RenderStarted(mediaUrl: string, correlationId: Option<string>)
    | RenderCompleted(mediaUrl: string, correlationId: Option<string>)
    | CommandAcknowledged(cmd: DeviceCommand, correlationId: Option<string>)
    | Health(bufferedPhotos: nat)
    | PhotoRequested(wanted: nat, cached: nat)
    | Error(message: string, correlationId: Option<string>)

  datatype ControlEvent =
    | Render(mediaUrl: string, correlationId: Option<string>, queue: bool)
    | Command(cmd: DeviceCommand, correlationId: Option<string>)
    | Registration(claimed: bool)

  datatype TransportCommand = SendStatus(status: Status) | Shutdown

  // The connection thread.

  datatype ReadOutcome = Payload(event: ControlEvent) | InvalidPayload | Silence | ReadFailed

  /** How the world answers one pass: what reaches the queue first, and how each
      call the pass might make turns out. */
  datatype Turn = Turn(
    arrivals: seq<TransportCommand>, connects: bool, sends: bool, heard: ReadOutcome,
    sendersGone: bool, renderGone: bool)

  datatype Mode = Connecting | Polling | Waiting | Stopped

  /** What goes over a connection: the frame introduces itself, then reports. */
  datatype Sent = Introduction | Report(status: Status)

  /** `wire` is what went over each connection so far; `streak` is how many pauses in
      a row there have been without a connection. */
  datatype Plane = Plane(
    mode: Mode, queue: seq<TransportCommand>, wire: seq<seq<Sent>>, lost: seq<Status>,
    forwarded: seq<ControlEvent>, phase: ControllerPhase, currentDelay: nat, delays: seq<nat>, streak: nat)

  const START := Plane(Connecting, [], [], [], [], NotStarted, INITIAL_DELAY_MS, [], 0)

  /** One more report over the connection that is open. */
  function Sending(wire: seq<seq<Sent>>, status: Status): seq<seq<Sent>> {
    if wire == [] then [[Report(status)]]
    else wire[..|wire| - 1] + [wire[|wire| - 1] + [Report(status)]]
  }

  function Pause(p: Plane): Plane {
    p.(mode := Waiting, phase := Searching, delays := p.delays + [p.currentDelay],
       currentDelay := Min(MAX_DELAY_MS, Doubled(p.currentDelay)), streak := p.streak + 1)
  }

  function Heard(p: Plane, t: Turn): Plane {
    match t.heard
    case Payload(Registration(claimed)) => p.(phase := if claimed then Connected else AwaitingConfiguration)
    case Payload(event) =>
      if t.renderGone then p.(phase := Connected, mode := Stopped)
      else p.(phase := Connected, forwarded := p.forwarded + [event])
    case InvalidPayload => p
    case Silence => p
    case ReadFailed => Pause(p)
  }

  function Polled(p: Plane, t: Turn): Plane {
    if p.queue == [] then (if t.sendersGone then p.(mode := Stopped) else Heard(p, t))
    else
      var rest := p.(queue := p.queue[1..]);
      match p.queue[0]
      case Shutdown => rest.(mode := Stopped)
      case SendStatus(status) =>
        if t.sends then Heard(rest.(wire := Sending(rest.wire, status)), t)
        else Pause(rest.(lost := rest.lost + [status]))
  }

  function Woken(p: Plane, t: Turn): Plane {
    if p.queue == [] then p.(mode := if t.sendersGone then Stopped else Connecting)
    else
      var rest := p.(queue := p.queue[1..]);
      match p.queue[0]
      case Shutdown => rest.(mode := Stopped)
      case SendStatus(status) => rest.(mode := Connecting, lost := rest.lost + [status])
  }

  function Step(before: Plane, t: Turn): Plane {
    var p := before.(queue := before.queue + t.arrivals);
    match before.mode
    case Connecting =>
      if t.connects then p.(mode := Polling, phase := AwaitingConfiguration, wire := p.wire + [[Introduction]],
                            currentDelay := INITIAL_DELAY_MS, streak := 0)
      else Pause(p)
    case Polling => Polled(p, t)
    case Waiting => Woken(p, t)
    case Stopped => before
  }

  function Run(turns: seq<Turn>): Plane
    decreases |turns|
  {
    if turns == [] then START else Step(Run(turns[..|turns| - 1]), turns[|turns| - 1])
  }

  lemma RunOneMore(turns: seq<Turn>, i: nat)
    requires i < |turns|
    ensures Run(turns[..i + 1]) == Step(Run(turns[..i]), turns[i])
  {
    assert turns[..i + 1][..i] == turns[..i];
  }

  /** The same, by what the loop is doing. */
  lemma OneMorePass(turns: seq<Turn>, i: nat)
    requires i < |turns|
    ensures var p, t, q := Run(turns[..i]), turns[i], Run(turns[..i + 1]);
      var p' := p.(queue := p.queue + t.arrivals);
      && (p.mode == Polling ==> q == Polled(p', t))
      && (p.mode == Waiting ==> q == Woken(p', t))
      && (p.mode == Connecting ==>
            q == if t.connects then p'.(mode := Polling, phase := AwaitingConfiguration,
                                        wire := p'.wire + [[Introduction]],
                                        currentDelay := INITIAL_DELAY_MS, streak := 0)
                 else Pause(p'))
  {
    hide Polled, Woken, Pause;
    RunOneMore(turns, i);
  }

  lemma NothingYet(turns: seq<Turn>)
    ensures Run(turns[..0]) == START
  {
  }

  lemma {:induction false} StoppedIsStopped(turns: seq<Turn>, i: nat)
    requires i <= |turns| && Run(turns[..i]).mode == Stopped
    ensures Run(turns) == Run(turns[..i])
    decreases |turns| - i
  {
    if i < |turns| {
      RunOneMore(turns, i);
      StoppedIsStopped(turns, i + 1);
    } else {
      assert turns[..i] == turns;
    }
  }

  /** The connection loop, given the world's answers in the order it asks for them. */
  method RunControlPlaneLoop(turns: seq<Turn>)
    returns (queue: seq<TransportCommand>, wire: seq<seq<Sent>>, lost: seq<Status>,
             forwarded: seq<ControlEvent>, phase: ControllerPhase, delays: seq<nat>)
    ensures var p := Run(turns);
      && queue == p.queue && wire == p.wire && lost == p.lost
      && forwarded == p.forwarded && phase == p.phase && delays == p.delays
  {
    hide Run, Step, Min, Doubled, Sending;
    queue, wire, lost, forwarded, phase, delays := [], [], [], [], NotStarted, [];
    var backoff := new ExponentialBackoff(INITIAL_DELAY_MS, MAX_DELAY_MS);
    ghost var streak: nat := 0;
    var i := 0;
    assert turns[..|turns|] == turns;
    NothingYet(turns);
    while i < |turns|
      invariant i <= |turns| && backoff.initialDelay == INITIAL_DELAY_MS && backoff.maxDelay == MAX_DELAY_MS
      invariant fresh(backoff)
      invariant Run(turns[..i])
        == Plane(Connecting, queue, wire, lost, forwarded, phase, backoff.currentDelay, delays, streak)
    {
      var t := turns[i];
      OneMorePass(turns, i);
      i := i + 1;
      queue := queue + t.arrivals;
      if t.connects {
        wire := wire + [[Introduction]];
        phase := AwaitingConfiguration;
        backoff.Reset();
        streak := 0;
        var polling := true;
        while polling && i < |turns|
          invariant i <= |turns| && backoff.initialDelay == INITIAL_DELAY_MS && backoff.maxDelay == MAX_DELAY_MS
          invariant
            var p := Plane(Polling, queue, wire, lost, forwarded, phase, backoff.currentDelay, delays, streak);
            Run(turns[..i]) == if polling then p else Pause(p)
          decreases |turns| - i, polling
        {
          var turn := turns[i];
          OneMorePass(turns, i);
          i := i + 1;
          queue := queue + turn.arrivals;
          if |queue| > 0 {
            var command := queue[0];
            queue := queue[1..];
            if command.Shutdown? {
              StoppedIsStopped(turns, i);
              return;
            }
            if !turn.sends {
              lost := lost + [command.status];
              polling := false;
              continue;
            }
            wire := Sending(wire, command.status);
          } else if turn.sendersGone {
            StoppedIsStopped(turns, i);
            return;
          }
          assert Run(turns[..i])
            == Heard(Plane(Polling, queue, wire, lost, forwarded, phase, backoff.currentDelay, delays, streak), turn);
          match turn.heard {
            case Payload(event) =>
              if event.Registration? {
                phase := if event.claimed then Connected else AwaitingConfiguration;
              } else {
                phase := Connected;
                if turn.renderGone {
                  StoppedIsStopped(turns, i);
                  return;
                }
                forwarded := forwarded + [event];
              }
            case InvalidPayload =>
            case Silence =>
            case ReadFailed =>
              phase := Searching;
              polling := false;
          }
        }
        if polling {
          return;
        }
      } else {
        phase := Searching;
      }
      var delay := backoff.NextDelay();
      phase := Searching;
      delays := delays + [delay];
      streak := streak + 1;
      assert Run(turns[..i])
        == Plane(Waiting, queue, wire, lost, forwarded, phase, backoff.currentDelay, delays, streak);
      if i == |turns| {
        return;
      }
      var turn := turns[i];
      OneMorePass(turns, i);
      i := i + 1;
      queue := queue + turn.arrivals;
      if |queue| > 0 {
        var command := queue[0];
        queue := queue[1..];
        if command.Shutdown? {
          StoppedIsStopped(turns, i);
          return;
        }
        lost := lost + [command.status];
      } else if turn.sendersGone {
        StoppedIsStopped(turns, i);
        return;
      }
    }
  }

  // What the connection thread keeps over every run.

  function Arrived(turns: seq<Turn>): seq<TransportCommand>
    decreases |turns|
  {
    if turns == [] then []
    else
      var before := turns[..|turns| - 1];
      Arrived(before) + (if Run(before).mode == Stopped then [] else turns[|turns| - 1].arrivals)
  }

  /** `picked` are the statuses found at increasing places among the first `end` commands. */
  ghost predicate PickedAt(picked: seq<Status>, all: seq<TransportCommand>, end: nat, places: seq<nat>) {
    && |places| == |picked| && end <= |all|
    && (forall k :: 0 <= k < |places| ==> places[k] < end && all[places[k]] == SendStatus(picked[k]))
    && (forall j, k :: 0 <= j < k < |places| ==> places[j] < places[k])
  }

  ghost predicate PickedInOrder(picked: seq<Status>, all: seq<TransportCommand>, end: nat) {
    exists places :: PickedAt(picked, all, end, places)
  }

  lemma PickMore(picked: seq<Status>, all: seq<TransportCommand>, end: nat, more: seq<TransportCommand>)
    requires PickedInOrder(picked, all, end)
    ensures PickedInOrder(picked, all + more, end)
    ensures end < |all| ==> PickedInOrder(picked, all + more, end + 1)
    ensures end < |all| && all[end].SendStatus? ==>
      PickedInOrder(picked + [all[end].status], all + more, end + 1)
  {
    var places :| PickedAt(picked, all, end, places);
    assert PickedAt(picked, all + more, end, places);
    if end < |all| {
      assert PickedAt(picked, all + more, end + 1, places);
      if all[end].SendStatus? {
        assert PickedAt(picked + [all[end].status], all + more, end + 1, places + [end]);
      }
    }
  }

  function Statuses(commands: seq<TransportCommand>): multiset<Status> {
    if commands == [] then multiset{}
    else (if commands[0].SendStatus? then multiset{commands[0].status} else multiset{}) + Statuses(commands[1..])
  }

  lemma {:induction false} StatusesAppend(a: seq<TransportCommand>, b: seq<TransportCommand>)
    ensures Statuses(a + b) == Statuses(a) + Statuses(b)
  {
    if a == [] {
      assert a + b == b;
    } else {
      assert (a + b)[1..] == a[1..] + b;
      StatusesAppend(a[1..], b);
    }
  }

  function ReportsOver(connection: seq<Sent>): seq<Status> {
    if connection == [] then []
    else (if connection[0].Report? then [connection[0].status] else []) + ReportsOver(connection[1..])
  }

  /** The statuses that went out, over all the connections. */
  function Reports(wire: seq<seq<Sent>>): seq<Status> {
    if wire == [] then [] else ReportsOver(wire[0]) + Reports(wire[1..])
  }

  lemma FirstSent(first: Sent, rest: seq<Sent>)
    ensures ReportsOver([first] + rest) == (if first.Report? then [first.status] else []) + ReportsOver(rest)
  {
    assert ([first] + rest)[1..] == rest;
  }

  lemma {:induction false} ReportsOverTogether(a: seq<Sent>, b: seq<Sent>)
    ensures ReportsOver(a + b) == ReportsOver(a) + ReportsOver(b)
  {
    if a == [] {
      assert a + b == b;
    } else {
      assert a + b == [a[0]] + (a[1..] + b) && a == [a[0]] + a[1..];
      FirstSent(a[0], a[1..] + b);
      FirstSent(a[0], a[1..]);
      hide ReportsOver;
      ReportsOverTogether(a[1..], b);
    }
  }

  lemma {:induction false} ReportsTogether(a: seq<seq<Sent>>, b: seq<seq<Sent>>)
    ensures Reports(a + b) == Reports(a) + Reports(b)
  {
    if a == [] {
      assert a + b == b;
    } else {
      assert (a + b)[1..] == a[1..] + b;
      ReportsTogether(a[1..], b);
    }
  }

  lemma OneConnection(connection: seq<Sent>)
    ensures Reports([connection]) == ReportsOver(connection)
  {
    assert [connection][1..] == [];
  }

  lemma ReportsOpen(wire: seq<seq<Sent>>)
    ensures Reports(wire + [[Introduction]]) == Reports(wire)
  {
    ReportsTogether(wire, [[Introduction]]);
    OneConnection([Introduction]);
    assert [Introduction][1..] == [];
  }

  lemma ReportsGrow(wire: seq<seq<Sent>>, status: Status)
    ensures Reports(Sending(wire, status)) == Reports(wire) + [status]
  {
    assert [Report(status)][1..] == [];
    if wire == [] {
      OneConnection([Report(status)]);
    } else {
      var before, last := wire[..|wire| - 1], wire[|wire| - 1];
      assert wire == before + [last];
      ReportsTogether(before, [last]);
      ReportsTogether(before, [last + [Report(status)]]);
      OneConnection(last);
      OneConnection(last + [Report(status)]);
      ReportsOverTogether(last, [Report(status)]);
    }
  }

  ghost predicate InOrder(p: Plane, all: seq<TransportCommand>) {
    && |p.queue| <= |all| && p.queue == all[|all| - |p.queue|..]
    && PickedInOrder(Reports(p.wire), all, |all| - |p.queue|)
    && PickedInOrder(p.lost, all, |all| - |p.queue|)
  }

  ghost predicate Accounted(p: Plane, all: seq<TransportCommand>) {
    multiset(Reports(p.wire)) + multiset(p.lost) + Statuses(p.queue) == Statuses(all)
  }

  /** At most two lost per pause, and only one once the pause has begun. */
  predicate FewLost(p: Plane) {
    |p.lost| + (if p.mode == Waiting then 1 else 0) <= 2 * |p.delays|
  }

  predicate PacedAndPhased(p: Plane) {
    && p.currentDelay == DelayAfter(INITIAL_DELAY_MS, MAX_DELAY_MS, p.streak)
    && (p.mode == Waiting ==> p.streak > 0 && p.delays != [])
    && (p.mode == Waiting ==>
          p.delays[|p.delays| - 1] == DelayAfter(INITIAL_DELAY_MS, MAX_DELAY_MS, p.streak - 1))
    && (p.mode == Polling ==> p.streak == 0)
    && (p.phase == Connected ==> p.mode == Polling || p.mode == Stopped)
  }

  lemma PauseKeepsPace(p: Plane)
    requires |p.lost| <= 2 * |p.delays| + 1
    requires p.currentDelay == DelayAfter(INITIAL_DELAY_MS, MAX_DELAY_MS, p.streak)
    ensures FewLost(Pause(p)) && PacedAndPhased(Pause(p))
    ensures Pause(p).wire == p.wire && Pause(p).lost == p.lost && Pause(p).queue == p.queue
  {
    hide Min, Doubled;
  }

  lemma HeardKeepsPace(p: Plane, t: Turn)
    requires p.mode == Polling && FewLost(p) && PacedAndPhased(p)
    ensures FewLost(Heard(p, t)) && PacedAndPhased(Heard(p, t))
    ensures Heard(p, t).wire == p.wire && Heard(p, t).lost == p.lost && Heard(p, t).queue == p.queue
  {
    PauseKeepsPace(p);
    hide Min, Doubled, Pause, DelayAfter;
  }

  lemma HeardLeavesTheQueue(p: Plane, t: Turn)
    ensures Heard(p, t).wire == p.wire && Heard(p, t).lost == p.lost && Heard(p, t).queue == p.queue
  {
    hide Min, Doubled;
  }

  lemma PolledKeepsPace(p: Plane, t: Turn)
    requires p.mode == Polling && FewLost(p) && PacedAndPhased(p)
    ensures FewLost(Polled(p, t)) && PacedAndPhased(Polled(p, t))
  {
    if p.queue == [] {
      HeardKeepsPace(p, t);
    } else if p.queue[0].SendStatus? {
      var rest, status := p.(queue := p.queue[1..]), p.queue[0].status;
      HeardKeepsPace(rest.(wire := Sending(rest.wire, status)), t);
      PauseKeepsPace(rest.(lost := rest.lost + [status]));
    }
    hide Min, Doubled, Pause, Heard, DelayAfter;
  }

  lemma StepKeepsPace(p: Plane, t: Turn)
    requires FewLost(p) && PacedAndPhased(p)
    ensures FewLost(Step(p, t)) && PacedAndPhased(Step(p, t))
  {
    var q := p.(queue := p.queue + t.arrivals);
    if p.mode == Polling {
      PolledKeepsPace(q, t);
    }
    if p.mode == Connecting {
      PauseKeepsPace(q);
    }
    hide Min, Doubled, Pause, Heard, Polled;
  }

  /** The queue's bookkeeping when one command is consumed, or none. */
  lemma QueueMoves(p: Plane, all: seq<TransportCommand>, more: seq<TransportCommand>)
    requires InOrder(p, all)
    ensures var queue, all' := p.queue + more, all + more;
      && queue == all'[|all'| - |queue|..]
      && PickedInOrder(Reports(p.wire), all', |all'| - |queue|)
      && PickedInOrder(p.lost, all', |all'| - |queue|)
      && (queue != [] ==>
            && queue[1..] == all'[|all'| - |queue[1..]|..]
            && PickedInOrder(Reports(p.wire), all', |all'| - |queue[1..]|)
            && PickedInOrder(p.lost, all', |all'| - |queue[1..]|)
            && (queue[0].SendStatus? ==>
                  && PickedInOrder(Reports(p.wire) + [queue[0].status], all', |all'| - |queue[1..]|)
                  && PickedInOrder(p.lost + [queue[0].status], all', |all'| - |queue[1..]|)))
  {
    hide PickedInOrder, Reports;
    var queue, all' := p.queue + more, all + more;
    var end := |all| - |p.queue|;
    PickMore(Reports(p.wire), all, end, more);
    PickMore(p.lost, all, end, more);
    PickMore(Reports(p.wire), all', end, []);
    PickMore(p.lost, all', end, []);
    assert all' + [] == all';
    assert forall k :: 0 <= k < |queue| ==> queue[k] == all'[end + k];
  }

  /** What a pass moves: nothing, an introduction, or one command from the queue. */
  lemma StepMoves(p: Plane, t: Turn)
    requires p.mode != Stopped
    ensures var (queue, s) := (p.queue + t.arrivals, Step(p, t));
      || (s.queue == queue && s.lost == p.lost
          && s.wire == if p.mode == Connecting && t.connects then p.wire + [[Introduction]] else p.wire)
      || (queue != [] && s.queue == queue[1..] && queue[0].Shutdown? && s.wire == p.wire && s.lost == p.lost)
      || (queue != [] && s.queue == queue[1..] && queue[0].SendStatus?
          && ((p.mode == Polling && s.wire == Sending(p.wire, queue[0].status) && s.lost == p.lost)
              || (s.wire == p.wire && s.lost == p.lost + [queue[0].status])))
    ensures Step(p, t).mode == Polling ==> p.mode == Polling || (p.mode == Connecting && t.connects)
  {
    hide Heard, Min, Doubled, Sending;
    var q := p.(queue := p.queue + t.arrivals);
    HeardLeavesTheQueue(q, t);
    if q.queue != [] && q.queue[0].SendStatus? {
      HeardLeavesTheQueue(q.(queue := q.queue[1..], wire := Sending(q.wire, q.queue[0].status)), t);
    }
  }

  lemma StepKeepsOrder(p: Plane, t: Turn, all: seq<TransportCommand>)
    requires InOrder(p, all) && p.mode != Stopped
    ensures InOrder(Step(p, t), all + t.arrivals)
  {
    hide Step, PickedInOrder, Reports, Sending;
    QueueMoves(p, all, t.arrivals);
    ReportsOpen(p.wire);
    var queue := p.queue + t.arrivals;
    StepMoves(p, t);
    if queue != [] && queue[0].SendStatus? {
      ReportsGrow(p.wire, queue[0].status);
    }
  }

  lemma StepKeepsAccounts(p: Plane, t: Turn, all: seq<TransportCommand>)
    requires Accounted(p, all) && p.mode != Stopped
    ensures Accounted(Step(p, t), all + t.arrivals)
  {
    hide Statuses, Heard, Min, Doubled, Reports, Sending;
    ReportsOpen(p.wire);
    StatusesAppend(p.queue, t.arrivals);
    StatusesAppend(all, t.arrivals);
    var q := p.(queue := p.queue + t.arrivals);
    assert Accounted(q, all + t.arrivals);
    HeardLeavesTheQueue(q, t);
    if q.queue != [] {
      OneOut(Reports(q.wire), q.lost, q.queue, all + t.arrivals);
      if q.queue[0].SendStatus? {
        var status := q.queue[0].status;
        ReportsGrow(q.wire, status);
        HeardLeavesTheQueue(q.(queue := q.queue[1..], wire := Sending(q.wire, status)), t);
      }
    }
  }

  /** The account when one command leaves the queue. */
  lemma OneOut(sent: seq<Status>, lost: seq<Status>, queue: seq<TransportCommand>, all: seq<TransportCommand>)
    requires queue != [] && multiset(sent) + multiset(lost) + Statuses(queue) == Statuses(all)
    ensures queue[0].Shutdown? ==> multiset(sent) + multiset(lost) + Statuses(queue[1..]) == Statuses(all)
    ensures queue[0].SendStatus? ==>
      && multiset(sent + [queue[0].status]) + multiset(lost) + Statuses(queue[1..]) == Statuses(all)
      && multiset(sent) + multiset(lost + [queue[0].status]) + Statuses(queue[1..]) == Statuses(all)
  {
    FirstStatus(queue);
    if queue[0].SendStatus? {
      assert multiset(sent + [queue[0].status]) == multiset(sent) + multiset{queue[0].status};
      assert multiset(lost + [queue[0].status]) == multiset(lost) + multiset{queue[0].status};
    }
  }

  lemma FirstStatus(queue: seq<TransportCommand>)
    requires queue != []
    ensures Statuses(queue)
         == (if queue[0].SendStatus? then multiset{queue[0].status} else multiset{}) + Statuses(queue[1..])
  {
  }

  lemma {:induction false} PaceIsKept(turns: seq<Turn>)
    ensures FewLost(Run(turns)) && PacedAndPhased(Run(turns))
    decreases |turns|
  {
    if turns != [] {
      hide Step, FewLost, PacedAndPhased;
      PaceIsKept(turns[..|turns| - 1]);
      StepKeepsPace(Run(turns[..|turns| - 1]), turns[|turns| - 1]);
    }
  }

  /** Over every run, what went out and what was lost are each in the order they
      were queued, no place in the queue twice, and no more than two statuses are
      lost for each pause. */
  lemma {:induction false} WireIsInOrder(turns: seq<Turn>)
    ensures InOrder(Run(turns), Arrived(turns))
    ensures |Run(turns).lost| <= 2 * |Run(turns).delays|
    decreases |turns|
  {
    PaceIsKept(turns);
    if turns == [] {
      assert PickedAt([], [], 0, []);
    } else {
      hide InOrder, Step;
      var before, t := turns[..|turns| - 1], turns[|turns| - 1];
      WireIsInOrder(before);
      if Run(before).mode == Stopped {
        StoppedStays(Run(before), t);
        assert Arrived(turns) == Arrived(before);
      } else {
        StepKeepsOrder(Run(before), t, Arrived(before));
      }
    }
  }

  predicate Pausing(p: Plane) {
    p.mode == Waiting
  }

  /** A status is lost only where a pause begins or ends. */
  lemma OnePassLoses(p: Plane, t: Turn)
    ensures var q := Step(p, t);
      var lost, paused := |q.lost| - |p.lost|, |q.delays| - |p.delays|;
      && 0 <= lost && 0 <= paused <= 1
      && (if Pausing(q) then paused == 1 else paused == 0)
      && lost <= (if Pausing(p) then 1 else 0) + (if Pausing(q) then 1 else 0)
  {
    hide Min, Doubled;
  }

  /** In any stretch of a run at most two statuses are lost for each pause that
      begins in it: one as the pause begins and one as it ends. A pause already
      under way at the start may still lose its second, and one still under way
      at the end has not yet. */
  lemma {:induction false} FewAreLostPerPause(turns: seq<Turn>, i: nat)
    requires i <= |turns|
    ensures var from, to := Run(turns[..i]), Run(turns);
      && |from.lost| <= |to.lost| && |from.delays| <= |to.delays|
      && |to.lost| - |from.lost| <= 2 * (|to.delays| - |from.delays|)
           + (if Pausing(from) then 1 else 0) - (if Pausing(to) then 1 else 0)
    decreases |turns|
  {
    if i == |turns| {
      assert turns[..i] == turns;
    } else {
      hide Step;
      var before := turns[..|turns| - 1];
      FewAreLostPerPause(before, i);
      assert before[..i] == turns[..i];
      OnePassLoses(Run(before), turns[|turns| - 1]);
    }
  }

  lemma StoppedStays(p: Plane, t: Turn)
    requires p.mode == Stopped
    ensures Step(p, t) == p
  {
  }

  /** Each queued status is sent once, lost once, or still queued: no copy is made. */
  lemma {:induction false} NothingIsSentTwice(turns: seq<Turn>)
    ensures Accounted(Run(turns), Arrived(turns))
    decreases |turns|
  {
    if turns != [] {
      hide Step, Statuses;
      var before, t := turns[..|turns| - 1], turns[|turns| - 1];
      NothingIsSentTwice(before);
      if Run(before).mode == Stopped {
        StoppedStays(Run(before), t);
        assert Arrived(turns) == Arrived(before);
      } else {
        StepKeepsAccounts(Run(before), t, Arrived(before));
      }
    }
  }

  /** Over a connection the introduction goes first, and only once. */
  ghost predicate Introduced(connection: seq<Sent>) {
    && connection != [] && connection[0].Introduction?
    && forall k :: 0 < k < |connection| ==> connection[k].Report?
  }

  ghost predicate AllIntroduced(p: Plane) {
    && (forall k :: 0 <= k < |p.wire| ==> Introduced(p.wire[k]))
    && (p.mode == Polling ==> p.wire != [])
  }

  lemma SendingKeepsIntroduced(wire: seq<seq<Sent>>, status: Status)
    requires wire != [] && forall k :: 0 <= k < |wire| ==> Introduced(wire[k])
    ensures Sending(wire, status) != []
    ensures forall k :: 0 <= k < |Sending(wire, status)| ==> Introduced(Sending(wire, status)[k])
  {
    var last := wire[|wire| - 1];
    assert Introduced(last);
    assert Introduced(last + [Report(status)]);
  }

  lemma StepKeepsIntroduced(p: Plane, t: Turn)
    requires AllIntroduced(p)
    ensures AllIntroduced(Step(p, t))
  {
    if p.mode != Stopped {
      StepMoves(p, t);
      hide Step, Sending;
      var queue := p.queue + t.arrivals;
      assert Introduced([Introduction]);
      if p.mode == Polling && queue != [] && queue[0].SendStatus? {
        SendingKeepsIntroduced(p.wire, queue[0].status);
      }
    }
  }

  /** Every connection begins with the frame's introduction, before anything that was
      queued, and has no other: one for each time a connection was made. */
  lemma {:induction false} IntroductionComesFirst(turns: seq<Turn>)
    ensures AllIntroduced(Run(turns)) && |Run(turns).wire| == ConnectionsMade(turns)
    decreases |turns|
  {
    if turns != [] {
      hide Step, AllIntroduced;
      var before, t := turns[..|turns| - 1], turns[|turns| - 1];
      IntroductionComesFirst(before);
      StepKeepsIntroduced(Run(before), t);
      StepConnects(Run(before), t);
    } else {
      assert AllIntroduced(START);
    }
  }

  function ConnectionsMade(turns: seq<Turn>): nat
    decreases |turns|
  {
    if turns == [] then 0
    else
      var before := turns[..|turns| - 1];
      ConnectionsMade(before) + (if Run(before).mode == Connecting && turns[|turns| - 1].connects then 1 else 0)
  }

  lemma StepConnects(p: Plane, t: Turn)
    requires AllIntroduced(p)
    ensures |Step(p, t).wire| == |p.wire| + (if p.mode == Connecting && t.connects then 1 else 0)
  {
    hide Min, Doubled, Introduced;
  }

  /** The frame counts as connected only while a connection is held: never while
      pausing or dialling, which is when the main loop rotates photos itself. */
  lemma ConnectedNeedsAConnection(turns: seq<Turn>)
    ensures Run(turns).phase == Connected ==> Run(turns).mode == Polling || Run(turns).mode == Stopped
  {
    PaceIsKept(turns);
  }

  /** A retry after `k` earlier ones in a row waits 1 s doubled k times, at most 30 s. */
  lemma RetryDelays(turns: seq<Turn>)
    ensures var p := Run(turns);
      p.mode == Waiting ==> (
        && p.streak > 0 && p.delays != []
        && p.delays[|p.delays| - 1] == Min(MAX_DELAY_MS, INITIAL_DELAY_MS * Pow2(p.streak - 1)))
  {
    PaceIsKept(turns);
    var p := Run(turns);
    if p.mode == Waiting {
      DelayDoublesUpToTheLongest(INITIAL_DELAY_MS, MAX_DELAY_MS, p.streak - 1);
    }
  }

  // What comes of each pass, told from the queue and the world's answers.

  /** A pass over an open connection gets as far as reading: there was nothing to send,
      with somebody left who might, or it was sent. */
  predicate Reads(p: Plane, t: Turn) {
    var queue := p.queue + t.arrivals;
    p.mode == Polling && if queue == [] then !t.sendersGone else queue[0].SendStatus? && t.sends
  }

  /** The request heard, if any: a registration is none. */
  function RequestHeard(p: Plane, t: Turn): seq<ControlEvent> {
    if Reads(p, t) && t.heard.Payload? && (t.heard.event.Render? || t.heard.event.Command?) then [t.heard.event] else []
  }

  predicate EndsHere(p: Plane, t: Turn) {
    var queue := p.queue + t.arrivals;
    || p.mode == Stopped
    || (p.mode != Connecting && if queue == [] then t.sendersGone else queue[0].Shutdown?)
    || (RequestHeard(p, t) != [] && t.renderGone)
  }

  function StatusSent(p: Plane, t: Turn): seq<Status> {
    var queue := p.queue + t.arrivals;
    if Reads(p, t) && queue != [] && queue[0].SendStatus? then [queue[0].status] else []
  }

  function StatusLost(p: Plane, t: Turn): seq<Status> {
    var queue := p.queue + t.arrivals;
    if (p.mode == Waiting || (p.mode == Polling && !t.sends)) && queue != [] && queue[0].SendStatus?
    then [queue[0].status] else []
  }

  /** The connection is lost, or could not be had: a send, a read or the dialling fails. */
  predicate Fails(p: Plane, t: Turn) {
    || (p.mode == Connecting && !t.connects)
    || (p.mode == Polling && StatusLost(p, t) != [])
    || (Reads(p, t) && t.heard.ReadFailed?)
  }

  /** Where one pass leads: it ends the loop, gives the connection up, holds one, or dials. */
  lemma OnePassLeads(p: Plane, t: Turn)
    ensures var q := Step(p, t);
      && (q.mode == Stopped <==> EndsHere(p, t))
      && (q.mode == Waiting <==> Fails(p, t))
      && (q.mode == Polling <==>
            (p.mode == Connecting && t.connects) || (Reads(p, t) && !Fails(p, t) && !EndsHere(p, t)))
      && (q.mode == Connecting <==> p.mode == Waiting && !EndsHere(p, t))
  {
    hide Min, Doubled, Sending;
  }

  /** What one pass says of the controller: nothing known without a connection, waiting for
      it on a new one, and then whatever was heard last that says anything. */
  lemma OnePassSays(p: Plane, t: Turn)
    ensures Step(p, t).phase ==
      if Fails(p, t) then Searching
      else if p.mode == Connecting then AwaitingConfiguration
      else if RequestHeard(p, t) != [] then Connected
      else if Reads(p, t) && t.heard.Payload? && t.heard.event.Registration?
      then if t.heard.event.claimed then Connected else AwaitingConfiguration
      else p.phase
  {
    hide Min, Doubled, Sending;
  }

  lemma OnePassMoves(p: Plane, t: Turn)
    requires p.mode == Polling ==> p.wire != []
    ensures var q := Step(p, t);
      && q.forwarded == p.forwarded + (if t.renderGone then [] else RequestHeard(p, t))
      && q.lost == p.lost + StatusLost(p, t)
      && Reports(q.wire) == Reports(p.wire) + StatusSent(p, t)
  {
    hide Min, Doubled, Sending, Reports;
    var queue := p.queue + t.arrivals;
    ReportsOpen(p.wire);
    if queue != [] && queue[0].SendStatus? {
      ReportsGrow(p.wire, queue[0].status);
    }
  }

  /** What `per` adds up to over the passes. */
  function Collected<T>(turns: seq<Turn>, per: (Plane, Turn) -> seq<T>): seq<T>
    decreases |turns|
  {
    if turns == [] then []
    else
      var before := turns[..|turns| - 1];
      Collected(before, per) + per(Run(before), turns[|turns| - 1])
  }

  function Forwards(): (Plane, Turn) -> seq<ControlEvent> {
    (p: Plane, t: Turn) => if t.renderGone then [] else RequestHeard(p, t)
  }

  /** Over every run: the render thread gets exactly the renders and commands heard while it
      lives, the wire carries exactly the statuses whose sending worked, and lost are exactly
      those whose sending failed and those that cut a pause short. */
  lemma {:induction false} NothingElseMoves(turns: seq<Turn>)
    ensures Run(turns).forwarded == Collected(turns, Forwards())
    ensures Reports(Run(turns).wire) == Collected(turns, StatusSent)
    ensures Run(turns).lost == Collected(turns, StatusLost)
    decreases |turns|
  {
    if turns != [] {
      hide Step, RequestHeard, StatusSent, StatusLost, AllIntroduced;
      var before, t := turns[..|turns| - 1], turns[|turns| - 1];
      NothingElseMoves(before);
      PollingHasAWire(before);
      OnePassMoves(Run(before), t);
    }
  }

  lemma PollingHasAWire(turns: seq<Turn>)
    ensures Run(turns).mode == Polling ==> Run(turns).wire != []
  {
    hide Run;
    IntroductionComesFirst(turns);
  }

  /** Something heard that makes the frame count as connected. */
  predicate Connects(p: Plane, t: Turn) {
    RequestHeard(p, t) != [] || (Reads(p, t) && t.heard == Payload(Registration(true)))
  }

  /** A pass that leaves a connected frame connected. */
  predicate StaysConnected(p: Plane, t: Turn) {
    !Fails(p, t) && !(Reads(p, t) && t.heard == Payload(Registration(false)))
  }

  predicate ConnectsAt(turns: seq<Turn>, k: nat)
    requires k < |turns|
  {
    Connects(Run(turns[..k]), turns[k])
  }

  predicate StaysAt(turns: seq<Turn>, k: nat)
    requires k < |turns|
  {
    StaysConnected(Run(turns[..k]), turns[k])
  }

  /** Among the first `n` passes a request or a claimed registration was heard, and after
      it neither did the connection fail nor was an unclaimed one heard. */
  ghost predicate HeardAndKept(turns: seq<Turn>, n: nat)
    requires n <= |turns|
  {
    exists k :: 0 <= k < n && ConnectsAt(turns, k) && KeptBetween(turns, k, n)
  }

  ghost predicate KeptBetween(turns: seq<Turn>, k: nat, n: nat)
    requires n <= |turns|
  {
    forall later :: k < later < n ==> StaysAt(turns, later)
  }

  lemma HeardOneMore(turns: seq<Turn>, n: nat)
    requires n < |turns|
    ensures HeardAndKept(turns, n + 1) <==> ConnectsAt(turns, n) || (HeardAndKept(turns, n) && StaysAt(turns, n))
  {
    hide ConnectsAt, StaysAt;
    if HeardAndKept(turns, n) && StaysAt(turns, n) {
      var k :| 0 <= k < n && ConnectsAt(turns, k) && KeptBetween(turns, k, n);
      assert KeptBetween(turns, k, n + 1);
    }
    if ConnectsAt(turns, n) {
      assert KeptBetween(turns, n, n + 1);
    } else if HeardAndKept(turns, n + 1) {
      var k :| 0 <= k < n + 1 && ConnectsAt(turns, k) && KeptBetween(turns, k, n + 1);
      assert KeptBetween(turns, k, n) && StaysAt(turns, n);
    }
  }

  lemma OneMorePassConnects(turns: seq<Turn>, n: nat)
    requires n < |turns|
    ensures Run(turns[..n + 1]).phase == Connected
       <==> ConnectsAt(turns, n) || (Run(turns[..n]).phase == Connected && StaysAt(turns, n))
  {
    RunOneMore(turns, n);
    ConnectedNeedsAConnection(turns[..n]);
    OnePassSays(Run(turns[..n]), turns[n]);
    hide Step, Run;
  }

  /** The frame counts as connected exactly when it has heard so, and not lost it since. */
  lemma {:induction false} ConnectedMeansHeard(turns: seq<Turn>, n: nat)
    requires n <= |turns|
    ensures Run(turns[..n]).phase == Connected <==> HeardAndKept(turns, n)
  {
    hide ConnectsAt, StaysAt;
    if n > 0 {
      ConnectedMeansHeard(turns, n - 1);
      OneMorePassConnects(turns, n - 1);
      HeardOneMore(turns, n - 1);
      hide Run, HeardAndKept;
    }
  }

  // The render thread.

  /** How carrying a request out went. */
  datatype Outcome = Done | Failed(reason: string)

  datatype Job = Job(event: ControlEvent, outcome: Outcome)

  function Replies(job: Job): seq<Status> {
    match job.event
    case Render(url, id, _) =>
      [RenderStarted(url, id)] +
      (match job.outcome
       case Done => [RenderCompleted(url, id)]
       case Failed(reason) => [Error("render failed: " + reason, id)])
    case Command(cmd, id) =>
      (match job.outcome
       case Done => [CommandAcknowledged(cmd, id)]
       case Failed(reason) => [Error("command failed: " + reason, id)])
    case Registration(_) => []
  }

  function AllReplies(jobs: seq<Job>): seq<Status> {
    if jobs == [] then [] else Replies(jobs[0]) + AllReplies(jobs[1..])
  }

  lemma NextReplies(jobs: seq<Job>, i: nat)
    requires i < |jobs|
    ensures AllReplies(jobs[i..]) == Replies(jobs[i]) + AllReplies(jobs[i + 1..])
  {
    assert jobs[i..][1..] == jobs[i + 1..];
  }

  method RunRenderControllerLoop(jobs: seq<Job>) returns (sent: seq<Status>)
    ensures sent == AllReplies(jobs)
  {
    hide AllReplies;
    sent := [];
    assert jobs[0..] == jobs;
    for i := 0 to |jobs|
      invariant sent + AllReplies(jobs[i..]) == AllReplies(jobs)
    {
      var job := jobs[i];
      NextReplies(jobs, i);
      ghost var before := sent;
      match job.event {
        case Render(url, id, _) =>
          sent := sent + [RenderStarted(url, id)];
          if job.outcome.Done? {
            sent := sent + [RenderCompleted(url, id)];
          } else {
            sent := sent + [Error("render failed: " + job.outcome.reason, id)];
          }
        case Command(cmd, id) =>
          if job.outcome.Done? {
            sent := sent + [CommandAcknowledged(cmd, id)];
          } else {
            sent := sent + [Error("command failed: " + job.outcome.reason, id)];
          }
        case Registration(_) =>
      }
      assert sent == before + Replies(job);
    }
    NoReplies(jobs);
  }

  lemma NoReplies(jobs: seq<Job>)
    ensures AllReplies(jobs[|jobs|..]) == []
  {
  }

  /** What a controller can tell from the replies alone. */
  datatype Answered =
    | RenderDone(mediaUrl: string, correlationId: Option<string>)
    | RenderFailed(mediaUrl: string, correlationId: Option<string>, message: string)
    | CommandDone(cmd: DeviceCommand, correlationId: Option<string>)
    | CommandFailed(correlationId: Option<string>, message: string)

  /** Read replies as answers: a start must be followed at once by its own ending. */
  function ReadAnswers(sent: seq<Status>): Option<seq<Answered>>
    decreases |sent|
  {
    if sent == [] then Some([])
    else match sent[0]
      case CommandAcknowledged(cmd, id) => Then(CommandDone(cmd, id), ReadAnswers(sent[1..]))
      case Error(message, id) => Then(CommandFailed(id, message), ReadAnswers(sent[1..]))
      case RenderStarted(url, id) =>
        if |sent| < 2 then None
        else if sent[1] == RenderCompleted(url, id) then Then(RenderDone(url, id), ReadAnswers(sent[2..]))
        else if sent[1].Error? && sent[1].correlationId == id
        then Then(RenderFailed(url, id, sent[1].message), ReadAnswers(sent[2..]))
        else None
      case _ => None
  }

  function Then(first: Answered, rest: Option<seq<Answered>>): Option<seq<Answered>> {
    match rest
    case None => None
    case Some(answers) => Some([first] + answers)
  }

  /** The answers that are owed, in order: one for each render and each command. */
  function Owed(jobs: seq<Job>): seq<Answered> {
    if jobs == [] then []
    else
      var rest := Owed(jobs[1..]);
      match jobs[0].event
      case Render(url, id, _) =>
        (match jobs[0].outcome
         case Done => [RenderDone(url, id)] + rest
         case Failed(reason) => [RenderFailed(url, id, "render failed: " + reason)] + rest)
      case Command(cmd, id) =>
        (match jobs[0].outcome
         case Done => [CommandDone(cmd, id)] + rest
         case Failed(reason) => [CommandFailed(id, "command failed: " + reason)] + rest)
      case Registration(_) => rest
  }

  /** Replies are never ambiguous or missing: read back, they are exactly the
      answers owed, each under its own request's correlation id. */
  lemma {:induction false} RepliesAnswerEveryRequest(jobs: seq<Job>)
    ensures ReadAnswers(AllReplies(jobs)) == Some(Owed(jobs))
  {
    if jobs != [] {
      var rest := AllReplies(jobs[1..]);
      RepliesAnswerEveryRequest(jobs[1..]);
      var all := Replies(jobs[0]) + rest;
      if jobs[0].event.Render? {
        assert all[2..] == rest;
      } else if jobs[0].event.Command? {
        assert all[1..] == rest;
      } else {
        assert all == rest;
      }
    }
  }
}
