// Topping up memory from the card is a check, a take and a push, and several
// threads do it at once. Each step is atomic; the three together are not. Other
// calls put photos into memory between them without looking how full it is.
module TopUpRaces {
  import opened Wrappers
  import CardNames
  import ImageBuffer
  import PhotoQueue
  import Playlist
  import RenderedImages

  // Photos matter here only as distinct things to lose or keep.
  type Photo = nat

  // A thread between calls, past the check, or holding a photo it took.
  datatype Stage = Away | Checked | Holding(photo: Photo)

  /** `gone` are the photos advanced past or cleared away. */
  datatype Shared = Shared(
    memory: seq<Photo>, card: seq<Photo>, threads: seq<Stage>, gone: multiset<Photo>)

  /** Every call by which a thread changes the photos. `Show` is for a photo that is not
      up already, `Fallback` the push of a spare that the card did not take. */
  datatype Event =
    | Check(thread: nat)
    | Take(thread: nat)
    | Push(thread: nat)
    | Advance
    | Clear
    | Show(photo: Photo)
    | Fallback(photo: Photo)
    | Store(photo: Photo)

  function MakeRoom(memory: seq<Photo>): seq<Photo> {
    if |memory| >= ImageBuffer.BUFFER_CAPACITY then memory[..|memory| - 1] else memory
  }

  function Apply(s: Shared, e: Event): Shared {
    match e
    case Check(t) =>
      if t < |s.threads| && s.threads[t].Away? && |s.memory| < Playlist.MEMORY_BUFFER_TARGET
      then s.(threads := s.threads[t := Checked]) else s
    case Take(t) =>
      if t < |s.threads| && s.threads[t].Checked? then
        if s.card == [] then s.(threads := s.threads[t := Away])
        else s.(card := s.card[1..], threads := s.threads[t := Holding(s.card[0])])
      else s
    case Push(t) =>
      if t < |s.threads| && s.threads[t].Holding?
      then s.(memory := MakeRoom(s.memory) + [s.threads[t].photo], threads := s.threads[t := Away])
      else s
    case Advance =>
      if |s.memory| >= 2
      then s.(memory := s.memory[1..], gone := s.gone + multiset{s.memory[0]})
      else s
    case Clear => s.(memory := [], gone := s.gone + multiset(s.memory))
    case Show(photo) => s.(memory := [photo] + MakeRoom(s.memory))
    case Fallback(photo) => s.(memory := MakeRoom(s.memory) + [photo])
    case Store(photo) => s.(card := s.card + [photo])
  }

  function Run(s: Shared, events: seq<Event>): Shared
    decreases |events|
  {
    if events == [] then s else Run(Apply(s, events[0]), events[1..])
  }

  // What there is, what arrives and what is dropped.

  function Carried(stage: Stage): multiset<Photo> {
    if stage.Holding? then multiset{stage.photo} else multiset{}
  }

  function Held(threads: seq<Stage>): multiset<Photo> {
    if threads == [] then multiset{} else Carried(threads[0]) + Held(threads[1..])
  }

  /** Every photo there is, wherever it is. */
  function Everything(s: Shared): multiset<Photo> {
    multiset(s.memory) + multiset(s.card) + Held(s.threads) + s.gone
  }

  function Arriving(e: Event): multiset<Photo> {
    if e.Show? || e.Fallback? || e.Store? then multiset{e.photo} else multiset{}
  }

  function Added(events: seq<Event>): multiset<Photo>
    decreases |events|
  {
    if events == [] then multiset{} else Arriving(events[0]) + Added(events[1..])
  }

  /** How many photos go to memory without a look at how full it is. */
  function Puts(events: seq<Event>): nat
    decreases |events|
  {
    if events == [] then 0
    else (if events[0].Show? || events[0].Fallback? then 1 else 0) + Puts(events[1..])
  }

  predicate Inserts(s: Shared, e: Event) {
    e.Show? || e.Fallback? || (e.Push? && e.thread < |s.threads| && s.threads[e.thread].Holding?)
  }

  /** The photo that a step pushes out. */
  function Dropped(s: Shared, e: Event): multiset<Photo> {
    if Inserts(s, e) && |s.memory| >= ImageBuffer.BUFFER_CAPACITY
    then multiset{s.memory[|s.memory| - 1]} else multiset{}
  }

  function AllDropped(s: Shared, events: seq<Event>): multiset<Photo>
    decreases |events|
  {
    if events == [] then multiset{} else Dropped(s, events[0]) + AllDropped(Apply(s, events[0]), events[1..])
  }

  function InFlight(threads: seq<Stage>): nat {
    if threads == [] then 0 else (if threads[0].Away? then 0 else 1) + InFlight(threads[1..])
  }

  /** What the balance is with something more on both sides. */
  lemma Balance(more: multiset<Photo>, a: multiset<Photo>, b: multiset<Photo>, c: multiset<Photo>, d: multiset<Photo>)
    requires a + b == c + d
    ensures (more + a) + b == (more + c) + d
  {
    assert (more + a) + b == more + (a + b);
  }

  lemma {:induction false} StageChange(threads: seq<Stage>, t: nat, stage: Stage)
    requires t < |threads|
    ensures Held(threads[t := stage]) + Carried(threads[t]) == Held(threads) + Carried(stage)
    ensures InFlight(threads[t := stage]) + (if threads[t].Away? then 0 else 1)
         == InFlight(threads) + (if stage.Away? then 0 else 1)
  {
    hide Carried;
    var changed := threads[t := stage];
    if t == 0 {
      assert changed[1..] == threads[1..];
    } else {
      assert changed[1..] == threads[1..][t - 1 := stage];
      StageChange(threads[1..], t - 1, stage);
      hide Held;
      Balance(Carried(threads[0]), Held(changed[1..]), Carried(threads[t]), Held(threads[1..]), Carried(stage));
    }
  }

  lemma {:induction false} InFlightIsBounded(threads: seq<Stage>)
    ensures InFlight(threads) <= |threads|
  {
    if threads != [] {
      InFlightIsBounded(threads[1..]);
    }
  }

  lemma {:induction false} SomebodyInFlight(threads: seq<Stage>, t: nat)
    requires t < |threads| && !threads[t].Away?
    ensures InFlight(threads) >= 1
  {
    if t > 0 {
      SomebodyInFlight(threads[1..], t - 1);
    }
  }

  lemma {:induction false} NobodyInFlight(threads: seq<Stage>)
    requires forall t :: 0 <= t < |threads| ==> threads[t].Away?
    ensures InFlight(threads) == 0
  {
    if threads != [] {
      NobodyInFlight(threads[1..]);
    }
  }

  lemma RoomIsMade(memory: seq<Photo>)
    ensures multiset(memory) == multiset(MakeRoom(memory)) +
      (if |memory| >= ImageBuffer.BUFFER_CAPACITY then multiset{memory[|memory| - 1]} else multiset{})
  {
    if |memory| >= ImageBuffer.BUFFER_CAPACITY {
      assert memory == MakeRoom(memory) + [memory[|memory| - 1]];
    }
  }

  lemma HeldAfter(threads: seq<Stage>, t: nat, stage: Stage)
    requires t < |threads| && !threads[t].Holding?
    ensures Held(threads[t := stage]) == Held(threads) + Carried(stage)
  {
    StageChange(threads, t, stage);
    hide Held, InFlight;
    assert Held(threads[t := stage]) + multiset{} == Held(threads[t := stage]);
  }

  lemma CheckAccounts(s: Shared, t: nat)
    requires t < |s.threads|
    ensures Everything(Apply(s, Check(t))) == Everything(s)
  {
    hide Held;
    if s.threads[t].Away? {
      HeldAfter(s.threads, t, Checked);
      assert Held(s.threads) + multiset{} == Held(s.threads);
    }
  }

  lemma TakeAccounts(s: Shared, t: nat)
    requires t < |s.threads|
    ensures Everything(Apply(s, Take(t))) == Everything(s)
  {
    hide Held, Everything;
    if s.threads[t].Checked? {
      if s.card == [] {
        NothingTaken(s, t);
      } else {
        FirstTaken(s, t);
      }
    }
  }

  lemma NothingTaken(s: Shared, t: nat)
    requires t < |s.threads| && s.threads[t].Checked?
    ensures Everything(s.(threads := s.threads[t := Away])) == Everything(s)
  {
    hide Held;
    HeldAfter(s.threads, t, Away);
    assert Held(s.threads) + multiset{} == Held(s.threads);
  }

  lemma FirstTaken(s: Shared, t: nat)
    requires t < |s.threads| && s.threads[t].Checked? && s.card != []
    ensures Everything(s.(card := s.card[1..], threads := s.threads[t := Holding(s.card[0])])) == Everything(s)
  {
    var first := s.card[0];
    HeldAfter(s.threads, t, Holding(first));
    FirstOf(s.card);
    hide Held;
    FromCard(multiset(s.memory), multiset{first}, multiset(s.card[1..]), Held(s.threads), s.gone);
  }

  lemma FirstOf(photos: seq<Photo>)
    requires photos != []
    ensures multiset(photos) == multiset{photos[0]} + multiset(photos[1..])
  {
    assert photos == [photos[0]] + photos[1..];
  }

  lemma FromCard(memory: multiset<Photo>, first: multiset<Photo>, card: multiset<Photo>, held: multiset<Photo>,
                 gone: multiset<Photo>)
    ensures memory + card + (held + first) + gone == memory + (first + card) + held + gone
  {
  }

  lemma PushAccounts(s: Shared, t: nat)
    requires t < |s.threads| && s.threads[t].Holding?
    ensures Everything(Apply(s, Push(t))) + Dropped(s, Push(t)) == Everything(s)
  {
    var photo := s.threads[t].photo;
    var without := s.(threads := s.threads[t := Away]);
    HandedOver(s, t);
    hide Held, Everything, MakeRoom;
    PutAccounts(without, Fallback(photo));
    assert Apply(s, Push(t)) == Apply(without, Fallback(photo));
  }

  lemma HandedOver(s: Shared, t: nat)
    requires t < |s.threads| && s.threads[t].Holding?
    ensures Everything(s.(threads := s.threads[t := Away])) + multiset{s.threads[t].photo} == Everything(s)
  {
    StageChange(s.threads, t, Away);
    hide Held;
    assert Held(s.threads) + multiset{} == Held(s.threads);
    LastOut(multiset(s.memory) + multiset(s.card), Held(s.threads[t := Away]), multiset{s.threads[t].photo}, s.gone);
  }

  lemma LastOut(rest: multiset<Photo>, held: multiset<Photo>, photo: multiset<Photo>, gone: multiset<Photo>)
    ensures rest + held + gone + photo == rest + (held + photo) + gone
  {
  }

  lemma IntoMemory(kept: multiset<Photo>, photo: multiset<Photo>, out: multiset<Photo>, rest: multiset<Photo>)
    ensures (kept + photo) + rest + out == (kept + out) + rest + photo
  {
  }

  lemma PutAccounts(s: Shared, e: Event)
    requires e.Show? || e.Fallback?
    ensures Everything(Apply(s, e)) + Dropped(s, e) == Everything(s) + Arriving(e)
  {
    RoomIsMade(s.memory);
    hide Held, MakeRoom;
    var kept := MakeRoom(s.memory);
    assert multiset([e.photo] + kept) == multiset(kept) + multiset{e.photo};
    assert multiset(kept + [e.photo]) == multiset(kept) + multiset{e.photo};
    IntoMemory(multiset(kept), multiset{e.photo}, Dropped(s, e), multiset(s.card) + Held(s.threads) + s.gone);
    Grouped(multiset(s.memory), multiset(s.card), Held(s.threads), s.gone);
    Grouped(multiset(kept) + multiset{e.photo}, multiset(s.card), Held(s.threads), s.gone);
  }

  lemma Grouped(a: multiset<Photo>, b: multiset<Photo>, c: multiset<Photo>, d: multiset<Photo>)
    ensures a + b + c + d == a + (b + c + d)
  {
  }

  /** Every step keeps account of every photo: what there was and what arrives is
      there afterwards, except the photo pushed out of a full memory. */
  lemma StepAccounts(s: Shared, e: Event)
    ensures Everything(Apply(s, e)) + Dropped(s, e) == Everything(s) + Arriving(e)
  {
    hide Held, Everything, MakeRoom;
    match e
    case Check(t) => if t < |s.threads| { CheckAccounts(s, t); }
    case Take(t) => if t < |s.threads| { TakeAccounts(s, t); }
    case Push(t) => if t < |s.threads| && s.threads[t].Holding? { PushAccounts(s, t); }
    case Advance => LeavingAccounts(s);
    case Clear => LeavingAccounts(s);
    case Show(_) => PutAccounts(s, e);
    case Fallback(_) => PutAccounts(s, e);
    case Store(photo) => StoreAccounts(s, photo);
  }

  lemma LeavingAccounts(s: Shared)
    ensures Everything(Apply(s, Advance)) == Everything(s) == Everything(Apply(s, Clear))
  {
    hide Held;
    if |s.memory| >= 2 {
      FirstOf(s.memory);
    }
  }

  lemma StoreAccounts(s: Shared, photo: Photo)
    ensures Everything(Apply(s, Store(photo))) == Everything(s) + multiset{photo}
  {
    hide Held;
    assert multiset(s.card + [photo]) == multiset(s.card) + multiset{photo};
  }

  /** So over any run, with any number of threads. */
  lemma {:induction false} RunAccounts(s: Shared, events: seq<Event>)
    ensures Everything(Run(s, events)) + AllDropped(s, events) == Everything(s) + Added(events)
    decreases |events|
  {
    hide Apply, Everything, Dropped, Arriving;
    if events != [] {
      var next := Apply(s, events[0]);
      StepAccounts(s, events[0]);
      RunAccounts(next, events[1..]);
      Chain(Everything(s), Arriving(events[0]), Everything(next), Dropped(s, events[0]),
        Added(events[1..]), Everything(Run(next, events[1..])), AllDropped(next, events[1..]));
    }
  }

  lemma Chain(first: multiset<Photo>, in1: multiset<Photo>, next: multiset<Photo>, out1: multiset<Photo>,
              in2: multiset<Photo>, last: multiset<Photo>, out2: multiset<Photo>)
    requires next + out1 == first + in1 && last + out2 == next + in2
    ensures last + (out1 + out2) == first + (in1 + in2)
  {
    assert last + (out1 + out2) == (last + out2) + out1;
    assert (next + in2) + out1 == (next + out1) + in2;
  }

  // When nothing is dropped.

  /** Room for every photo on its way to memory, and for `k` that come unannounced. */
  predicate RoomForAll(s: Shared, k: nat) {
    |s.memory| + InFlight(s.threads) + k <= ImageBuffer.BUFFER_CAPACITY
  }

  ghost predicate AtRest(s: Shared, m: nat, n: nat) {
    |s.memory| == m && |s.threads| == n && forall t :: 0 <= t < n ==> s.threads[t].Away?
  }

  predicate FewThreads(n: nat, k: nat) {
    n == 0 || Playlist.MEMORY_BUFFER_TARGET + n + k <= ImageBuffer.BUFFER_CAPACITY + 1
  }

  lemma StepKeepsRoom(s: Shared, e: Event, k: nat)
    requires FewThreads(|s.threads|, k) && RoomForAll(s, k + Puts([e]))
    ensures Dropped(s, e) == multiset{}
    ensures RoomForAll(Apply(s, e), k) && |Apply(s, e).threads| == |s.threads|
  {
    hide InFlight, Held;
    match e
    case Check(t) => if t < |s.threads| { CheckKeepsRoom(s, t, k); }
    case Take(t) => if t < |s.threads| { TakeKeepsRoom(s, t, k); }
    case Push(t) => if t < |s.threads| { PushKeepsRoom(s, t, k); }
    case _ =>
  }

  lemma CheckKeepsRoom(s: Shared, t: nat, k: nat)
    requires FewThreads(|s.threads|, k) && RoomForAll(s, k) && t < |s.threads|
    ensures RoomForAll(Apply(s, Check(t)), k)
  {
    StageChange(s.threads, t, Checked);
    InFlightIsBounded(s.threads[t := Checked]);
    hide Held, InFlight;
  }

  lemma TakeKeepsRoom(s: Shared, t: nat, k: nat)
    requires RoomForAll(s, k) && t < |s.threads|
    ensures RoomForAll(Apply(s, Take(t)), k)
  {
    StageChange(s.threads, t, if s.card == [] then Away else Holding(s.card[0]));
    hide Held, InFlight;
  }

  lemma PushKeepsRoom(s: Shared, t: nat, k: nat)
    requires RoomForAll(s, k) && t < |s.threads|
    ensures Dropped(s, Push(t)) == multiset{} && RoomForAll(Apply(s, Push(t)), k)
  {
    StageChange(s.threads, t, Away);
    if s.threads[t].Holding? {
      SomebodyInFlight(s.threads, t);
    }
    hide Held, InFlight;
  }

  lemma {:induction false} RunDropsNothing(s: Shared, events: seq<Event>)
    requires FewThreads(|s.threads|, Puts(events)) && RoomForAll(s, Puts(events))
    ensures AllDropped(s, events) == multiset{}
    decreases |events|
  {
    hide Apply, Dropped, RoomForAll;
    if events != [] {
      assert Puts(events) == Puts([events[0]]) + Puts(events[1..]);
      StepKeepsRoom(s, events[0], Puts(events[1..]));
      RunDropsNothing(Apply(s, events[0]), events[1..]);
    }
  }

  // When something is.

  lemma {:induction false} RunTogether(s: Shared, a: seq<Event>, b: seq<Event>)
    ensures Run(s, a + b) == Run(Run(s, a), b)
    ensures AllDropped(s, a + b) == AllDropped(s, a) + AllDropped(Run(s, a), b)
    ensures Puts(a + b) == Puts(a) + Puts(b)
    decreases |a|
  {
    hide Apply, Dropped;
    if a == [] {
      assert a + b == b;
    } else {
      assert (a + b)[1..] == a[1..] + b;
      RunTogether(Apply(s, a[0]), a[1..], b);
    }
  }

  lemma OneStep(s: Shared, e: Event, rest: seq<Event>)
    ensures Run(s, [e] + rest) == Run(Apply(s, e), rest)
    ensures AllDropped(s, [e] + rest) == Dropped(s, e) + AllDropped(Apply(s, e), rest)
    ensures Puts([e] + rest) == Puts([e]) + Puts(rest)
  {
    assert ([e] + rest)[1..] == rest;
  }

  /** The first `j` threads each take a photo while memory is low. */
  lemma {:induction false} TakeUp(s: Shared, j: nat) returns (events: seq<Event>)
    requires j <= |s.threads| && j <= |s.card| && |s.memory| < Playlist.MEMORY_BUFFER_TARGET
    requires forall t :: 0 <= t < |s.threads| ==> s.threads[t].Away?
    ensures Puts(events) == 0
    ensures var after := Run(s, events);
      && after.memory == s.memory && |after.threads| == |s.threads| && |after.card| == |s.card| - j
      && (forall t :: 0 <= t < |s.threads| ==> if t < j then after.threads[t].Holding? else after.threads[t].Away?)
    decreases j
  {
    events := [];
    if j > 0 {
      var before := TakeUp(s, j - 1);
      var held := Run(s, before);
      hide Run;
      var last := [Check(j - 1)] + [Take(j - 1)];
      OneStep(held, Check(j - 1), [Take(j - 1)]);
      RunOne(Apply(held, Check(j - 1)), Take(j - 1));
      RunTogether(s, before, last);
      events := before + last;
    }
  }

  lemma RunOne(s: Shared, e: Event)
    ensures Run(s, [e]) == Apply(s, e) && AllDropped(s, [e]) == Dropped(s, e)
  {
    OneStep(s, e, []);
  }

  /** More photos on their way than there is room for: one is pushed out. The shows
      come last, with no thread in flight. */
  lemma {:induction false} Overfill(s: Shared, j: nat, k: nat) returns (events: seq<Event>)
    requires j <= |s.threads| && forall t :: 0 <= t < j ==> s.threads[t].Holding?
    requires |s.memory| <= ImageBuffer.BUFFER_CAPACITY < |s.memory| + j + k
    ensures Puts(events) <= k && AllDropped(s, events) != multiset{}
    decreases j + k
  {
    var next := if j > 0 then Push(j - 1) else Show(0);
    if |s.memory| == ImageBuffer.BUFFER_CAPACITY {
      RunOne(s, next);
      events := [next];
    } else {
      var rest := Overfill(Apply(s, next), if j > 0 then j - 1 else 0, if j > 0 then k else k - 1);
      OneStep(s, next, rest);
      events := [next] + rest;
    }
  }

  /** Advancing, or topping up once, leads to a memory of one photo. */
  lemma {:induction false} DownToOne(s: Shared) returns (events: seq<Event>)
    requires s.threads != [] && s.card != [] && forall t :: 0 <= t < |s.threads| ==> s.threads[t].Away?
    ensures Puts(events) == 0
    ensures var after := Run(s, events);
      |after.memory| == 1 && after.threads == s.threads && |after.card| >= |s.card| - 1
    decreases |s.memory|
  {
    events := [];
    hide Puts, AllDropped;
    OnePut(Advance);
    if |s.memory| >= 2 {
      var rest := DownToOne(Apply(s, Advance));
      OneStep(s, Advance, rest);
      events := [Advance] + rest;
    } else if s.memory == [] {
      events := FirstPhoto(s);
    }
  }

  lemma OnePut(e: Event)
    ensures Puts([e]) == if e.Show? || e.Fallback? then 1 else 0
    ensures Puts([]) == 0
  {
    assert [e][1..] == [];
  }

  /** One thread tops up an empty memory. */
  lemma FirstPhoto(s: Shared) returns (events: seq<Event>)
    requires s.threads != [] && s.threads[0].Away? && s.card != [] && s.memory == []
    ensures Puts(events) == 0
    ensures Run(s, events) == s.(memory := [s.card[0]], card := s.card[1..])
  {
    hide Puts, AllDropped, Run;
    OnePut(Check(0));
    OnePut(Take(0));
    OnePut(Push(0));
    var checked := Apply(s, Check(0));
    assert checked == s.(threads := s.threads[0 := Checked]);
    var took := Apply(checked, Take(0));
    assert took == s.(threads := s.threads[0 := Holding(s.card[0])], card := s.card[1..]);
    assert took.threads[0 := Away] == s.threads;
    assert MakeRoom([]) + [s.card[0]] == [s.card[0]];
    assert Apply(took, Push(0)) == s.(memory := [s.card[0]], card := s.card[1..]);
    hide Apply;
    OneStep(s, Check(0), [Take(0)] + [Push(0)]);
    OneStep(checked, Take(0), [Push(0)]);
    RunOne(took, Push(0));
    events := [Check(0)] + ([Take(0)] + [Push(0)]);
  }

  /** Without the condition there is a run that loses a photo, from every state at rest
      whose card holds more photos than there are threads. */
  lemma LosingRun(s: Shared, m: nat, n: nat, k: nat) returns (events: seq<Event>)
    requires AtRest(s, m, n) && m <= ImageBuffer.BUFFER_CAPACITY && n < |s.card|
    requires m + k > ImageBuffer.BUFFER_CAPACITY || !FewThreads(n, k)
    ensures Puts(events) <= k && AllDropped(s, events) != multiset{}
    ensures Everything(Run(s, events)) != Everything(s) + Added(events)
  {
    hide Run, Everything, Added, AllDropped, Apply;
    if m + k > ImageBuffer.BUFFER_CAPACITY {
      events := Overfill(s, 0, k);
    } else {
      var first := DownToOne(s);
      var low := Run(s, first);
      var second := TakeUp(low, n);
      var third := Overfill(Run(low, second), n, k);
      RunTogether(low, second, third);
      RunTogether(s, first, second + third);
      events := first + (second + third);
    }
    RunAccounts(s, events);
    var photo :| photo in AllDropped(s, events);
    assert (Everything(Run(s, events)) + AllDropped(s, events))[photo] == (Everything(s) + Added(events))[photo];
  }

  ghost predicate NeverLoses(m: nat, n: nat, k: nat) {
    forall s: Shared, events: seq<Event> {:trigger Run(s, events)} ::
      AtRest(s, m, n) && Puts(events) <= k ==> Everything(Run(s, events)) == Everything(s) + Added(events)
  }

  lemma KeepsAll(s: Shared, events: seq<Event>, m: nat, n: nat, k: nat)
    requires AtRest(s, m, n) && Puts(events) <= k && m + k <= 3 && (n == 0 || n + k <= 2)
    ensures Everything(Run(s, events)) == Everything(s) + Added(events)
  {
    hide Run, Everything, Added, AllDropped, Puts, InFlight;
    NobodyInFlight(s.threads);
    RunDropsNothing(s, events);
    RunAccounts(s, events);
  }

  /** With `m` photos in memory and `n` threads that may top up, photos survive every
      interleaving with up to `k` shows and fallbacks exactly when there is room for
      those, and for a photo in the hands of every thread once memory is down to one.
      The firmware has four such threads. */
  lemma KeepsEveryPhotoExactly(m: nat, n: nat, k: nat)
    requires m <= ImageBuffer.BUFFER_CAPACITY
    ensures NeverLoses(m, n, k) <==> m + k <= 3 && (n == 0 || n + k <= 2)
  {
    hide Run, Everything, Added, Puts, AtRest;
    if m + k <= 3 && (n == 0 || n + k <= 2) {
      forall s: Shared, events: seq<Event> | AtRest(s, m, n) && Puts(events) <= k
        ensures Everything(Run(s, events)) == Everything(s) + Added(events)
      {
        hide *;
        KeepsAll(s, events, m, n, k);
      }
    } else {
      Loses(m, n, k);
    }
  }

  lemma Loses(m: nat, n: nat, k: nat)
    requires m <= ImageBuffer.BUFFER_CAPACITY && (m + k > 3 || (n > 0 && n + k > 2))
    ensures !NeverLoses(m, n, k)
  {
    hide Run, Everything, Added, AllDropped, Apply, Puts, Held, InFlight;
    var s := Shared(seq(m, _ => 0), seq(n + 1, _ => 0), seq(n, _ => Away), multiset{});
    var events := LosingRun(s, m, n, k);
    assert Puts(events) <= k;
  }

  /** Two threads that top up are safe only while nothing is shown; one can bear one
      photo shown at once, not two; four lose a photo by themselves. */
  lemma RacesInNumbers()
    ensures NeverLoses(1, 2, 0) && !NeverLoses(1, 2, 1)
    ensures NeverLoses(1, 1, 1) && !NeverLoses(1, 1, 2)
    ensures !NeverLoses(1, 4, 0)
  {
    hide NeverLoses;
    KeepsEveryPhotoExactly(1, 2, 0);
    KeepsEveryPhotoExactly(1, 2, 1);
    KeepsEveryPhotoExactly(1, 1, 1);
    KeepsEveryPhotoExactly(1, 1, 2);
    KeepsEveryPhotoExactly(1, 4, 0);
  }

  lemma RunThree(s: Shared, a: Event, b: Event, c: Event, rest: seq<Event>)
    ensures Run(s, [a, b, c] + rest) == Run(Apply(Apply(Apply(s, a), b), c), rest)
  {
    hide Apply;
    var all := [a, b, c] + rest;
    assert all[1..] == [b, c] + rest;
    assert all[1..][1..] == [c] + rest;
    assert all[1..][1..][1..] == rest;
    assert Run(s, all) == Run(Apply(s, a), all[1..]);
    assert Run(Apply(s, a), all[1..]) == Run(Apply(Apply(s, a), b), all[1..][1..]);
  }

  /** Even two threads can swap the order of the photos they carry. */
  lemma TwoThreadsCanSwap()
    ensures var s := Shared([0], [1, 2], [Away, Away], multiset{});
            Run(s, [Check(0), Check(1), Take(0)] + ([Take(1), Push(1), Push(0)] + [])).memory == [0, 2, 1]
  {
    var s := Shared([0], [1, 2], [Away, Away], multiset{});
    RunThree(s, Check(0), Check(1), Take(0), [Take(1), Push(1), Push(0)] + []);
    assert Apply(Apply(Apply(s, Check(0)), Check(1)), Take(0)) == Shared([0], [2], [Holding(1), Checked], multiset{});
    var t := Shared([0], [2], [Holding(1), Checked], multiset{});
    RunThree(t, Take(1), Push(1), Push(0), []);
    assert Apply(t, Take(1)) == Shared([0], [], [Holding(1), Holding(2)], multiset{});
    assert Apply(Apply(t, Take(1)), Push(1)) == Shared([0, 2], [], [Holding(1), Away], multiset{});
  }

  // What the steps stand for: the calls one thread makes while topping up.

  /** Which photo a picture is. */
  type Labelling = Playlist.Picture -> Photo

  function Labels(pictures: seq<Playlist.Picture>, idOf: Labelling): (photos: seq<Photo>)
    ensures |photos| == |pictures|
  {
    seq(|pictures|, i requires 0 <= i < |pictures| => idOf(pictures[i]))
  }

  ghost predicate StandsFor(s: Shared, t: Playlist.Tiers, idOf: Labelling) {
    && s.memory == Labels(Playlist.Pictures(t.reserve.buffer), idOf)
    && s.card == Labels(Playlist.Decoded(PhotoQueue.Queue(t.dir)), idOf)
  }

  /** The check passes exactly when the loop's guard does. */
  lemma CheckIsTheGuard(s: Shared, t: Playlist.Tiers, idOf: Labelling, i: nat)
    requires StandsFor(s, t, idOf) && i < |s.threads| && s.threads[i].Away?
    ensures StandsFor(Apply(s, Check(i)), t, idOf)
    ensures Apply(s, Check(i)).threads[i].Checked? <==> |t.reserve.buffer| < Playlist.MEMORY_BUFFER_TARGET
    ensures !Apply(s, Check(i)).threads[i].Checked? ==> Apply(s, Check(i)) == s
  {
    hide PhotoQueue.Queue;
  }

  /** A take is the card's own take. */
  lemma TakeIsTaken(s: Shared, t: Playlist.Tiers, idOf: Labelling, i: nat)
    requires StandsFor(s, t, idOf) && i < |s.threads| && s.threads[i].Checked?
    ensures var (taken, dir) := PhotoQueue.Taken(t.dir);
      var after := Apply(s, Take(i));
      && StandsFor(after, t.(dir := dir), idOf)
      && after.threads == s.threads[i :=
           if taken.None? then Away else Holding(idOf(RenderedImages.ReadPixels(taken.value)))]
      && after.gone == s.gone
  {
    PhotoQueue.TakenIsDequeue(t.dir);
    var queue := PhotoQueue.Queue(t.dir);
    var (taken, dir) := PhotoQueue.Taken(t.dir);
    hide PhotoQueue.Queue, PhotoQueue.Taken, RenderedImages.ReadPixels;
    if queue != [] {
      assert Playlist.Decoded(queue)[1..] == Playlist.Decoded(queue[1..]);
      assert Labels(Playlist.Decoded(queue), idOf)[1..] == Labels(Playlist.Decoded(queue[1..]), idOf);
    }
  }

  /** A push is the buffer's own push, full or not. */
  lemma PushIsPush(s: Shared, t: Playlist.Tiers, idOf: Labelling, i: nat, image: RenderedImages.RenderedImage)
    requires StandsFor(s, t, idOf) && i < |s.threads| && s.threads[i] == Holding(idOf(image.rgb565))
    ensures var after := Apply(s, Push(i));
      && StandsFor(after, t.(reserve := ImageBuffer.Push(t.reserve, image)), idOf)
      && after.threads == s.threads[i := Away] && after.gone == s.gone
  {
    hide PhotoQueue.Queue;
    var kept := ImageBuffer.MakeRoom(t.reserve.buffer);
    assert Labels(Playlist.Pictures(kept), idOf) == s.memory[..|kept|];
    assert Labels(Playlist.Pictures(kept + [image]), idOf)
        == Labels(Playlist.Pictures(kept), idOf) + [idOf(image.rgb565)];
  }

  /** An advance is the buffer's own. */
  lemma AdvanceIsAdvance(s: Shared, t: Playlist.Tiers, idOf: Labelling)
    requires StandsFor(s, t, idOf)
    ensures StandsFor(Apply(s, Advance), t.(reserve := ImageBuffer.Advance(t.reserve)), idOf)
  {
    hide PhotoQueue.Queue;
    var buffer := t.reserve.buffer;
    if |buffer| >= 2 {
      assert Labels(Playlist.Pictures(buffer[1..]), idOf) == s.memory[1..];
    }
  }

  /** So is a clearing of the buffer. */
  lemma ClearIsClear(s: Shared, t: Playlist.Tiers, idOf: Labelling)
    requires StandsFor(s, t, idOf)
    ensures StandsFor(Apply(s, Clear), t.(reserve := ImageBuffer.Clear(t.reserve)), idOf)
  {
    hide PhotoQueue.Queue;
  }

  /** A show is the buffer's own show of a photo that is not up already. */
  lemma ShowIsShow(s: Shared, t: Playlist.Tiers, idOf: Labelling, image: RenderedImages.RenderedImage)
    requires StandsFor(s, t, idOf) && !ImageBuffer.AlreadyShowing(t.reserve.buffer, image)
    ensures StandsFor(Apply(s, Show(idOf(image.rgb565))), t.(reserve := ImageBuffer.Show(t.reserve, image)), idOf)
  {
    hide PhotoQueue.Queue;
    var kept := ImageBuffer.MakeRoom(t.reserve.buffer);
    assert Labels(Playlist.Pictures(kept), idOf) == s.memory[..|kept|];
    assert Labels(Playlist.Pictures([image] + kept), idOf)
        == [idOf(image.rgb565)] + Labels(Playlist.Pictures(kept), idOf);
  }

  /** A fallback is the buffer's push, done without the loop's check. */
  lemma FallbackIsPush(s: Shared, t: Playlist.Tiers, idOf: Labelling, image: RenderedImages.RenderedImage)
    requires StandsFor(s, t, idOf)
    ensures StandsFor(Apply(s, Fallback(idOf(image.rgb565))), t.(reserve := ImageBuffer.Push(t.reserve, image)), idOf)
  {
    hide PhotoQueue.Queue;
    var kept := ImageBuffer.MakeRoom(t.reserve.buffer);
    assert Labels(Playlist.Pictures(kept), idOf) == s.memory[..|kept|];
    assert Labels(Playlist.Pictures(kept + [image]), idOf)
        == Labels(Playlist.Pictures(kept), idOf) + [idOf(image.rgb565)];
  }

  /** And a store is the card's own, of a photo that the card takes. */
  lemma StoreIsStored(s: Shared, t: Playlist.Tiers, idOf: Labelling, id: string, bytes: seq<Byte>,
                      refuses: bool, bound: nat)
    requires StandsFor(s, t, idOf) && PhotoQueue.Accepts(t.dir, id, bytes, refuses)
    requires PhotoQueue.InSequence(t.dir, bound) && bound < CardNames.FIRST_UNPADDED_ORDER
    ensures StandsFor(Apply(s, Store(idOf(RenderedImages.ReadPixels(bytes)))),
                      t.(dir := PhotoQueue.Stored(t.dir, id, bytes, refuses, PhotoQueue.Landed)), idOf)
  {
    hide PhotoQueue.Queue, PhotoQueue.Stored, PhotoQueue.InSequence, PhotoQueue.Accepts, RenderedImages.ReadPixels;
    Playlist.StoreExtendsTheCard(t.dir, id, bytes, refuses, bound);
    var decoded := Playlist.Decoded(PhotoQueue.Queue(t.dir));
    assert Labels(decoded + [RenderedImages.ReadPixels(bytes)], idOf)
        == Labels(decoded, idOf) + [idOf(RenderedImages.ReadPixels(bytes))];
  }

  /** A thread that nobody interrupts does with these steps exactly what topping up
      does: the races are between the steps of the real operation. */
  lemma {:induction false} LoneThreadTopsUp(s: Shared, t: Playlist.Tiers, idOf: Labelling, i: nat)
    returns (events: seq<Event>)
    requires StandsFor(s, t, idOf) && i < |s.threads| && s.threads[i].Away?
    ensures StandsFor(Run(s, events), Playlist.TopUp(t), idOf)
    ensures Run(s, events).threads == s.threads && Run(s, events).gone == s.gone
    decreases |PhotoQueue.Queue(t.dir)|
  {
    hide Apply, PhotoQueue.Queue, PhotoQueue.Taken, StandsFor, ImageBuffer.Push, RenderedImages.ReadPixels;
    CheckIsTheGuard(s, t, idOf, i);
    events := [];
    if |t.reserve.buffer| < Playlist.MEMORY_BUFFER_TARGET {
      var checked := Apply(s, Check(i));
      CheckedOnly(s, i);
      TakeIsTaken(checked, t, idOf, i);
      var took := Apply(checked, Take(i));
      var (taken, dir) := PhotoQueue.Taken(t.dir);
      PhotoQueue.TakenIsDequeue(t.dir);
      if taken.None? {
        events := [Check(i)] + ([Take(i)] + []);
        OneStep(s, Check(i), [Take(i)] + []);
        OneStep(checked, Take(i), []);
      } else {
        Playlist.QueuedAreWhole(t.dir);
        RenderedImages.PhotoBytesAreAPhoto(taken.value);
        var image := RenderedImages.FromRgb565Bytes(taken.value).value;
        PushIsPush(took, t.(dir := dir), idOf, i, image);
        var pushed := Apply(took, Push(i));
        var rest := LoneThreadTopsUp(pushed, Playlist.Tiers(ImageBuffer.Push(t.reserve, image), dir), idOf, i);
        events := [Check(i)] + ([Take(i)] + ([Push(i)] + rest));
        OneStep(s, Check(i), [Take(i)] + ([Push(i)] + rest));
        OneStep(checked, Take(i), [Push(i)] + rest);
        OneStep(took, Push(i), rest);
      }
    }
  }

  lemma CheckedOnly(s: Shared, i: nat)
    requires i < |s.threads| && s.threads[i].Away?
    ensures var checked := Apply(s, Check(i));
      checked.gone == s.gone && (checked.threads == s.threads || checked.threads == s.threads[i := Checked])
  {
  }
}
