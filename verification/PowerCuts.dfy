// The power may go at any moment. What was in memory is gone; the card holds
// what some uninterrupted store would have left, and the playlist goes on from there.
module PowerCuts {
  import opened Wrappers
  import opened CardNames
  import opened CardCache
  import opened PhotoQueue
  import opened RenderedImages
  import opened ImageBuffer
  import Playlist

  /** How far a store has come: some of its steps in any order, a power cut perhaps. */
  predicate OneStore(steps: seq<Event>) {
    forall e :: e in steps ==> !e.Offer? && !e.Remove?
  }

  ghost function Begun(dir: Directory, id: string, bytes: seq<Byte>): Card {
    Apply(Card(dir, Idle, 0), Offer(id, bytes))
  }

  /** The card as a power cut finds it after those steps of one store. */
  ghost function Reached(dir: Directory, id: string, bytes: seq<Byte>, steps: seq<Event>): Card {
    Run(Begun(dir, id, bytes), steps)
  }

  ghost predicate PartlyWritten(dir: Directory, after: Directory, id: string, bytes: seq<Byte>) {
    after == dir || exists n :: 0 <= n <= |bytes| && after == dir[PartName(dir, id) := Readable(bytes[..n])]
  }

  ghost function LandedIn(dir: Directory, id: string, bytes: seq<Byte>): Directory {
    (dir - {PartName(dir, id)})[FinalName(dir, id) := Readable(bytes)]
  }

  /** What is true of the card while one photo is being stored. */
  ghost predicate Storing(c: Card, dir: Directory, id: string, bytes: seq<Byte>) {
    && (c.writer.Idle? || (c.writer.id == id && c.writer.bytes == bytes && |bytes| == PHOTO_BYTES && UsableId(id)))
    && (c.writer.Accepted? ==> c.dir == dir)
    && (c.writer.NotHeld? ==> c.dir == dir && !Contains(dir, id))
    && (c.writer.HasRoom? ==> c.dir == dir && Accepts(dir, id, bytes, false))
    && (c.writer.Numbered? || c.writer.Written? ==>
          c.writer.order == NextSequence(dir) && Accepts(dir, id, bytes, false))
    && (c.writer.Numbered? ==> PartlyWritten(dir, c.dir, id, bytes))
    && (c.writer.Written? ==> c.dir == dir[PartName(dir, id) := Readable(bytes)])
    && (c.dir == dir || Accepts(dir, id, bytes, false))
    && (c.landed == 0 ==> PartlyWritten(dir, c.dir, id, bytes))
    && (c.landed > 0 ==> c.landed == 1 && c.writer.Idle? && Accepts(dir, id, bytes, false)
                         && c.dir == LandedIn(dir, id, bytes))
  }

  lemma Rewritten(dir: Directory, after: Directory, id: string, bytes: seq<Byte>, n: nat)
    requires PartlyWritten(dir, after, id, bytes) && n <= |bytes|
    ensures after[PartName(dir, id) := Readable(bytes[..n])] == dir[PartName(dir, id) := Readable(bytes[..n])]
    ensures PartlyWritten(dir, after[PartName(dir, id) := Readable(bytes[..n])], id, bytes)
  {
    hide TempFor, NextSequence;
    var part := PartName(dir, id);
    assert after[part := Readable(bytes[..n])] == dir[part := Readable(bytes[..n])];
  }

  lemma WritingKeepsStoring(c: Card, dir: Directory, id: string, bytes: seq<Byte>, e: Event)
    requires Storing(c, dir, id, bytes) && (e.WritePart? || e.FinishPart?)
    ensures Storing(Apply(c, e), dir, id, bytes)
  {
    hide TempFor, NextSequence, Accepts, Contains, UsableId, LandedIn, PartlyWritten;
    if c.writer.Numbered? {
      if e.FinishPart? {
        Rewritten(dir, c.dir, id, bytes, |bytes|);
        assert bytes[..|bytes|] == bytes;
      } else if e.soFar <= |bytes| {
        Rewritten(dir, c.dir, id, bytes, e.soFar);
      }
    }
  }

  lemma RenamingKeepsStoring(c: Card, dir: Directory, id: string, bytes: seq<Byte>)
    requires Storing(c, dir, id, bytes)
    ensures Storing(Apply(c, Rename), dir, id, bytes)
  {
    hide TempFor, PathFor, NextSequence, Accepts, Contains, UsableId, PartlyWritten;
    if c.writer.Written? {
      var part := PartName(dir, id);
      assert dir[part := Readable(bytes)] - {part} == dir - {part};
    }
  }

  lemma CheckingKeepsStoring(c: Card, dir: Directory, id: string, bytes: seq<Byte>, e: Event)
    requires Storing(c, dir, id, bytes)
    requires e.CheckDuplicate? || e.CheckRoom? || e.ChooseOrder? || e.GiveUp? || e.PowerCut?
    ensures Storing(Apply(c, e), dir, id, bytes)
  {
    hide NextSequence, Contains, UsableId, Visible, PartName, LandedIn;
  }

  lemma {:induction false} StepsKeepStoring(dir: Directory, id: string, bytes: seq<Byte>, steps: seq<Event>)
    requires OneStore(steps)
    ensures Storing(Reached(dir, id, bytes, steps), dir, id, bytes)
    decreases |steps|
  {
    if steps != [] {
      var before, last := steps[..|steps| - 1], steps[|steps| - 1];
      assert OneStore(before);
      StepsKeepStoring(dir, id, bytes, before);
      var c := Reached(dir, id, bytes, before);
      hide Apply, Storing;
      match last
      case WritePart(_) => WritingKeepsStoring(c, dir, id, bytes, last);
      case FinishPart => WritingKeepsStoring(c, dir, id, bytes, last);
      case Rename => RenamingKeepsStoring(c, dir, id, bytes);
      case _ => CheckingKeepsStoring(c, dir, id, bytes, last);
    }
  }

  /** Wherever the power goes during a store, the card is left as one of the outcomes of
      an uninterrupted store leaves it. */
  lemma CutIsAnOutcome(dir: Directory, id: string, bytes: seq<Byte>, steps: seq<Event>)
    returns (refuses: bool, outcome: Outcome)
    requires OneStore(steps)
    ensures var c := Reached(dir, id, bytes, steps);
      && c.dir == Stored(dir, id, bytes, refuses, outcome)
      && c.landed == if Accepts(dir, id, bytes, refuses) && outcome.Landed? then 1 else 0
  {
    StepsKeepStoring(dir, id, bytes, steps);
    var c := Reached(dir, id, bytes, steps);
    hide Run, Stored, PartName, FinalName, Contains, Visible, UsableId;
    if c.dir == dir && c.landed == 0 {
      refuses, outcome := true, Landed;
    } else if c.landed > 0 {
      refuses, outcome := false, Landed;
    } else {
      var n :| 0 <= n <= |bytes| && c.dir == dir[PartName(dir, id) := Readable(bytes[..n])];
      refuses, outcome := false, WriteFailed(n);
    }
    StoredIs(dir, id, bytes, refuses, outcome);
  }

  lemma {:induction false} RunOn(c: Card, first: seq<Event>, more: seq<Event>)
    ensures Run(c, first + more) == Run(Run(c, first), more)
    decreases |more|
  {
    hide Apply;
    if more == [] {
      assert first + more == first;
    } else {
      assert (first + more)[..|first + more| - 1] == first + more[..|more| - 1];
      RunOn(c, first, more[..|more| - 1]);
    }
  }

  lemma {:induction false} IdleWriterWritesNothing(c: Card, steps: seq<Event>)
    requires c.writer.Idle? && OneStore(steps)
    ensures Run(c, steps) == c
    decreases |steps|
  {
    if steps != [] {
      var before, last := steps[..|steps| - 1], steps[|steps| - 1];
      assert OneStore(before) && !last.Offer? && !last.Remove?;
      IdleWriterWritesNothing(c, before);
      IdleStep(c, last);
      hide Apply;
    }
  }

  lemma IdleStep(c: Card, e: Event)
    requires c.writer.Idle? && !e.Offer? && !e.Remove?
    ensures Apply(c, e) == c
  {
    hide Contains, Visible, NextSequence, TempFor, PathFor, IsPhotoName, UsableId;
  }

  /** After the cut nothing more of that store happens. */
  lemma CutEndsTheStore(dir: Directory, id: string, bytes: seq<Byte>, steps: seq<Event>, more: seq<Event>)
    requires OneStore(steps) && OneStore(more)
    ensures var cut := Reached(dir, id, bytes, steps + [PowerCut]);
      && cut.dir == Reached(dir, id, bytes, steps).dir && cut.landed == Reached(dir, id, bytes, steps).landed
      && Reached(dir, id, bytes, steps + [PowerCut] + more) == cut
  {
    hide Run, OneStore;
    RunAppend(Begun(dir, id, bytes), steps, PowerCut);
    RunOn(Begun(dir, id, bytes), steps + [PowerCut], more);
    IdleWriterWritesNothing(Reached(dir, id, bytes, steps + [PowerCut]), more);
  }

  /** So the queue is what it was, with the new photo at its end once that was renamed. */
  lemma CutKeepsTheQueue(dir: Directory, id: string, bytes: seq<Byte>, steps: seq<Event>, bound: nat)
    requires OneStore(steps) && InSequence(dir, bound) && bound < FIRST_UNPADDED_ORDER
    ensures var c := Reached(dir, id, bytes, steps);
      && InSequence(c.dir, bound + 1)
      && Playlist.Decoded(Queue(c.dir)) == Playlist.Decoded(Queue(dir))
           + (if c.landed == 1 then [ReadPixels(bytes)] else [])
  {
    hide Reached, Queue, InSequence, Stored, Accepts, UsableId, ReadPixels, Playlist.Decoded;
    var refuses, outcome := CutIsAnOutcome(dir, id, bytes, steps);
    if outcome.Landed? {
      Playlist.StoreExtendsTheCard(dir, id, bytes, refuses, bound);
    } else {
      Playlist.BoundGrows(dir, bound);
      if Accepts(dir, id, bytes, refuses) {
        Playlist.FailedStoreKeepsTheQueue(dir, id, bytes, refuses, outcome, bound);
        Playlist.BoundGrows(Stored(dir, id, bytes, refuses, outcome), bound);
      } else {
        StoredIs(dir, id, bytes, refuses, outcome);
      }
    }
  }

  // The playlist over a power cut.

  /** Memory is empty after a restart; the card is as it was. */
  function Restarted(dir: Directory): Playlist.Tiers {
    Playlist.Tiers(Reserve([], 0), dir)
  }

  lemma {:induction false} TopUpFits(t: Playlist.Tiers)
    requires |t.reserve.buffer| <= BUFFER_CAPACITY
    ensures |Playlist.TopUp(t).reserve.buffer| <= BUFFER_CAPACITY
    decreases |Queue(t.dir)|
  {
    hide Queue, Taken, FromRgb565Bytes;
    if |t.reserve.buffer| < Playlist.MEMORY_BUFFER_TARGET {
      TakenIsDequeue(t.dir);
      var (taken, dir) := Taken(t.dir);
      if taken.Some? {
        var image := FromRgb565Bytes(taken.value);
        TopUpFits(if image.Success? then Playlist.Tiers(Push(t.reserve, image.value), dir) else t.(dir := dir));
      }
    }
  }

  lemma AfterFits(h: Playlist.History, e: Playlist.Event)
    requires h.tiers.reserve.buffer != [] && |h.tiers.reserve.buffer| <= BUFFER_CAPACITY
    ensures |Playlist.After(h, e).tiers.reserve.buffer| <= BUFFER_CAPACITY
  {
    hide Playlist.TopUp, Stored, Accepts, UsableId, Playlist.PlaylistOf;
    var t := h.tiers;
    TopUpFits(t);
    match e
    case Rotate =>
      var ready := Playlist.TopUp(t);
      TopUpFits(ready.(reserve := Advance(ready.reserve)));
    case Spare(id, image, bytes, refuses) =>
      TopUpFits(Playlist.Tiers(t.reserve, Stored(t.dir, id, bytes, refuses, Landed)));
    case _ =>
  }

  lemma {:induction false} RunFits(h: Playlist.History, events: seq<Playlist.Event>)
    requires |h.tiers.reserve.buffer| <= BUFFER_CAPACITY
    ensures |Playlist.Run(h, events).tiers.reserve.buffer| <= BUFFER_CAPACITY
    decreases |events|
  {
    hide Playlist.After;
    if events != [] && h.tiers.reserve.buffer != [] {
      AfterFits(h, events[0]);
      RunFits(Playlist.After(h, events[0]), events[1..]);
    }
  }

  /** After a restart the playlist is what the card holds. Topping up puts it in step
      again, so everything proved of a run holds of the next one. */
  lemma RestartIsInStep(dir: Directory, bound: nat)
    requires InSequence(dir, bound)
    ensures Playlist.PlaylistOf(Restarted(dir)) == Playlist.Decoded(Queue(dir))
    ensures Queue(dir) != [] ==>
      Playlist.InStep(Playlist.History(Playlist.TopUp(Restarted(dir)), [], []), Playlist.Decoded(Queue(dir)), bound)
  {
    hide Queue, InSequence, Playlist.TopUp;
    var t := Restarted(dir);
    assert Playlist.PlaylistOf(t) == Playlist.Decoded(Queue(dir));
    Playlist.TopUpKeepsPlaylist(t);
    Playlist.TopUpKeepsNames(t, bound);
    Playlist.BufferLeadsPlaylist(Playlist.TopUp(t));
    hide Playlist.PlaylistOf;
    assert [] + Playlist.PlaylistOf(t) == Playlist.PlaylistOf(t) + [];
  }

  /** A power cut after any run, in the middle of storing yet another spare, loses the
      at most three pictures in memory and nothing else: those moved past, those in
      memory and those the restarted frame has are what was there at the start and
      what was added, in order, the spare included exactly if it was renamed in time. */
  lemma PowerCutLosesOnlyMemory(h: Playlist.History, events: seq<Playlist.Event>, start: seq<Playlist.Picture>,
                                bound: nat, id: string, bytes: seq<Byte>, steps: seq<Event>)
    requires Playlist.InStep(h, start, bound) && |h.tiers.reserve.buffer| <= BUFFER_CAPACITY
    requires bound + |events| < FIRST_UNPADDED_ORDER && OneStore(steps)
    ensures var end := Playlist.Run(h, events);
      var c := Reached(end.tiers.dir, id, bytes, steps);
      var left := Playlist.PlaylistOf(Restarted(c.dir));
      && |end.tiers.reserve.buffer| <= BUFFER_CAPACITY
      && end.gone + Playlist.Pictures(end.tiers.reserve.buffer) + left
           == start + end.added + (if c.landed == 1 then [ReadPixels(bytes)] else [])
      && (left != [] ==>
            Playlist.InStep(Playlist.History(Playlist.TopUp(Restarted(c.dir)), [], []), left, bound + |events| + 1))
  {
    hide Playlist.Run, Reached, Queue, Playlist.TopUp, Playlist.Pictures, Playlist.Decoded, InSequence, ReadPixels;
    Playlist.OnePlaylist(h, events, start, bound);
    RunFits(h, events);
    var end := Playlist.Run(h, events);
    var t := end.tiers;
    CutKeepsTheQueue(t.dir, id, bytes, steps, bound + |events|);
    var c := Reached(t.dir, id, bytes, steps);
    RestartIsInStep(c.dir, bound + |events| + 1);
    Regroup(end.gone, Playlist.Pictures(t.reserve.buffer), Playlist.Decoded(Queue(t.dir)),
      if c.landed == 1 then [ReadPixels(bytes)] else []);
  }

  lemma Regroup(gone: seq<Playlist.Picture>, memory: seq<Playlist.Picture>, card: seq<Playlist.Picture>,
                more: seq<Playlist.Picture>)
    ensures gone + memory + (card + more) == (gone + (memory + card)) + more
  {
  }

  /** Between taking a photo from the card and putting it in memory a cut loses that one too:
      at most two pictures in all, since a photo is taken only while memory holds fewer than two. */
  lemma CutWhileTaking(t: Playlist.Tiers)
    requires |t.reserve.buffer| < Playlist.MEMORY_BUFFER_TARGET && Queue(t.dir) != []
    ensures |t.reserve.buffer| + 1 <= |Playlist.PlaylistOf(t)| && |t.reserve.buffer| + 1 < BUFFER_CAPACITY
    ensures Playlist.PlaylistOf(Restarted(Taken(t.dir).1)) == Playlist.PlaylistOf(t)[|t.reserve.buffer| + 1..]
  {
    hide Queue, Taken;
    TakenIsDequeue(t.dir);
  }
}
