// The card as the rest of the firmware uses it: whole photos, first in first
// out. `PhotoCache` is the object; `Queue` is what its directory means.
module PhotoQueue {
  import opened Wrappers
  import opened CardNames
  import opened CardCache
  import opened SortedSets

  predicate Whole(content: Content) {
    content.Readable? && |content.bytes| == PHOTO_BYTES
  }

  /** The whole photos among `names`, in that order. */
  function PhotosIn(names: seq<string>, dir: Directory): seq<seq<Byte>>
    requires forall name :: name in names ==> name in dir
  {
    if names == [] then []
    else if Whole(dir[names[0]]) then [dir[names[0]].bytes] + PhotosIn(names[1..], dir)
    else PhotosIn(names[1..], dir)
  }

  ghost function Queue(dir: Directory): seq<seq<Byte>> {
    PhotosIn(Entries(dir), dir)
  }

  /** Try each name in turn: keep the first whole photo, discard the rest on the way. */
  function TakeFrom(names: seq<string>, dir: Directory): (Option<seq<Byte>>, Directory) {
    if names == [] then (None, dir)
    else if names[0] in dir && Whole(dir[names[0]]) then (Some(dir[names[0]].bytes), dir - {names[0]})
    else TakeFrom(names[1..], dir - {names[0]})
  }

  ghost function Taken(dir: Directory): (Option<seq<Byte>>, Directory) {
    TakeFrom(Entries(dir), dir)
  }

  // How the file system answers one uninterrupted store.
  datatype Outcome = Landed | WriteFailed(written: nat) | RenameFailed

  function StoreEvents(id: string, bytes: seq<Byte>, refuses: bool, outcome: Outcome): seq<Event> {
    [Offer(id, bytes), CheckDuplicate, CheckRoom(refuses), ChooseOrder] +
    match outcome
    case Landed => [FinishPart, Rename]
    case WriteFailed(n) => [WritePart(n), GiveUp]
    case RenameFailed => [FinishPart, GiveUp]
  }

  /** A store that nothing interleaves with, told as the same steps. */
  ghost function Stored(
      dir: Directory, id: string, bytes: seq<Byte>, refuses: bool, outcome: Outcome): Directory
  {
    Run(Card(dir, Idle, 0), StoreEvents(id, bytes, refuses, outcome)).dir
  }

  ghost predicate Accepts(dir: Directory, id: string, bytes: seq<Byte>, refuses: bool) {
    && |bytes| == PHOTO_BYTES && UsableId(id)
    && !Contains(dir, id) && |Visible(dir)| < TARGET_PHOTOS && !refuses
  }

  // The same, told from the names on the card.

  /** Nothing on the card has that id, it holds fewer than 48 photos, and it does not refuse. */
  ghost predicate Wanted(dir: Directory, id: string, refuses: bool) {
    (forall name :: name in Visible(dir) ==> PhotoIdOf(name) != Some(id)) && |Visible(dir)| < 48 && !refuses
  }

  /** A photo the card can hold: the panel's size, under a usable name. */
  predicate Storable(id: string, bytes: seq<Byte>) {
    && |bytes| == 1280 * 800 * 2
    && id != "" && forall c :: c in id ==> 'a' <= c <= 'z' || 'A' <= c <= 'Z' || '0' <= c <= '9'
  }

  lemma AcceptsMeansWanted(dir: Directory, id: string, bytes: seq<Byte>, refuses: bool)
    ensures Accepts(dir, id, bytes, refuses) <==> Storable(id, bytes) && Wanted(dir, id, refuses)
    ensures Storable(id, bytes) <==> |bytes| == PHOTO_BYTES && UsableId(id)
  {
    hide PhotoIdOf, Extension, Visible;
  }

  ghost function FinalName(dir: Directory, id: string): string {
    PathFor(NextSequence(dir), id)
  }

  ghost function PartName(dir: Directory, id: string): string {
    TempFor(NextSequence(dir), id)
  }

  lemma {:induction false} RunAppend(c: Card, before: seq<Event>, e: Event)
    ensures Run(c, before + [e]) == Apply(Run(c, before), e)
  {
    assert (before + [e])[..|before|] == before;
  }

  lemma RunFour(c: Card, a: Event, b: Event, d: Event, e: Event)
    ensures Run(c, [a, b, d, e]) == Apply(Apply(Apply(Apply(c, a), b), d), e)
  {
    hide Apply;
    assert [a, b, d, e] == [] + [a] + [b] + [d] + [e];
    RunAppend(c, [], a);
    RunAppend(c, [] + [a], b);
    RunAppend(c, [] + [a] + [b], d);
    RunAppend(c, [] + [a] + [b] + [d], e);
  }

  lemma RunSix(c: Card, four: seq<Event>, f: Event, g: Event)
    ensures Run(c, four + [f, g]) == Apply(Apply(Run(c, four), f), g)
  {
    hide Apply;
    assert four + [f, g] == four + [f] + [g];
    RunAppend(c, four, f);
    RunAppend(c, four + [f], g);
  }

  /** Where the checks leave the writer: numbered, or done before it began. */
  lemma ChecksDecide(dir: Directory, id: string, bytes: seq<Byte>, refuses: bool)
    ensures Run(Card(dir, Idle, 0), [Offer(id, bytes), CheckDuplicate, CheckRoom(refuses), ChooseOrder])
         == Card(dir,
                 if Accepts(dir, id, bytes, refuses) then Writer.Numbered(id, bytes, NextSequence(dir)) else Idle,
                 0)
  {
    hide NextSequence, PhotoIdOf, Visible, UsableId, Contains;
    RunFour(Card(dir, Idle, 0), Offer(id, bytes), CheckDuplicate, CheckRoom(refuses), ChooseOrder);
  }

  /** What a store leaves behind, case by case. */
  lemma StoredIs(dir: Directory, id: string, bytes: seq<Byte>, refuses: bool, outcome: Outcome)
    ensures !Accepts(dir, id, bytes, refuses) ==> Stored(dir, id, bytes, refuses, outcome) == dir
    ensures Accepts(dir, id, bytes, refuses) ==>
      Stored(dir, id, bytes, refuses, outcome) ==
        match outcome
        case Landed => (dir - {PartName(dir, id)})[FinalName(dir, id) := Readable(bytes)]
        case WriteFailed(n) =>
          if n <= |bytes| then dir[PartName(dir, id) := Readable(bytes[..n])] else dir
        case RenameFailed => dir[PartName(dir, id) := Readable(bytes)]
  {
    hide PathFor, TempFor, NextSequence, Accepts;
    var four := [Offer(id, bytes), CheckDuplicate, CheckRoom(refuses), ChooseOrder];
    ChecksDecide(dir, id, bytes, refuses);
    match outcome {
      case Landed =>
        RunSix(Card(dir, Idle, 0), four, FinishPart, Rename);
        var part := PartName(dir, id);
        assert dir[part := Readable(bytes)] - {part} == dir - {part};
      case WriteFailed(n) => RunSix(Card(dir, Idle, 0), four, WritePart(n), GiveUp);
      case RenameFailed => RunSix(Card(dir, Idle, 0), four, FinishPart, GiveUp);
    }
  }

  // First in, first out.

  lemma {:induction false} PhotosInAppend(names: seq<string>, last: string, dir: Directory)
    requires forall name :: name in names ==> name in dir
    requires last in dir && Whole(dir[last])
    ensures PhotosIn(names + [last], dir) == PhotosIn(names, dir) + [dir[last].bytes]
  {
    if names == [] {
      assert names + [last] == [last];
      assert PhotosIn([last], dir) == [dir[last].bytes] + PhotosIn([], dir);
    } else {
      assert (names + [last])[1..] == names[1..] + [last];
      PhotosInAppend(names[1..], last, dir);
    }
  }

  lemma {:induction false} PhotosInAgree(names: seq<string>, dir: Directory, dir': Directory)
    requires forall name :: name in names ==> name in dir && name in dir' && dir[name] == dir'[name]
    ensures PhotosIn(names, dir) == PhotosIn(names, dir')
  {
    if names != [] {
      PhotosInAgree(names[1..], dir, dir');
    }
  }

  ghost predicate Listing(names: seq<string>, dir: Directory) {
    Lists(names, Visible(dir), NameLeq)
  }

  lemma EntriesUnique(names: seq<string>, dir: Directory)
    requires Listing(names, dir)
    ensures names == Entries(dir)
  {
    NamesAreTotallyOrdered(Visible(dir));
    ListingIsUnique(names, Visible(dir), NameLeq);
  }

  lemma RestIsListing(names: seq<string>, dir: Directory)
    requires Listing(names, dir) && names != []
    ensures names[0] in dir && Listing(names[1..], dir - {names[0]})
  {
    hide NameLeq, IsPhotoName;
    var rest, dir' := names[1..], dir - {names[0]};
    assert names[0] in names;
    forall name
      ensures name in rest <==> name in Visible(dir')
    {
      assert names == [names[0]] + rest;
      assert name in names <==> name in Visible(dir);
      if name in rest {
        var i :| 0 <= i < |rest| && rest[i] == name;
        assert names[i + 1] == name;
      }
    }
  }

  lemma {:induction false} TakeFromIsDequeue(names: seq<string>, dir: Directory)
    requires Listing(names, dir)
    ensures forall name :: name in names ==> name in dir
    ensures var (taken, after) := TakeFrom(names, dir); var photos := PhotosIn(names, dir);
      && Queue(after) == (if photos == [] then [] else photos[1..])
      && taken == (if photos == [] then None else Some(photos[0]))
      && (taken.None? ==> Visible(after) == {})
    decreases |names|
  {
    hide NameLeq, IsPhotoName, Whole;
    assert forall name :: name in names ==> name in Visible(dir);
    if names == [] {
      EntriesUnique([], dir);
      assert forall name :: name in Visible(dir) ==> name in names;
    } else {
      RestIsListing(names, dir);
      var rest, dir' := names[1..], dir - {names[0]};
      assert forall name :: name in rest ==> name in Visible(dir');
      PhotosInAgree(rest, dir, dir');
      if Whole(dir[names[0]]) {
        EntriesUnique(rest, dir');
      } else {
        TakeFromIsDequeue(rest, dir');
      }
    }
  }

  /** Taking removes the head of the queue, and only an empty queue gives nothing. */
  lemma TakenIsDequeue(dir: Directory)
    ensures Taken(dir).0 == (if Queue(dir) == [] then None else Some(Queue(dir)[0]))
    ensures Queue(Taken(dir).1) == (if Queue(dir) == [] then [] else Queue(dir)[1..])
    ensures Taken(dir).0.None? ==> Visible(Taken(dir).1) == {}
  {
    TakeFromIsDequeue(Entries(dir), dir);
  }

  /** The removals a take makes: the damaged photos it meets and the one it returns. */
  function Removals(names: seq<string>, dir: Directory): seq<Event> {
    if names == [] then []
    else if names[0] in dir && Whole(dir[names[0]]) then [Remove(names[0])]
    else [Remove(names[0])] + Removals(names[1..], dir - {names[0]})
  }

  lemma {:induction false} RunFirst(c: Card, e: Event, rest: seq<Event>)
    ensures Run(c, [e] + rest) == Run(Apply(c, e), rest)
    decreases |rest|
  {
    hide Apply;
    if rest == [] {
      RunAppend(c, [], e);
      assert [e] + rest == [] + [e];
    } else {
      assert ([e] + rest)[..|rest|] == [e] + rest[..|rest| - 1];
      RunFirst(c, e, rest[..|rest| - 1]);
    }
  }

  /** A take is a series of removals, so it may come between any two steps of a store. */
  lemma {:induction false} TakeIsRemovals(names: seq<string>, c: Card)
    requires forall name :: name in names ==> IsPhotoName(name)
    ensures Run(c, Removals(names, c.dir)) == c.(dir := TakeFrom(names, c.dir).1)
    decreases |names|
  {
    hide IsPhotoName, Whole;
    if names != [] {
      assert names[0] in names && forall name :: name in names[1..] ==> name in names;
      var next := c.(dir := c.dir - {names[0]});
      assert Apply(c, Remove(names[0])) == next;
      var rest := if names[0] in c.dir && Whole(c.dir[names[0]]) then [] else Removals(names[1..], next.dir);
      RunFirst(c, Remove(names[0]), rest);
      assert [Remove(names[0])] + [] == [Remove(names[0])];
      TakeIsRemovals(names[1..], next);
    }
  }

  /** Every visible name was written by this cache with an order number below `bound`. */
  ghost predicate InSequence(dir: Directory, bound: nat) {
    AllWellNamed(dir, bound) && bound <= FIRST_UNPADDED_ORDER
  }

  lemma NextIsBelow(dir: Directory, bound: nat)
    requires InSequence(dir, bound)
    ensures NextSequence(dir) <= bound
  {
    hide OrderOf, PhotoIdOf, PathFor, Extension;
    if NextSequence(dir) > 0 {
      var top := NextAfterIsTight(Entries(dir));
      OrdersAreRead(top, bound);
    }
  }

  lemma NewNameIsLast(dir: Directory, id: string, bound: nat, name: string)
    requires InSequence(dir, bound) && bound < FIRST_UNPADDED_ORDER && UsableId(id)
    requires name in Visible(dir)
    ensures NameBefore(name, FinalName(dir, id))
  {
    hide OrderOf, PhotoIdOf, PathFor, Extension, NameBefore;
    NextIsBelow(dir, bound);
    OrdersAreRead(name, bound);
    assert name in Entries(dir);
    NextAfterIsAbove(Entries(dir), name);
    PaddedOrderIsArrivalOrder(OrderOf(name).value, PhotoIdOf(name).value, NextSequence(dir), id);
  }

  lemma InSequenceGrows(dir: Directory, after: Directory, bound: nat, id: string)
    requires InSequence(dir, bound) && bound < FIRST_UNPADDED_ORDER && UsableId(id)
    requires Visible(after) == Visible(dir) + {FinalName(dir, id)}
    ensures InSequence(after, bound + 1)
  {
    hide PathFor, Extension, Visible;
    NextIsBelow(dir, bound);
    forall name | name in Visible(after)
      ensures WellNamed(name, bound + 1)
    {
      if name in Visible(dir) {
        assert WellNamed(name, bound);
      }
    }
  }

  lemma AppendedEntries(dir: Directory, after: Directory, last: string)
    requires Visible(after) == Visible(dir) + {last} && last !in Visible(dir)
    requires forall name :: name in Visible(dir) ==> NameBefore(name, last)
    ensures Entries(after) == Entries(dir) + [last]
  {
    AppendedListing(Entries(dir), Visible(dir), last);
    EntriesUnique(Entries(dir) + [last], after);
  }

  lemma AppendedListing(names: seq<string>, seen: set<string>, last: string)
    requires Lists(names, seen, NameLeq) && last !in seen
    requires forall name :: name in seen ==> NameBefore(name, last)
    ensures Lists(names + [last], seen + {last}, NameLeq)
  {
    hide NameBefore;
    var q := names + [last];
    forall i, j | 0 <= i < j < |q|
      ensures NameLeq(q[i], q[j]) && q[i] != q[j]
    {
      assert q[i] == names[i] && names[i] in names;
    }
  }

  lemma LandedAdds(dir: Directory, id: string, bytes: seq<Byte>, refuses: bool, bound: nat)
    requires InSequence(dir, bound) && bound < FIRST_UNPADDED_ORDER
    requires Accepts(dir, id, bytes, refuses)
    ensures var after, last := Stored(dir, id, bytes, refuses, Landed), FinalName(dir, id);
      && Visible(after) == Visible(dir) + {last} && last !in Visible(dir)
      && last in after && after[last] == Readable(bytes)
      && (forall name :: name in Visible(dir) ==> name in after && after[name] == dir[name])
    ensures UsableId(id) && |bytes| == PHOTO_BYTES
  {
    hide PathFor, TempFor, Extension, OrderOf, PhotoIdOf, NextSequence, Visible;
    NextIsBelow(dir, bound);
    StoredIs(dir, id, bytes, refuses, Landed);
    TempIsHidden(NextSequence(dir), id);
    NameRoundTrip(NextSequence(dir), id);
    MoveIntoPlace(dir, PartName(dir, id), FinalName(dir, id), Readable(bytes));
    NameOrderIsTotal(FinalName(dir, id), FinalName(dir, id));
    if FinalName(dir, id) in Visible(dir) {
      NewNameIsLast(dir, id, bound, FinalName(dir, id));
    }
  }

  lemma QueueGrows(dir: Directory, after: Directory, last: string, bytes: seq<Byte>)
    requires Entries(after) == Entries(dir) + [last]
    requires last in after && after[last] == Readable(bytes) && |bytes| == PHOTO_BYTES
    requires forall name :: name in Visible(dir) ==> name in after && after[name] == dir[name]
    ensures Queue(after) == Queue(dir) + [bytes]
  {
    hide NameLeq, IsPhotoName, InOrder;
    var names := Entries(dir);
    assert forall name :: name in names ==> name in Visible(dir);
    PhotosInAgree(names, dir, after);
    PhotosInAppend(names, last, after);
  }

  /** A stored photo joins the end of the queue. */
  lemma StoreIsEnqueue(dir: Directory, id: string, bytes: seq<Byte>, refuses: bool, bound: nat)
    requires InSequence(dir, bound) && bound < FIRST_UNPADDED_ORDER
    requires Accepts(dir, id, bytes, refuses)
    ensures var after := Stored(dir, id, bytes, refuses, Landed);
      Queue(after) == Queue(dir) + [bytes] && InSequence(after, bound + 1)
  {
    var after := Stored(dir, id, bytes, refuses, Landed);
    var last := FinalName(dir, id);
    hide *;
    LandedAdds(dir, id, bytes, refuses, bound);
    InSequenceGrows(dir, after, bound, id);
    forall name | name in Visible(dir)
      ensures NameBefore(name, last)
    {
      NewNameIsLast(dir, id, bound, name);
    }
    AppendedEntries(dir, after, last);
    QueueGrows(dir, after, last, bytes);
  }

  /** A photo that is wanted and lands joins the end of the queue. One that is not wanted
      is quietly left alone; one that cannot be stored is an error and leaves no trace. */
  ghost predicate Kept(before: Directory, after: Directory, ok: bool, id: string, bytes: seq<Byte>,
                       refuses: bool, outcome: Outcome)
  {
    if !Storable(id, bytes) then !ok && after == before
    else if !Wanted(before, id, refuses) then ok && after == before
    else
      && (ok <==> outcome.Landed?)
      && (ok ==> forall bound: nat :: InSequence(before, bound) && bound < FIRST_UNPADDED_ORDER ==>
            Queue(after) == Queue(before) + [bytes])
  }

  lemma StoredIsKept(dir: Directory, id: string, bytes: seq<Byte>, refuses: bool, outcome: Outcome)
    ensures var fails :=
        |bytes| != PHOTO_BYTES || !UsableId(id) || (Accepts(dir, id, bytes, refuses) && !outcome.Landed?);
      Kept(dir, Stored(dir, id, bytes, refuses, outcome), !fails, id, bytes, refuses, outcome)
  {
    AcceptsMeansWanted(dir, id, bytes, refuses);
    StoredIs(dir, id, bytes, refuses, outcome);
    hide UsableId, Accepts, Storable, Wanted, Stored, Queue, InSequence;
    if Accepts(dir, id, bytes, refuses) && outcome.Landed? {
      forall bound: nat | InSequence(dir, bound) && bound < FIRST_UNPADDED_ORDER
        ensures Queue(Stored(dir, id, bytes, refuses, Landed)) == Queue(dir) + [bytes]
      {
        StoreIsEnqueue(dir, id, bytes, refuses, bound);
      }
    }
  }

  class PhotoCache {
    var files: Directory

    constructor ()
      ensures files == map[]
    {
      files := map[];
    }

    /** Write one photo to a temporary name and rename it into place. */
    method Store(id: string, bytes: seq<Byte>, refuses: bool, outcome: Outcome)
      returns (r: Result<(), StoreError>)
      modifies this
      ensures files == Stored(old(files), id, bytes, refuses, outcome)
      ensures r == Failure(WrongSize) <==> |bytes| != PHOTO_BYTES
      ensures r == Failure(UnusableName) <==> |bytes| == PHOTO_BYTES && !UsableId(id)
      ensures r == Failure(CouldNotWrite) <==>
        Accepts(old(files), id, bytes, refuses) && outcome.WriteFailed?
      ensures r == Failure(CouldNotFinish) <==>
        Accepts(old(files), id, bytes, refuses) && outcome.RenameFailed?
      ensures r.Failure? <==>
        |bytes| != PHOTO_BYTES || !UsableId(id) || (Accepts(old(files), id, bytes, refuses) && !outcome.Landed?)
      ensures Kept(old(files), files, r.Success?, id, bytes, refuses, outcome)
    {
      StoredIsKept(files, id, bytes, refuses, outcome);
      hide PathFor, TempFor, NextSequence, Stored, UsableId, Contains, Visible, Kept;
      StoredIs(files, id, bytes, refuses, outcome);
      if |bytes| != PHOTO_BYTES {
        return Failure(WrongSize);
      }
      if !UsableId(id) {
        return Failure(UnusableName);
      }
      if Contains(files, id) || |Visible(files)| >= TARGET_PHOTOS || refuses {
        return Success(());
      }
      var order := NextSequence(files);
      var temp := TempFor(order, id);
      match outcome {
        case WriteFailed(written) =>
          if written <= |bytes| {
            files := files[temp := Readable(bytes[..written])];
          }
          return Failure(CouldNotWrite);
        case RenameFailed =>
          files := files[temp := Readable(bytes)];
          return Failure(CouldNotFinish);
        case Landed =>
          files := files[temp := Readable(bytes)];
          files := (files - {temp})[PathFor(order, id) := files[temp]];
          return Success(());
      }
    }

    /** Take the oldest whole photo, discarding damaged ones found before it. */
    method TakeOldest() returns (r: Option<seq<Byte>>)
      modifies this
      ensures (r, files) == Taken(old(files))
      ensures r == if Queue(old(files)) == [] then None else Some(Queue(old(files))[0])
      ensures Queue(files) == if Queue(old(files)) == [] then [] else Queue(old(files))[1..]
    {
      TakenIsDequeue(files);
      var names := Entries(files);
      for i := 0 to |names|
        invariant TakeFrom(names[i..], files) == Taken(old(files))
      {
        var name := names[i];
        assert names[i..][1..] == names[i + 1..];
        if name in files && Whole(files[name]) {
          r := Some(files[name].bytes);
          files := files - {name};
          return;
        }
        files := files - {name};
      }
      r := None;
    }

    /** Empty the cache, leaving anything that is not a cached photo alone. */
    method Clear()
      modifies this
      ensures Visible(files) == {} && Queue(files) == []
      ensures forall name :: name in files <==> name in old(files) && !IsPhotoName(name)
      ensures forall name :: name in files ==> files[name] == old(files)[name]
    {
      hide IsPhotoName, NameLeq, InOrder;
      var names := Entries(files);
      for i := 0 to |names|
        invariant forall name :: name in files <==> name in old(files) && name !in names[..i]
        invariant forall name :: name in files ==> files[name] == old(files)[name]
      {
        files := files - {names[i]};
        assert names[..i + 1] == names[..i] + [names[i]];
      }
      assert names[..|names|] == names;
      EntriesUnique([], files);
    }
  }
}
