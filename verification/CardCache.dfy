// The photos kept on the SD card: one directory, written by one thread and
// emptied by several, that must survive a power cut between any two steps.
module CardCache {
  import opened Wrappers
  import opened CardNames
  import opened FiniteSets
  import opened SortedSets

  const PANEL_LOGICAL_WIDTH: nat := 1280
  const PANEL_LOGICAL_HEIGHT: nat := 800
  const PHOTO_BYTES: nat := PANEL_LOGICAL_WIDTH * PANEL_LOGICAL_HEIGHT * 2
  const TARGET_PHOTOS: nat := 48

  datatype Content = Readable(bytes: seq<Byte>) | Unreadable

  type Directory = map<string, Content>

  datatype StoreError = WrongSize | UnusableName | CouldNotWrite | CouldNotFinish

  predicate IsPhotoName(name: string) {
    Extension(name) == Some(PHOTO_EXTENSION)
  }

  function Visible(dir: Directory): set<string> {
    set name | name in dir && IsPhotoName(name)
  }

  predicate Contains(dir: Directory, id: string) {
    exists name :: name in Visible(dir) && PhotoIdOf(name) == Some(id)
  }

  lemma NamesAreTotallyOrdered(names: set<string>)
    ensures TotalOn(names, NameLeq)
  {
    forall a, b | a in names && b in names
      ensures NameLeq(a, b) || NameLeq(b, a)
      ensures NameLeq(a, b) && NameLeq(b, a) ==> a == b
    {
      NameOrderIsTotal(a, b);
    }
    forall a, b, c | a in names && b in names && c in names && NameLeq(a, b) && NameLeq(b, c)
      ensures NameLeq(a, c)
    {
      if a != b && b != c {
        NameOrderIsTransitive(a, b, c);
      }
    }
  }

  /** The cached photos' names, oldest first. */
  function Entries(dir: Directory): (names: seq<string>)
    ensures Lists(names, Visible(dir), NameLeq)
  {
    NamesAreTotallyOrdered(Visible(dir));
    InOrder(Visible(dir), NameLeq)
  }

  /** One more than the highest order number among `names`, or zero. */
  function NextAfter(names: seq<string>): nat {
    if names == [] then 0
    else
      var rest := NextAfter(names[1..]);
      var order := OrderOf(names[0]);
      if order.Some? && order.value >= rest then order.value + 1 else rest
  }

  lemma {:induction false} NextAfterIsAbove(names: seq<string>, name: string)
    requires name in names && OrderOf(name).Some?
    ensures OrderOf(name).value < NextAfter(names)
  {
    hide OrderOf;
    if name != names[0] {
      assert name in names[1..];
      NextAfterIsAbove(names[1..], name);
    }
  }

  lemma {:induction false} NextAfterIsTight(names: seq<string>) returns (name: string)
    requires NextAfter(names) > 0
    ensures name in names && OrderOf(name) == Some(NextAfter(names) - 1)
  {
    hide OrderOf;
    var order := OrderOf(names[0]);
    if order.Some? && order.value >= NextAfter(names[1..]) {
      name := names[0];
    } else {
      name := NextAfterIsTight(names[1..]);
    }
  }

  function NextSequence(dir: Directory): nat {
    NextAfter(Entries(dir))
  }

  // The steps of storing, and everything that can happen between them.

  datatype Writer =
    | Idle
    | Accepted(id: string, bytes: seq<Byte>)
    | NotHeld(id: string, bytes: seq<Byte>)
    | HasRoom(id: string, bytes: seq<Byte>)
    | Numbered(id: string, bytes: seq<Byte>, order: nat)
    | Written(id: string, bytes: seq<Byte>, order: nat)

  /** `landed` counts the photos renamed into place since the card was empty. */
  datatype Card = Card(dir: Directory, writer: Writer, landed: nat)

  datatype Event =
    | Offer(newId: string, pixels: seq<Byte>)
    | CheckDuplicate
    | CheckRoom(cardRefuses: bool)
    | ChooseOrder
    | WritePart(soFar: nat)
    | FinishPart
    | Rename
    | GiveUp
    | Remove(name: string)
    | PowerCut

  const EMPTY_CARD := Card(map[], Idle, 0)

  ghost function Apply(c: Card, e: Event): Card {
    match e
    case Offer(id, bytes) =>
      if c.writer.Idle? && |bytes| == PHOTO_BYTES && UsableId(id)
      then c.(writer := Accepted(id, bytes)) else c
    case CheckDuplicate =>
      if !c.writer.Accepted? then c
      else if Contains(c.dir, c.writer.id) then c.(writer := Idle)
      else c.(writer := NotHeld(c.writer.id, c.writer.bytes))
    case CheckRoom(refuses) =>
      if !c.writer.NotHeld? then c
      else if |Visible(c.dir)| >= TARGET_PHOTOS || refuses then c.(writer := Idle)
      else c.(writer := HasRoom(c.writer.id, c.writer.bytes))
    case ChooseOrder =>
      if !c.writer.HasRoom? then c
      else c.(writer := Numbered(c.writer.id, c.writer.bytes, NextSequence(c.dir)))
    case WritePart(n) =>
      if c.writer.Numbered? && n <= |c.writer.bytes|
      then c.(dir := c.dir[TempFor(c.writer.order, c.writer.id) := Readable(c.writer.bytes[..n])])
      else c
    case FinishPart =>
      if !c.writer.Numbered? then c
      else Card(c.dir[TempFor(c.writer.order, c.writer.id) := Readable(c.writer.bytes)],
                Written(c.writer.id, c.writer.bytes, c.writer.order), c.landed)
    case Rename =>
      if !c.writer.Written? then c
      else
        var temp := TempFor(c.writer.order, c.writer.id);
        if temp !in c.dir then c.(writer := Idle)
        else Card((c.dir - {temp})[PathFor(c.writer.order, c.writer.id) := c.dir[temp]], Idle, c.landed + 1)
    case GiveUp => c.(writer := Idle)
    case Remove(name) => if IsPhotoName(name) then c.(dir := c.dir - {name}) else c
    case PowerCut => c.(writer := Idle)
  }

  ghost function Run(c: Card, events: seq<Event>): Card
    decreases |events|
  {
    if events == [] then c
    else Apply(Run(c, events[..|events| - 1]), events[|events| - 1])
  }

  // What every step keeps.

  ghost predicate WellNamed(name: string, bound: nat) {
    exists order: nat, id ::
      order < bound && UsableId(id) && name == PathFor(order, id)
  }

  ghost predicate AllWellNamed(dir: Directory, bound: nat) {
    forall name :: name in Visible(dir) ==> WellNamed(name, bound)
  }

  ghost predicate DistinctPhotos(dir: Directory) {
    forall a, b :: a in Visible(dir) && b in Visible(dir) && a != b ==>
      PhotoIdOf(a) != PhotoIdOf(b) && OrderOf(a) != OrderOf(b)
  }

  ghost predicate WholePhotos(dir: Directory) {
    forall name :: name in Visible(dir) ==>
      dir[name].Readable? && |dir[name].bytes| == PHOTO_BYTES
  }

  ghost predicate Sound(dir: Directory, bound: nat) {
    && AllWellNamed(dir, bound)
    && DistinctPhotos(dir)
    && WholePhotos(dir)
    && |Visible(dir)| <= TARGET_PHOTOS
  }

  ghost predicate Fresh(dir: Directory, id: string) {
    forall name :: name in Visible(dir) ==> PhotoIdOf(name) != Some(id)
  }

  ghost predicate AboveAll(dir: Directory, order: nat) {
    forall name :: name in Visible(dir) ==> OrderOf(name).Some? && OrderOf(name).value < order
  }

  ghost predicate WriterSound(c: Card) {
    && (c.writer.Idle? || (UsableId(c.writer.id) && |c.writer.bytes| == PHOTO_BYTES))
    && (c.writer.NotHeld? || c.writer.HasRoom? || c.writer.Numbered? || c.writer.Written? ==>
          Fresh(c.dir, c.writer.id))
    && (c.writer.HasRoom? || c.writer.Numbered? || c.writer.Written? ==>
          |Visible(c.dir)| < TARGET_PHOTOS)
    && (c.writer.Numbered? || c.writer.Written? ==>
          c.writer.order <= c.landed && AboveAll(c.dir, c.writer.order))
    && (c.writer.Written? ==>
          TempFor(c.writer.order, c.writer.id) in c.dir
          && c.dir[TempFor(c.writer.order, c.writer.id)] == Readable(c.writer.bytes))
  }

  ghost predicate Inv(c: Card) {
    Sound(c.dir, c.landed) && WriterSound(c)
  }

  lemma OrdersAreRead(name: string, bound: nat)
    requires WellNamed(name, bound) && bound <= U64_LIMIT
    ensures OrderOf(name).Some? && OrderOf(name).value < bound
    ensures PhotoIdOf(name).Some? && UsableId(PhotoIdOf(name).value)
    ensures name == PathFor(OrderOf(name).value, PhotoIdOf(name).value)
    ensures IsPhotoName(name)
  {
    var order: nat, id :| order < bound && UsableId(id) && name == PathFor(order, id);
    NameRoundTrip(order, id);
  }

  lemma TempIsHidden(order: nat, id: string)
    requires UsableId(id) && order < U64_LIMIT
    ensures !IsPhotoName(TempFor(order, id))
  {
    NamesAreDistinct(order, id, order, id);
  }

  /** Any writing of the temporary file leaves what is visible as it was. */
  lemma TempWriteKeepsInv(c: Card, content: Content, writer: Writer)
    requires Inv(c) && c.writer.Numbered? && c.landed < U64_LIMIT
    ensures var dir := c.dir[TempFor(c.writer.order, c.writer.id) := content];
            Visible(dir) == Visible(c.dir) && Inv(Card(dir, c.writer, c.landed))
  {
    TempIsHidden(c.writer.order, c.writer.id);
    var dir := c.dir[TempFor(c.writer.order, c.writer.id) := content];
    assert Visible(dir) == Visible(c.dir);
  }

  lemma RemoveKeepsInv(c: Card, name: string)
    requires Inv(c) && IsPhotoName(name) && c.landed < U64_LIMIT
    ensures Inv(c.(dir := c.dir - {name}))
  {
    var dir := c.dir - {name};
    assert Visible(dir) <= Visible(c.dir);
    SubsetSize(Visible(dir), Visible(c.dir));
    if c.writer.Written? {
      TempIsHidden(c.writer.order, c.writer.id);
    }
  }

  lemma NextSequenceIsAboveAll(c: Card)
    requires Inv(c) && c.landed < U64_LIMIT
    ensures AboveAll(c.dir, NextSequence(c.dir)) && NextSequence(c.dir) <= c.landed
  {
    hide OrderOf, PhotoIdOf, PathFor, Extension;
    var names := Entries(c.dir);
    forall name | name in Visible(c.dir)
      ensures OrderOf(name).Some? && OrderOf(name).value < NextSequence(c.dir)
    {
      OrdersAreRead(name, c.landed);
      assert name in names;
      NextAfterIsAbove(names, name);
    }
    if NextSequence(c.dir) > 0 {
      var top := NextAfterIsTight(names);
      OrdersAreRead(top, c.landed);
    }
  }

  /** Moving a hidden file into place adds exactly one visible name. */
  lemma MoveIntoPlace(dir: Directory, temp: string, new': string, content: Content)
    requires !IsPhotoName(temp) && IsPhotoName(new')
    ensures Visible((dir - {temp})[new' := content]) == Visible(dir) + {new'}
    ensures forall name :: name in Visible(dir) && name != new' ==>
      name in (dir - {temp})[new' := content] && (dir - {temp})[new' := content][name] == dir[name]
  {
    hide Extension, IsPhotoName;
    var after := (dir - {temp})[new' := content];
    forall name
      ensures name in Visible(after) <==> name in Visible(dir) + {new'}
    {
    }
  }

  lemma RenameSees(c: Card, new': string)
    requires Inv(c) && c.writer.Written? && c.landed < U64_LIMIT
    requires new' == PathFor(c.writer.order, c.writer.id)
    ensures Visible(Apply(c, Rename).dir) == Visible(c.dir) + {new'}
    ensures new' !in Visible(c.dir)
    ensures OrderOf(new') == Some(c.writer.order) && PhotoIdOf(new') == Some(c.writer.id)
    ensures Apply(c, Rename).dir[new'] == Readable(c.writer.bytes)
    ensures forall name :: name in Visible(c.dir) && name != new' ==>
      Apply(c, Rename).dir[name] == c.dir[name]
  {
    hide OrderOf, PhotoIdOf, PathFor, Extension, TempFor, Visible;
    TempIsHidden(c.writer.order, c.writer.id);
    NameRoundTrip(c.writer.order, c.writer.id);
    MoveIntoPlace(c.dir, TempFor(c.writer.order, c.writer.id), new', Readable(c.writer.bytes));
  }

  lemma RenameKeepsInv(c: Card)
    requires Inv(c) && c.writer.Written? && c.landed < U64_LIMIT
    ensures Inv(Apply(c, Rename))
  {
    hide OrderOf, PhotoIdOf, PathFor, Extension, TempFor, Visible;
    var new' := PathFor(c.writer.order, c.writer.id);
    RenameSees(c, new');
    AdditionKeepsSound(c.dir, Apply(c, Rename).dir, new', c.writer.order, c.writer.id, c.landed);
  }

  /** A whole photo with a new id and a higher order number may be added. */
  lemma AdditionKeepsSound(
      dir: Directory, after: Directory, new': string, order: nat, id: string, bound: nat)
    requires Sound(dir, bound) && |Visible(dir)| < TARGET_PHOTOS
    requires Fresh(dir, id) && AboveAll(dir, order) && order <= bound && UsableId(id)
    requires new' == PathFor(order, id) && OrderOf(new') == Some(order) && PhotoIdOf(new') == Some(id)
    requires Visible(after) == Visible(dir) + {new'}
    requires after[new'].Readable? && |after[new'].bytes| == PHOTO_BYTES
    requires forall name :: name in Visible(dir) && name != new' ==> after[name] == dir[name]
    ensures Sound(after, bound + 1)
  {
    AdditionIsWellNamed(dir, after, new', order, id, bound);
    AdditionIsDistinct(dir, after, new', order, id);
    hide *;
    AdditionIsWhole(dir, after, new');
    SoundParts(after, bound + 1);
  }

  lemma SoundParts(dir: Directory, bound: nat)
    requires AllWellNamed(dir, bound) && DistinctPhotos(dir) && WholePhotos(dir)
    requires |Visible(dir)| <= TARGET_PHOTOS
    ensures Sound(dir, bound)
  {
  }

  lemma AdditionIsWellNamed(
      dir: Directory, after: Directory, new': string, order: nat, id: string, bound: nat)
    requires AllWellNamed(dir, bound) && order <= bound && UsableId(id) && new' == PathFor(order, id)
    requires Visible(after) == Visible(dir) + {new'}
    ensures AllWellNamed(after, bound + 1)
  {
    hide PathFor, Visible, UsableId;
    forall name | name in Visible(after)
      ensures WellNamed(name, bound + 1)
    {
      if name in Visible(dir) {
        assert WellNamed(name, bound);
      }
    }
  }

  lemma AdditionIsDistinct(dir: Directory, after: Directory, new': string, order: nat, id: string)
    requires DistinctPhotos(dir) && Fresh(dir, id) && AboveAll(dir, order)
    requires OrderOf(new') == Some(order) && PhotoIdOf(new') == Some(id)
    requires Visible(after) == Visible(dir) + {new'}
    ensures DistinctPhotos(after)
  {
    hide OrderOf, PhotoIdOf, Visible;
  }

  lemma AdditionIsWhole(dir: Directory, after: Directory, new': string)
    requires WholePhotos(dir) && |Visible(dir)| < TARGET_PHOTOS
    requires Visible(after) == Visible(dir) + {new'}
    requires after[new'].Readable? && |after[new'].bytes| == PHOTO_BYTES
    requires forall name :: name in Visible(dir) && name != new' ==> after[name] == dir[name]
    ensures WholePhotos(after) && |Visible(after)| <= TARGET_PHOTOS
  {
  }

  lemma WriteKeepsInv(c: Card, e: Event)
    requires Inv(c) && c.landed < U64_LIMIT && (e.WritePart? || e.FinishPart?)
    ensures Inv(Apply(c, e))
  {
    hide PathFor, TempFor, Visible, Sound, UsableId, Fresh, AboveAll;
    if c.writer.Numbered? {
      if e.FinishPart? {
        TempWriteKeepsInv(c, Readable(c.writer.bytes), c.writer);
      } else if e.soFar <= |c.writer.bytes| {
        TempWriteKeepsInv(c, Readable(c.writer.bytes[..e.soFar]), c.writer);
      }
    }
  }

  lemma ChooseOrderKeepsInv(c: Card)
    requires Inv(c) && c.landed < U64_LIMIT
    ensures Inv(Apply(c, ChooseOrder))
  {
    hide PathFor, TempFor, NextSequence, Sound, AboveAll, Fresh, Visible, UsableId;
    NextSequenceIsAboveAll(c);
  }

  lemma CheckDuplicateKeepsInv(c: Card)
    requires Inv(c)
    ensures Inv(Apply(c, CheckDuplicate))
  {
    hide PathFor, TempFor, PhotoIdOf, Visible, Sound, UsableId, AboveAll;
  }

  /** The writer's remaining moves do not look at the directory's names. */
  lemma WriterMoveKeepsInv(c: Card, e: Event)
    requires Inv(c) && (e.Offer? || e.CheckRoom? || e.GiveUp? || e.PowerCut?)
    ensures Inv(Apply(c, e))
  {
    hide PathFor, TempFor, PhotoIdOf, Visible, Sound, Fresh, AboveAll, UsableId;
  }

  /** Every step of the writer, of a reader and of a power cut keeps the card sound. */
  lemma StepKeepsInv(c: Card, e: Event)
    requires Inv(c) && c.landed < U64_LIMIT
    ensures Inv(Apply(c, e))
  {
    hide Inv, PathFor, TempFor, IsPhotoName, NextSequence, Visible, Contains;
    match e
    case WritePart(_) => WriteKeepsInv(c, e);
    case FinishPart => WriteKeepsInv(c, e);
    case ChooseOrder => ChooseOrderKeepsInv(c);
    case CheckDuplicate => CheckDuplicateKeepsInv(c);
    case Rename => if c.writer.Written? { RenameKeepsInv(c); }
    case Remove(name) => if IsPhotoName(name) { RemoveKeepsInv(c, name); }
    case _ => WriterMoveKeepsInv(c, e);
  }

  lemma LandedNeverDrops(c: Card, e: Event)
    ensures c.landed <= Apply(c, e).landed
  {
    hide PathFor, TempFor, PhotoIdOf, Visible, NextSequence, Contains, UsableId, IsPhotoName;
  }

  lemma {:induction false} LandedGrows(c: Card, events: seq<Event>, k: nat)
    requires k <= |events|
    ensures Run(c, events[..k]).landed <= Run(c, events).landed
    decreases |events|
  {
    if k < |events| {
      hide Apply;
      var all := events[..|events| - 1];
      LandedNeverDrops(Run(c, all), events[|events| - 1]);
      LandedGrows(c, all, k);
      assert all[..k] == events[..k];
    } else {
      assert events[..k] == events;
    }
  }

  lemma EmptyCardIsSound()
    ensures Inv(EMPTY_CARD)
  {
    hide OrderOf, PhotoIdOf, PathFor, Extension, IsPhotoName;
    assert Visible(EMPTY_CARD.dir) == {};
  }

  /** Whatever is interleaved and wherever the power goes, what can be seen on
      the card is at most 48 whole photos with distinct ids and order numbers. */
  lemma {:induction false} CardStaysSound(events: seq<Event>)
    requires Run(EMPTY_CARD, events).landed < U64_LIMIT
    ensures Inv(Run(EMPTY_CARD, events))
    decreases |events|
  {
    hide Inv, Apply;
    if events == [] {
      EmptyCardIsSound();
    } else {
      var before := events[..|events| - 1];
      LandedGrows(EMPTY_CARD, events, |before|);
      CardStaysSound(before);
      StepKeepsInv(Run(EMPTY_CARD, before), events[|events| - 1]);
    }
  }

  /** At the moment a photo lands it sorts after everything else on the card. */
  lemma NewestSortsLast(events: seq<Event>)
    requires var c := Run(EMPTY_CARD, events); c.writer.Written? && c.landed < FIRST_UNPADDED_ORDER
    ensures var c := Run(EMPTY_CARD, events);
            var new' := PathFor(c.writer.order, c.writer.id);
            var seen := Visible(Apply(c, Rename).dir);
            new' in seen && forall name :: name in seen && name != new' ==> NameBefore(name, new')
  {
    CardStaysSound(events);
    var c := Run(EMPTY_CARD, events);
    var new' := PathFor(c.writer.order, c.writer.id);
    RenameSees(c, new');
    forall name | name in Visible(c.dir)
      ensures NameBefore(name, new')
    {
      OrdersAreRead(name, c.landed);
      var order, id := OrderOf(name).value, PhotoIdOf(name).value;
      PaddedOrderIsArrivalOrder(order, id, c.writer.order, c.writer.id);
    }
  }
}
