// Memory and card together as one playlist: the photo on screen, the spares
// behind it, then everything waiting on the card.
module Playlist {
  import opened Wrappers
  import opened CardNames
  import opened CardCache
  import opened PhotoQueue
  import opened RenderedImages
  import opened ImageBuffer

  const MEMORY_BUFFER_TARGET: nat := 2
  const OFFLINE_ROTATION_SECONDS: nat := 300

  type Picture = seq<Pixel>

  datatype Tiers = Tiers(reserve: Reserve, dir: Directory)

  function Pictures(images: seq<RenderedImage>): (p: seq<Picture>)
    ensures |p| == |images|
  {
    seq(|images|, i requires 0 <= i < |images| => images[i].rgb565)
  }

  function Decoded(photos: seq<seq<Byte>>): (p: seq<Picture>)
    ensures |p| == |photos|
  {
    seq(|photos|, i requires 0 <= i < |photos| => ReadPixels(photos[i]))
  }

  ghost function PlaylistOf(t: Tiers): seq<Picture> {
    Pictures(t.reserve.buffer) + Decoded(Queue(t.dir))
  }

  /** Take from the card and queue in memory, while fewer than two photos are in memory. */
  ghost function TopUp(t: Tiers): Tiers
    decreases |Queue(t.dir)|
  {
    if |t.reserve.buffer| >= MEMORY_BUFFER_TARGET then t
    else
      var (taken, dir) := Taken(t.dir);
      TakenIsDequeue(t.dir);
      if taken.None? then t.(dir := dir)
      else
        var image := FromRgb565Bytes(taken.value);
        if image.Success? then TopUp(Tiers(Push(t.reserve, image.value), dir))
        else TopUp(t.(dir := dir))
  }

  ghost function Rotation(t: Tiers): Tiers {
    var ready := TopUp(t);
    if |ready.reserve.buffer| < 2 then ready
    else TopUp(ready.(reserve := Advance(ready.reserve)))
  }

  ghost function Tapped(t: Tiers): Tiers {
    if |t.reserve.buffer| < 2 then TopUp(t) else t.(reserve := Advance(t.reserve))
  }

  ghost predicate StoreFails(dir: Directory, id: string, bytes: seq<Byte>, refuses: bool, outcome: Outcome) {
    |bytes| != PHOTO_BYTES || !UsableId(id) || (Accepts(dir, id, bytes, refuses) && !outcome.Landed?)
  }

  /** A spare from the controller: to the card, or to memory if the card fails. */
  ghost function Spared(t: Tiers, id: string, image: RenderedImage, bytes: seq<Byte>,
                        refuses: bool, outcome: Outcome): Tiers
  {
    var dir := Stored(t.dir, id, bytes, refuses, outcome);
    TopUp(Tiers(if StoreFails(t.dir, id, bytes, refuses, outcome) then Push(t.reserve, image) else t.reserve, dir))
  }

  ghost function Rendered(t: Tiers, fetched: Option<(RenderedImage, seq<Byte>)>, id: string, queue: bool,
                          refuses: bool, outcome: Outcome): Tiers
  {
    match fetched
    case None => t
    case Some((photo, bytes)) =>
      if queue then Spared(t, id, WithId(photo, id), bytes, refuses, outcome)
      else t.(reserve := Show(t.reserve, WithId(photo, id)))
  }

  // What a render request promises, told from the state before and after.

  /** `pixels` are in front with every photo that fits behind them, or the photo of that id was up already. */
  predicate NowInFront(before: seq<RenderedImage>, after: seq<RenderedImage>, pixels: Picture, id: string) {
    if id != "" && before != [] && before[0].id == Some(id) then after == before
    else
      && after != [] && after[0].rgb565 == pixels && after[0].id == (if id == "" then None else Some(id))
      && after[1..] == if |before| < 3 then before else before[..|before| - 1]
  }

  /** A spare joins the end of the playlist if the card stores it, and changes nothing if
      the card has no use for it; if the store fails it goes behind the photos in memory. */
  ghost predicate SpareKept(before: Tiers, after: Tiers, id: string, pixels: Picture, bytes: seq<Byte>,
                            refuses: bool, outcome: Outcome)
  {
    if Storable(id, bytes) && !Wanted(before.dir, id, refuses) then
      PlaylistOf(after) == PlaylistOf(before) && before.reserve.buffer <= after.reserve.buffer
    else if Storable(id, bytes) && outcome.Landed? then
      PlaylistOf(after) == PlaylistOf(before) + [ReadPixels(bytes)] && before.reserve.buffer <= after.reserve.buffer
    else
      var buffer := before.reserve.buffer;
      var kept := if |buffer| < 3 then buffer else buffer[..|buffer| - 1];
      PlaylistOf(after) == Pictures(kept) + ([pixels] + Decoded(Queue(before.dir)))
  }

  class Frame {
    const images: RenderedImageState
    const cache: PhotoCache
    var lastOfflineRotation: nat

    ghost function State(): Tiers
      reads images, cache
    {
      Tiers(images.State(), cache.files)
    }

    constructor (images: RenderedImageState, cache: PhotoCache)
      ensures this.images == images && this.cache == cache && lastOfflineRotation == 0
    {
      this.images, this.cache, lastOfflineRotation := images, cache, 0;
    }

    method TopUpFromCache()
      modifies images, cache
      ensures State() == TopUp(old(State()))
    {
      while |images.buffer| < MEMORY_BUFFER_TARGET
        invariant TopUp(State()) == TopUp(old(State()))
        decreases |Queue(cache.files)|
      {
        TakenIsDequeue(cache.files);
        var pixels := cache.TakeOldest();
        if pixels.None? {
          return;
        }
        var image := FromRgb565Bytes(pixels.value);
        if image.Success? {
          images.PushRenderedImage(image.value);
        }
      }
    }

    /** One pass of the main loop: rotate from the card while the controller is away. */
    method Pass(now: nat, connected: bool) returns (rotated: bool)
      requires lastOfflineRotation <= now
      modifies this, images, cache
      ensures rotated ==> !connected && now - old(lastOfflineRotation) >= OFFLINE_ROTATION_SECONDS
      ensures if !connected && now - old(lastOfflineRotation) >= OFFLINE_ROTATION_SECONDS
              then State() == Rotation(old(State())) && lastOfflineRotation == now
              else State() == old(State()) && lastOfflineRotation == old(lastOfflineRotation)
    {
      rotated := false;
      if !connected && now - lastOfflineRotation >= OFFLINE_ROTATION_SECONDS {
        lastOfflineRotation := now;
        TopUpFromCache();
        rotated := images.AdvanceRenderedImage();
        if rotated {
          TopUpFromCache();
        }
      }
    }

    /** A tap shows the next photo; a tap with nothing ready fetches one from the card. */
    method Tap()
      modifies images, cache
      ensures State() == Tapped(old(State()))
    {
      var more := images.AdvanceRenderedImage();
      if !more {
        TopUpFromCache();
      }
    }

    /** Carry out a render request. `fetched` is the downloaded photo, decoded and as bytes. */
    method Render(localPhotosActive: bool, fetched: Option<(RenderedImage, seq<Byte>)>, id: string, queue: bool,
                  refuses: bool, outcome: Outcome)
      returns (ok: bool)
      modifies images, cache
      ensures ok <==> localPhotosActive || fetched.Some?
      ensures State() == if localPhotosActive then old(State())
                         else Rendered(old(State()), fetched, id, queue, refuses, outcome)
      // Nothing to show: nothing changes.
      ensures localPhotosActive || fetched.None? ==> State() == old(State())
      // A photo to show now is on screen, unless the one there has its id, and the card is not touched.
      ensures !localPhotosActive && fetched.Some? && !queue ==>
        && cache.files == old(cache.files)
        && NowInFront(old(images.buffer), images.buffer, fetched.value.0.rgb565, id)
      // A spare leaves what is in memory in front and joins the end, or what is in memory if the card fails.
      ensures !localPhotosActive && fetched.Some? && queue ==>
        && (old(images.buffer) != [] ==> images.buffer != [] && images.buffer[0] == old(images.buffer)[0])
        && forall bound: nat :: InSequence(old(cache.files), bound) && bound < FIRST_UNPADDED_ORDER ==>
             SpareKept(old(State()), State(), id, fetched.value.0.rgb565, fetched.value.1, refuses, outcome)
    {
      if localPhotosActive {
        return true;
      }
      if fetched.None? {
        return false;
      }
      var (photo, bytes) := fetched.value;
      ghost var before := State();
      var image := WithId(photo, id);
      if queue {
        hide TopUp, Stored, Accepts;
        SpareIsKept(before, id, image, bytes, refuses, outcome);
        var stored := cache.Store(id, bytes, refuses, outcome);
        if stored.Failure? {
          images.PushRenderedImage(image);
        }
        TopUpFromCache();
      } else {
        images.ShowRenderedImage(image);
      }
      return true;
    }
  }

  // The playlist.

  lemma {:induction false} PhotosInAreWhole(names: seq<string>, dir: Directory)
    requires forall name :: name in names ==> name in dir
    ensures forall photo :: photo in PhotosIn(names, dir) ==> |photo| == PHOTO_BYTES
  {
    if names != [] {
      PhotosInAreWhole(names[1..], dir);
    }
  }

  lemma QueuedAreWhole(dir: Directory)
    ensures forall photo :: photo in Queue(dir) ==> |photo| == PHOTO_BYTES
  {
    PhotosInAreWhole(Entries(dir), dir);
  }

  /** Moving one photo up a tier leaves the playlist as it was. */
  lemma MoveUpKeepsPlaylist(t: Tiers, image: RenderedImage, dir: Directory)
    requires |t.reserve.buffer| < BUFFER_CAPACITY && Queue(t.dir) != []
    requires image.rgb565 == ReadPixels(Queue(t.dir)[0]) && Queue(dir) == Queue(t.dir)[1..]
    ensures PlaylistOf(Tiers(Push(t.reserve, image), dir)) == PlaylistOf(t)
  {
    hide Queue, ReadPixels;
    var moved := Push(t.reserve, image).buffer;
    assert moved == t.reserve.buffer + [image];
    assert Pictures(moved) == Pictures(t.reserve.buffer) + [image.rgb565];
    assert Decoded(Queue(t.dir)) == [image.rgb565] + Decoded(Queue(dir));
  }

  /** Topping up changes which tier holds a photo and nothing else; it stops with
      two in memory or with nothing left on the card. */
  lemma {:induction false} TopUpKeepsPlaylist(t: Tiers)
    ensures PlaylistOf(TopUp(t)) == PlaylistOf(t)
    ensures t.reserve.buffer <= TopUp(t).reserve.buffer
    ensures |TopUp(t).reserve.buffer| >= MEMORY_BUFFER_TARGET || Queue(TopUp(t).dir) == []
    ensures |t.reserve.buffer| >= MEMORY_BUFFER_TARGET ==> TopUp(t) == t
    ensures t.reserve.buffer != [] ==> TopUp(t).reserve.generation == t.reserve.generation
    ensures |TopUp(t).reserve.buffer| <= |t.reserve.buffer| || |TopUp(t).reserve.buffer| == MEMORY_BUFFER_TARGET
         || Queue(TopUp(t).dir) == []
    decreases |Queue(t.dir)|
  {
    hide Queue, ReadPixels, Taken;
    if |t.reserve.buffer| < MEMORY_BUFFER_TARGET {
      TakenIsDequeue(t.dir);
      QueuedAreWhole(t.dir);
      var (taken, dir) := Taken(t.dir);
      if taken.Some? {
        PhotoBytesAreAPhoto(taken.value);
        var image := FromRgb565Bytes(taken.value).value;
        MoveUpKeepsPlaylist(t, image, dir);
        TopUpKeepsPlaylist(Tiers(Push(t.reserve, image), dir));
      }
    }
  }

  lemma AdvanceDropsHead(t: Tiers)
    requires |t.reserve.buffer| >= 2
    ensures PlaylistOf(t.(reserve := Advance(t.reserve))) == PlaylistOf(t)[1..]
  {
    hide Queue;
    assert Pictures(t.reserve.buffer[1..]) == Pictures(t.reserve.buffer)[1..];
  }

  lemma BufferLeadsPlaylist(t: Tiers)
    ensures |t.reserve.buffer| <= |PlaylistOf(t)|
    ensures t.reserve.buffer != [] ==> PlaylistOf(t)[0] == t.reserve.buffer[0].rgb565
    ensures |PlaylistOf(t)| == |t.reserve.buffer| + |Queue(t.dir)|
  {
  }

  /** A rotation shows the next photo of the playlist, if there is one, and
      leaves what is on screen when there is not. */
  lemma RotationIsNext(t: Tiers)
    requires t.reserve.buffer != []
    ensures Rotation(t).reserve.buffer != []
    ensures PlaylistOf(Rotation(t)) == if |PlaylistOf(t)| >= 2 then PlaylistOf(t)[1..] else PlaylistOf(t)
  {
    hide Queue, Pictures, Decoded, TopUp;
    TopUpKeepsPlaylist(t);
    var ready := TopUp(t);
    BufferLeadsPlaylist(ready);
    if |ready.reserve.buffer| >= 2 {
      AdvanceDropsHead(ready);
      TopUpKeepsPlaylist(ready.(reserve := Advance(ready.reserve)));
    }
  }

  lemma TapIsNextOrFetch(t: Tiers)
    requires t.reserve.buffer != []
    ensures Tapped(t).reserve.buffer != []
    ensures PlaylistOf(Tapped(t)) == if |t.reserve.buffer| >= 2 then PlaylistOf(t)[1..] else PlaylistOf(t)
    ensures |t.reserve.buffer| < 2 ==> Queue(t.dir) != [] ==> |Tapped(t).reserve.buffer| >= 2
  {
    hide Queue, Pictures, Decoded, TopUp;
    TopUpKeepsPlaylist(t);
    BufferLeadsPlaylist(t);
    BufferLeadsPlaylist(TopUp(t));
    if |t.reserve.buffer| >= 2 {
      AdvanceDropsHead(t);
    }
  }

  lemma {:induction false} TakeFromKeepsNames(names: seq<string>, dir: Directory, bound: nat)
    requires InSequence(dir, bound)
    ensures InSequence(TakeFrom(names, dir).1, bound)
    decreases |names|
  {
    hide WellNamed, Extension, Whole;
    if names != [] {
      assert Visible(dir - {names[0]}) <= Visible(dir);
      TakeFromKeepsNames(names[1..], dir - {names[0]}, bound);
    }
  }

  lemma {:induction false} TopUpKeepsNames(t: Tiers, bound: nat)
    requires InSequence(t.dir, bound)
    ensures InSequence(TopUp(t).dir, bound)
    decreases |Queue(t.dir)|
  {
    hide Queue, InSequence, TakeFrom, Push;
    if |t.reserve.buffer| < MEMORY_BUFFER_TARGET {
      TakenIsDequeue(t.dir);
      TakeFromKeepsNames(Entries(t.dir), t.dir, bound);
      var (taken, dir) := Taken(t.dir);
      if taken.Some? {
        var image := FromRgb565Bytes(taken.value);
        TopUpKeepsNames(if image.Success? then Tiers(Push(t.reserve, image.value), dir) else t.(dir := dir), bound);
      }
    }
  }

  lemma BoundGrows(dir: Directory, bound: nat)
    requires InSequence(dir, bound) && bound < FIRST_UNPADDED_ORDER
    ensures InSequence(dir, bound + 1)
  {
    hide PathFor, Extension;
    forall name | name in Visible(dir)
      ensures WellNamed(name, bound + 1)
    {
      assert WellNamed(name, bound);
    }
  }

  lemma StoreExtendsTheCard(dir: Directory, id: string, bytes: seq<Byte>, refuses: bool, bound: nat)
    requires InSequence(dir, bound) && bound < FIRST_UNPADDED_ORDER
    ensures var after := Stored(dir, id, bytes, refuses, Landed);
      && InSequence(after, bound + 1)
      && Decoded(Queue(after)) == Decoded(Queue(dir))
           + (if Accepts(dir, id, bytes, refuses) then [ReadPixels(bytes)] else [])
  {
    StoredIs(dir, id, bytes, refuses, Landed);
    hide Queue, InSequence, Accepts, ReadPixels, Stored;
    if Accepts(dir, id, bytes, refuses) {
      StoreIsEnqueue(dir, id, bytes, refuses, bound);
    } else {
      BoundGrows(dir, bound);
    }
  }

  /** A spare the card takes joins the end of the playlist; one it has no use for changes nothing. */
  lemma SpareJoinsTheEnd(t: Tiers, id: string, image: RenderedImage, bytes: seq<Byte>, refuses: bool, bound: nat)
    requires InSequence(t.dir, bound) && bound < FIRST_UNPADDED_ORDER
    requires |bytes| == PHOTO_BYTES && UsableId(id)
    ensures var after := Spared(t, id, image, bytes, refuses, Landed);
      && t.reserve.buffer <= after.reserve.buffer
      && InSequence(after.dir, bound + 1)
      && PlaylistOf(after) == PlaylistOf(t)
           + (if Accepts(t.dir, id, bytes, refuses) then [ReadPixels(bytes)] else [])
  {
    hide Queue, InSequence, TopUp, Accepts, ReadPixels, Stored, UsableId, Pictures, Decoded;
    var stored := Tiers(t.reserve, Stored(t.dir, id, bytes, refuses, Landed));
    StoreExtendsTheCard(t.dir, id, bytes, refuses, bound);
    TopUpKeepsPlaylist(stored);
    TopUpKeepsNames(stored, bound + 1);
  }

  // Whole runs with the controller out of the way.

  datatype Event =
    | Rotate
    | Tap
    | Refill
    | Spare(id: string, image: RenderedImage, bytes: seq<Byte>, refuses: bool)

  /** `gone` are the pictures already moved past, `added` the spares the card took. */
  datatype History = History(tiers: Tiers, gone: seq<Picture>, added: seq<Picture>)

  ghost function After(h: History, e: Event): History
    requires h.tiers.reserve.buffer != []
  {
    var t := h.tiers;
    var front := t.reserve.buffer[0].rgb565;
    match e
    case Rotate =>
      History(Rotation(t), if |PlaylistOf(t)| >= 2 then h.gone + [front] else h.gone, h.added)
    case Tap =>
      History(Tapped(t), if |t.reserve.buffer| >= 2 then h.gone + [front] else h.gone, h.added)
    case Refill => h.(tiers := TopUp(t))
    case Spare(id, image, bytes, refuses) =>
      if |bytes| != PHOTO_BYTES || !UsableId(id) then h
      else History(Spared(t, id, image, bytes, refuses, Landed), h.gone,
                   if Accepts(t.dir, id, bytes, refuses) then h.added + [ReadPixels(bytes)] else h.added)
  }

  /** Nothing is lost, repeated, reordered or blanked. */
  ghost predicate InStep(h: History, start: seq<Picture>, bound: nat) {
    && h.tiers.reserve.buffer != []
    && InSequence(h.tiers.dir, bound)
    && h.gone + PlaylistOf(h.tiers) == start + h.added
  }

  lemma AfterKeepsStep(h: History, e: Event, start: seq<Picture>, bound: nat)
    requires InStep(h, start, bound) && bound < FIRST_UNPADDED_ORDER
    ensures InStep(After(h, e), start, bound + 1)
  {
    hide Rotation, Tapped, Spared, TopUp, Queue, Pictures, Decoded, InSequence, Accepts, ReadPixels;
    var t := h.tiers;
    BufferLeadsPlaylist(t);
    BoundGrows(t.dir, bound);
    assert [PlaylistOf(t)[0]] + PlaylistOf(t)[1..] == PlaylistOf(t);
    match e
    case Rotate =>
      RotationIsNext(t);
      RotationKeepsNames(t, bound + 1);
    case Tap =>
      TapIsNextOrFetch(t);
      TapKeepsNames(t, bound + 1);
    case Refill =>
      TopUpKeepsPlaylist(t);
      TopUpKeepsNames(t, bound + 1);
    case Spare(id, image, bytes, refuses) =>
      if |bytes| == PHOTO_BYTES && UsableId(id) {
        SpareJoinsTheEnd(t, id, image, bytes, refuses, bound);
        AppendBoth(h.gone, PlaylistOf(t), start, h.added, ReadPixels(bytes));
      }
  }

  lemma AppendBoth(a: seq<Picture>, b: seq<Picture>, c: seq<Picture>, d: seq<Picture>, x: Picture)
    requires a + b == c + d
    ensures a + (b + [x]) == c + (d + [x])
    ensures b + [] == b
  {
    assert a + (b + [x]) == (a + b) + [x];
    assert c + (d + [x]) == (c + d) + [x];
  }

  lemma RotationKeepsNames(t: Tiers, bound: nat)
    requires InSequence(t.dir, bound)
    ensures InSequence(Rotation(t).dir, bound)
  {
    hide InSequence, TopUp;
    TopUpKeepsNames(t, bound);
    var ready := TopUp(t);
    TopUpKeepsNames(ready.(reserve := Advance(ready.reserve)), bound);
  }

  lemma TapKeepsNames(t: Tiers, bound: nat)
    requires InSequence(t.dir, bound)
    ensures InSequence(Tapped(t).dir, bound)
  {
    hide InSequence, TopUp;
    TopUpKeepsNames(t, bound);
  }

  /** A run, event by event. It would stop if the screen went blank, which it never does. */
  ghost function Run(h: History, events: seq<Event>): History
    decreases |events|
  {
    if events == [] || h.tiers.reserve.buffer == [] then h else Run(After(h, events[0]), events[1..])
  }

  /** With a photo up, any run of rotations, taps, refills and spares walks one
      playlist in order: the pictures moved past, then what is left, is what was
      there at the start followed by what was added. */
  lemma {:induction false} OnePlaylist(h: History, events: seq<Event>, start: seq<Picture>, bound: nat)
    requires InStep(h, start, bound) && bound + |events| <= FIRST_UNPADDED_ORDER
    ensures InStep(Run(h, events), start, bound + |events|)
    decreases |events|
  {
    hide After, InStep;
    if events != [] {
      NeverBlank(h, start, bound);
      AfterKeepsStep(h, events[0], start, bound);
      OnePlaylist(After(h, events[0]), events[1..], start, bound + 1);
    }
  }

  lemma NeverBlank(h: History, start: seq<Picture>, bound: nat)
    requires InStep(h, start, bound)
    ensures h.tiers.reserve.buffer != []
  {
  }

  /** So the screen always shows the picture whose turn it is. */
  lemma ScreenShowsTheNextTurn(t: Tiers, events: seq<Event>, bound: nat)
    requires t.reserve.buffer != [] && InSequence(t.dir, bound) && bound + |events| <= FIRST_UNPADDED_ORDER
    ensures var h := Run(History(t, [], []), events);
      && h.tiers.reserve.buffer != []
      && |h.gone| < |PlaylistOf(t) + h.added|
      && h.tiers.reserve.buffer[0].rgb565 == (PlaylistOf(t) + h.added)[|h.gone|]
  {
    hide After, PlaylistOf, InSequence, Run;
    OnePlaylist(History(t, [], []), events, PlaylistOf(t), bound);
    var h := Run(History(t, [], []), events);
    BufferLeadsPlaylist(h.tiers);
    assert h.gone + PlaylistOf(h.tiers) == PlaylistOf(t) + h.added;
  }

  ghost function Rotations(t: Tiers, n: nat): Tiers
    decreases n
  {
    if n == 0 then t else Rotation(Rotations(t, n - 1))
  }

  /** Left alone, the frame shows its playlist once each in order and then holds the last picture. */
  lemma {:induction false} RotationsWalkThePlaylist(t: Tiers, n: nat)
    requires t.reserve.buffer != []
    ensures Rotations(t, n).reserve.buffer != []
    ensures var k := if n < |PlaylistOf(t)| then n else |PlaylistOf(t)| - 1;
      0 <= k && PlaylistOf(Rotations(t, n)) == PlaylistOf(t)[k..]
      && Rotations(t, n).reserve.buffer[0].rgb565 == PlaylistOf(t)[k]
    decreases n
  {
    hide Rotation, PlaylistOf;
    if n > 0 {
      RotationsWalkThePlaylist(t, n - 1);
      RotationIsNext(Rotations(t, n - 1));
      var k := if n - 1 < |PlaylistOf(t)| then n - 1 else |PlaylistOf(t)| - 1;
      assert |PlaylistOf(t)[k..]| >= 2 ==> PlaylistOf(t)[k..][1..] == PlaylistOf(t)[k + 1..];
    } else {
      assert PlaylistOf(t)[0..] == PlaylistOf(t);
    }
    AtLeastTheScreen(t);
    AtLeastTheScreen(Rotations(t, n));
  }

  lemma AtLeastTheScreen(t: Tiers)
    requires t.reserve.buffer != []
    ensures PlaylistOf(t) != [] && PlaylistOf(t)[0] == t.reserve.buffer[0].rgb565
  {
    BufferLeadsPlaylist(t);
  }

  // Where first in, first out gives way.

  lemma {:induction false} RotatesIntoItself(x: Picture, pictures: seq<Picture>)
    ensures [x] + pictures == pictures + [x] <==> forall p :: p in pictures ==> p == x
  {
    if pictures != [] {
      var rest := pictures[1..];
      RotatesIntoItself(x, rest);
      assert pictures == [pictures[0]] + rest;
      if pictures[0] == x {
        assert pictures + [x] == [x] + (rest + [x]);
        SamePrefix([x], [x] + rest, rest + [x]);
        assert forall p :: p in pictures <==> p == x || p in rest;
      } else {
        assert pictures[0] in pictures;
        assert ([x] + pictures)[0] != (pictures + [x])[0];
      }
    }
  }

  /** A file that is not a photo is no part of the queue. */
  lemma HiddenFileKeepsTheQueue(dir: Directory, temp: string, content: Content, bound: nat)
    requires !IsPhotoName(temp) && InSequence(dir, bound)
    ensures Queue(dir[temp := content]) == Queue(dir) && InSequence(dir[temp := content], bound)
  {
    hide IsPhotoName, WellNamed, Whole, NameLeq;
    var after := dir[temp := content];
    assert Visible(after) == Visible(dir);
    assert forall name :: name in Entries(dir) ==> name in Visible(dir);
    PhotosInAgree(Entries(dir), dir, after);
  }

  /** A store that fails, at whatever point, leaves the queue as it was. */
  lemma FailedStoreKeepsTheQueue(
      dir: Directory, id: string, bytes: seq<Byte>, refuses: bool, outcome: Outcome, bound: nat)
    requires StoreFails(dir, id, bytes, refuses, outcome) && InSequence(dir, bound)
    ensures var after := Stored(dir, id, bytes, refuses, outcome);
      Queue(after) == Queue(dir) && InSequence(after, bound)
  {
    StoredIs(dir, id, bytes, refuses, outcome);
    if Accepts(dir, id, bytes, refuses) {
      NextIsBelow(dir, bound);
      TempIsHidden(NextSequence(dir), id);
      hide Queue, InSequence, Accepts, Stored, TempFor, PathFor, IsPhotoName, NextSequence;
      var temp := PartName(dir, id);
      if outcome.RenameFailed? {
        HiddenFileKeepsTheQueue(dir, temp, Readable(bytes), bound);
      } else if outcome.written <= |bytes| {
        HiddenFileKeepsTheQueue(dir, temp, Readable(bytes[..outcome.written]), bound);
      }
    }
  }

  /** Among the waiting or after them: where one more picture went. */
  lemma AheadOrBehind(memory: seq<Picture>, kept: seq<Picture>, waiting: seq<Picture>, x: Picture)
    requires kept == memory || |kept| < |memory|
    ensures kept + ([x] + waiting) == memory + waiting + [x]
       <==> kept == memory && forall p :: p in waiting ==> p == x
  {
    if kept == memory {
      assert memory + waiting + [x] == memory + (waiting + [x]);
      RotatesIntoItself(x, waiting);
      SamePrefix(memory, [x] + waiting, waiting + [x]);
    }
  }

  lemma PushedPlaylist(t: Tiers, image: RenderedImage, dir: Directory)
    requires Queue(dir) == Queue(t.dir)
    ensures PlaylistOf(Tiers(Push(t.reserve, image), dir))
         == Pictures(MakeRoom(t.reserve.buffer)) + ([image.rgb565] + Decoded(Queue(t.dir)))
    ensures |t.reserve.buffer| < BUFFER_CAPACITY ==> MakeRoom(t.reserve.buffer) == t.reserve.buffer
    ensures |t.reserve.buffer| >= BUFFER_CAPACITY ==>
      |Pictures(MakeRoom(t.reserve.buffer))| < |Pictures(t.reserve.buffer)|
  {
    hide Queue, Decoded;
    var kept := Pictures(MakeRoom(t.reserve.buffer));
    assert Pictures(Push(t.reserve, image).buffer) == kept + [image.rgb565];
  }

  lemma SpareIsKept(t: Tiers, id: string, image: RenderedImage, bytes: seq<Byte>, refuses: bool, outcome: Outcome)
    ensures var after := Spared(t, id, image, bytes, refuses, outcome);
      && (t.reserve.buffer != [] ==>
            after.reserve.buffer != [] && after.reserve.buffer[0] == t.reserve.buffer[0])
      && forall bound: nat :: InSequence(t.dir, bound) && bound < FIRST_UNPADDED_ORDER ==>
           SpareKept(t, after, id, image.rgb565, bytes, refuses, outcome)
  {
    if t.reserve.buffer != [] {
      SpareStaysBehind(t, id, image, bytes, refuses, outcome);
    }
    hide *;
    forall bound: nat | InSequence(t.dir, bound) && bound < FIRST_UNPADDED_ORDER
      ensures SpareKept(t, Spared(t, id, image, bytes, refuses, outcome), id, image.rgb565, bytes, refuses, outcome)
    {
      SpareIsKeptInSequence(t, id, image, bytes, refuses, outcome, bound);
    }
  }

  lemma SpareStaysBehind(t: Tiers, id: string, image: RenderedImage, bytes: seq<Byte>, refuses: bool, outcome: Outcome)
    requires t.reserve.buffer != []
    ensures var after := Spared(t, id, image, bytes, refuses, outcome);
      after.reserve.buffer != [] && after.reserve.buffer[0] == t.reserve.buffer[0]
  {
    hide TopUp, Stored, StoreFails;
    var dir := Stored(t.dir, id, bytes, refuses, outcome);
    TopUpKeepsPlaylist(Tiers(t.reserve, dir));
    TopUpKeepsPlaylist(Tiers(Push(t.reserve, image), dir));
  }

  lemma SpareIsKeptInSequence(t: Tiers, id: string, image: RenderedImage, bytes: seq<Byte>, refuses: bool,
                              outcome: Outcome, bound: nat)
    requires InSequence(t.dir, bound) && bound < FIRST_UNPADDED_ORDER
    ensures SpareKept(t, Spared(t, id, image, bytes, refuses, outcome), id, image.rgb565, bytes, refuses, outcome)
  {
    AcceptsMeansWanted(t.dir, id, bytes, refuses);
    hide Queue, TopUp, Decoded, InSequence, Accepts, UsableId, Push, Pictures, ReadPixels, Storable, Wanted;
    if Accepts(t.dir, id, bytes, refuses) && outcome.Landed? {
      SpareJoinsTheEnd(t, id, image, bytes, refuses, bound);
    } else if StoreFails(t.dir, id, bytes, refuses, outcome) {
      FallbackGoesBehindMemory(t, id, image, bytes, refuses, outcome, bound);
    } else {
      StoredIs(t.dir, id, bytes, refuses, outcome);
      TopUpKeepsPlaylist(t);
    }
  }

  lemma FallbackGoesBehindMemory(t: Tiers, id: string, image: RenderedImage, bytes: seq<Byte>, refuses: bool,
                                 outcome: Outcome, bound: nat)
    requires StoreFails(t.dir, id, bytes, refuses, outcome) && InSequence(t.dir, bound)
    ensures PlaylistOf(Spared(t, id, image, bytes, refuses, outcome))
         == Pictures(MakeRoom(t.reserve.buffer)) + ([image.rgb565] + Decoded(Queue(t.dir)))
  {
    hide Queue, TopUp, Decoded, Stored, InSequence, Accepts, UsableId, Push, Pictures, MakeRoom, StoreFails;
    FailedStoreKeepsTheQueue(t.dir, id, bytes, refuses, outcome, bound);
    var dir := Stored(t.dir, id, bytes, refuses, outcome);
    TopUpKeepsPlaylist(Tiers(Push(t.reserve, image), dir));
    PushedPlaylist(t, image, dir);
  }

  /** A spare the card fails to store, whether it is unsuitable, could not be
      written or could not be renamed, goes to memory ahead of everything on the
      card: it is last in the playlist only if memory had room and nothing
      different was waiting on the card. */
  lemma FallbackJumpsTheQueue(t: Tiers, id: string, image: RenderedImage, bytes: seq<Byte>, refuses: bool,
                              outcome: Outcome, bound: nat)
    requires StoreFails(t.dir, id, bytes, refuses, outcome) && InSequence(t.dir, bound)
    requires |t.reserve.buffer| <= BUFFER_CAPACITY
    ensures var after := Spared(t, id, image, bytes, refuses, outcome);
      && PlaylistOf(after)
           == Pictures(MakeRoom(t.reserve.buffer)) + ([image.rgb565] + Decoded(Queue(t.dir)))
      && InSequence(after.dir, bound)
      && (PlaylistOf(after) == PlaylistOf(t) + [image.rgb565]
          <==> |t.reserve.buffer| < BUFFER_CAPACITY
               && forall p :: p in Decoded(Queue(t.dir)) ==> p == image.rgb565)
  {
    hide Queue, TopUp, Decoded, Stored, InSequence, Accepts, UsableId, Push, Pictures, MakeRoom;
    FailedStoreKeepsTheQueue(t.dir, id, bytes, refuses, outcome, bound);
    var dir := Stored(t.dir, id, bytes, refuses, outcome);
    TopUpKeepsNames(Tiers(Push(t.reserve, image), dir), bound);
    FallbackGoesBehindMemory(t, id, image, bytes, refuses, outcome, bound);
    PushedPlaylist(t, image, dir);
    AheadOrBehind(Pictures(t.reserve.buffer), Pictures(MakeRoom(t.reserve.buffer)), Decoded(Queue(t.dir)),
      image.rgb565);
  }

  lemma SamePrefix(prefix: seq<Picture>, a: seq<Picture>, b: seq<Picture>)
    ensures prefix + a == prefix + b <==> a == b
  {
    assert (prefix + a)[|prefix|..] == a;
    assert (prefix + b)[|prefix|..] == b;
  }

  /** Showing a photo at once keeps every other photo exactly when memory was not full. */
  lemma ShowKeepsSparesBelowCapacity(t: Tiers, image: RenderedImage)
    requires |t.reserve.buffer| <= BUFFER_CAPACITY && !AlreadyShowing(t.reserve.buffer, image)
    ensures PlaylistOf(t.(reserve := Show(t.reserve, image))) == [image.rgb565] + PlaylistOf(t)
       <==> |t.reserve.buffer| < BUFFER_CAPACITY
  {
    hide Queue;
    var shown := Show(t.reserve, image).buffer;
    assert Pictures(shown) == [image.rgb565] + Pictures(MakeRoom(t.reserve.buffer));
  }
}
