// Prepared photos on the controller's disk: written under a temporary name,
// renamed into place, and dropped least recently used first.
module PreparedPhotos {
  import opened FiniteSets
  import opened SortedSets
  import opened Wrappers

  datatype Name = Jpg(id: PhotoId) | JpgTmp(id: PhotoId)

  datatype File = File(data: seq<Byte>, atime: nat)

  type Directory = map<Name, File>

  /** Every access is stamped with the next tick of `clock`. */
  datatype Disk = Disk(files: Directory, clock: nat)

  function Ids(files: Directory): set<PhotoId> {
    set name | name in files && name.Jpg? :: name.id
  }

  ghost predicate Stamped(d: Disk) {
    && (forall name :: name in d.files ==> d.files[name].atime < d.clock)
    && (forall a, b :: a in d.files && b in d.files && a != b ==> d.files[a].atime != d.files[b].atime)
  }

  predicate NotLater(files: Directory, a: PhotoId, b: PhotoId) {
    Jpg(a) in files && Jpg(b) in files ==> files[Jpg(a)].atime <= files[Jpg(b)].atime
  }

  function ByStamp(files: Directory): (PhotoId, PhotoId) -> bool {
    (a, b) => NotLater(files, a, b)
  }

  ghost predicate Ordered(files: Directory) {
    forall a, b :: Jpg(a) in files && Jpg(b) in files && a != b ==> files[Jpg(a)].atime != files[Jpg(b)].atime
  }

  lemma StampsAreTotal(files: Directory)
    requires Ordered(files)
    ensures TotalOn(Ids(files), ByStamp(files))
  {
  }

  /** The photos by time of last access, oldest first. */
  function ByAccess(files: Directory): (ids: seq<PhotoId>)
    requires Ordered(files)
    ensures Lists(ids, Ids(files), ByStamp(files)) && |ids| == |Ids(files)|
  {
    StampsAreTotal(files);
    InOrder(Ids(files), ByStamp(files))
  }

  predicate Earlier(files: Directory, a: PhotoId, b: PhotoId) {
    Jpg(a) in files && Jpg(b) in files && files[Jpg(a)].atime < files[Jpg(b)].atime
  }

  ghost predicate Increasing(ids: seq<PhotoId>, files: Directory) {
    forall i, j :: 0 <= i < j < |ids| ==> Earlier(files, ids[i], ids[j])
  }

  /** `ids` lists the photos of `files` once each, by increasing time of access. */
  ghost predicate ListsByAccess(ids: seq<PhotoId>, files: Directory) {
    (forall id :: id in ids <==> Jpg(id) in files) && Increasing(ids, files)
  }

  lemma IdsAreNames(files: Directory, id: PhotoId)
    ensures id in Ids(files) <==> Jpg(id) in files
  {
    if Jpg(id) in files {
      assert Jpg(id).id == id;
    }
  }

  lemma ListedIsByAccess(ids: seq<PhotoId>, files: Directory)
    requires Ordered(files) && ListsByAccess(ids, files)
    ensures ids == ByAccess(files)
  {
    StampsAreTotal(files);
    forall id
      ensures id in ids <==> id in Ids(files)
    {
      IdsAreNames(files, id);
    }
    hide TotalOn, Ids, Ordered, InOrder;
    forall i, j | 0 <= i < j < |ids|
      ensures ByStamp(files)(ids[i], ids[j]) && ids[i] != ids[j]
    {
      assert Earlier(files, ids[i], ids[j]);
    }
    ListingIsUnique(ids, Ids(files), ByStamp(files));
  }

  lemma ByAccessIsListed(files: Directory)
    requires Ordered(files)
    ensures ListsByAccess(ByAccess(files), files)
  {
    hide TotalOn, InOrder, Ids;
    var ids := ByAccess(files);
    forall id
      ensures id in ids <==> Jpg(id) in files
    {
      IdsAreNames(files, id);
    }
    forall i, j | 0 <= i < j < |ids|
      ensures Earlier(files, ids[i], ids[j])
    {
      assert ids[i] in ids && ids[j] in ids;
      assert ByStamp(files)(ids[i], ids[j]);
    }
  }

  function WithoutAll(files: Directory, ids: seq<PhotoId>): Directory {
    map name | name in files && !(name.Jpg? && name.id in ids) :: files[name]
  }

  function Evicted(files: Directory, max: nat): Directory
    requires Ordered(files)
  {
    var ids := ByAccess(files);
    if |ids| <= max then files else WithoutAll(files, ids[..|ids| - max])
  }

  /** When the file a photo is written to was last accessed: rewriting a temporary
      file that a crash left behind does not count as accessing it. */
  function StampOf(d: Disk, id: PhotoId): nat {
    if JpgTmp(id) in d.files then d.files[JpgTmp(id)].atime else d.clock
  }

  /** The temporary file written and renamed into place. */
  function Placed(d: Disk, id: PhotoId, data: seq<Byte>): Directory {
    (d.files - {JpgTmp(id)})[Jpg(id) := File(data, StampOf(d, id))]
  }

  lemma PlacedIsStamped(d: Disk, id: PhotoId, data: seq<Byte>)
    requires Stamped(d)
    ensures Stamped(Disk(Placed(d, id, data), d.clock + 1)) && Ordered(Placed(d, id, data))
  {
  }

  lemma StampedIsOrdered(d: Disk)
    requires Stamped(d)
    ensures Ordered(d.files)
  {
  }

  class PhotoStore {
    const maxEntries: nat
    var files: Directory
    var clock: nat

    function State(): Disk
      reads this
    {
      Disk(files, clock)
    }

    constructor (maxEntries: nat)
      ensures State() == Disk(map[], 0) && this.maxEntries == maxEntries
    {
      this.maxEntries, files, clock := maxEntries, map[], 0;
    }

    method Read(id: PhotoId) returns (r: Option<seq<Byte>>)
      modifies this
      ensures State() == Touched(old(State()), id)
      ensures r == if Jpg(id) in old(files) then Some(old(files)[Jpg(id)].data) else None
    {
      if Jpg(id) !in files {
        return None;
      }
      files := files[Jpg(id) := files[Jpg(id)].(atime := clock)];
      clock := clock + 1;
      r := Some(files[Jpg(id)].data);
    }

    method Put(id: PhotoId, data: seq<Byte>)
      requires Stamped(State())
      modifies this
      ensures Stamped(State())
      ensures clock == old(clock) + 1
      ensures Ordered(Placed(old(State()), id, data))
      ensures files == Evicted(Placed(old(State()), id, data), maxEntries)
    {
      PlacedIsStamped(State(), id, data);
      ghost var placed := Placed(State(), id, data);
      var tmp := JpgTmp(id);
      if tmp in files {
        files := files[tmp := files[tmp].(data := data)];
      } else {
        files := files[tmp := File(data, clock)];
      }
      clock := clock + 1;
      files := (files - {tmp})[Jpg(id) := files[tmp]];
      assert files == placed;
      EvictIfNeeded();
    }

    method EvictIfNeeded()
      requires Stamped(State())
      modifies this`files
      ensures Ordered(old(files)) && files == Evicted(old(files), maxEntries)
      ensures Stamped(State())
    {
      StampedIsOrdered(State());
      var entries := ByAccess(files);
      if |entries| <= maxEntries {
        return;
      }
      var excess := |entries| - maxEntries;
      hide ByAccess, Ordered;
      ghost var start := files;
      assert files == WithoutAll(start, entries[..0]);
      for i := 0 to excess
        invariant files == WithoutAll(start, entries[..i])
      {
        files := files - {Jpg(entries[i])};
        OneMoreGone(start, entries, i);
      }
    }
  }

  lemma OneMoreGone(files: Directory, ids: seq<PhotoId>, i: nat)
    requires i < |ids|
    ensures WithoutAll(files, ids[..i + 1]) == WithoutAll(files, ids[..i]) - {Jpg(ids[i])}
  {
    assert ids[..i + 1] == ids[..i] + [ids[i]];
  }

  function Touched(d: Disk, id: PhotoId): Disk {
    if Jpg(id) !in d.files then d
    else Disk(d.files[Jpg(id) := d.files[Jpg(id)].(atime := d.clock)], d.clock + 1)
  }

  // The abstract least-recently-used list, oldest first.

  function Without(order: seq<PhotoId>, id: PhotoId): (rest: seq<PhotoId>)
    ensures id !in order ==> rest == order
  {
    if order == [] then []
    else (if order[0] == id then [] else [order[0]]) + Without(order[1..], id)
  }

  function LruTrim<T>(order: seq<T>, max: nat): seq<T> {
    if |order| <= max then order else order[|order| - max..]
  }

  /** A photo and its bytes. */
  type Held = (PhotoId, seq<Byte>)

  function Removed(held: seq<Held>, id: PhotoId): seq<Held> {
    if held == [] then []
    else (if held[0].0 == id then [] else [held[0]]) + Removed(held[1..], id)
  }

  function Find(held: seq<Held>, id: PhotoId): Option<seq<Byte>> {
    if held == [] then None
    else if held[0].0 == id then Some(held[0].1)
    else Find(held[1..], id)
  }

  function LruTouch(held: seq<Held>, id: PhotoId): seq<Held> {
    match Find(held, id)
    case None => held
    case Some(data) => Removed(held, id) + [(id, data)]
  }

  function LruPut(held: seq<Held>, id: PhotoId, data: seq<Byte>, max: nat): seq<Held> {
    LruTrim(Removed(held, id) + [(id, data)], max)
  }

  lemma {:induction false} WithoutMembers(order: seq<PhotoId>, id: PhotoId)
    ensures forall other :: other in Without(order, id) <==> other in order && other != id
  {
    if order != [] {
      assert order == [order[0]] + order[1..];
      WithoutMembers(order[1..], id);
    }
  }

  lemma {:induction false} WithoutIsIncreasing(order: seq<PhotoId>, files: Directory, id: PhotoId)
    requires Increasing(order, files)
    ensures Increasing(Without(order, id), files)
  {
    hide Earlier;
    if order != [] {
      var tail := order[1..];
      assert Increasing(tail, files) by {
        forall i, j | 0 <= i < j < |tail|
          ensures Earlier(files, tail[i], tail[j])
        {
          assert tail[i] == order[i + 1] && tail[j] == order[j + 1];
        }
      }
      WithoutIsIncreasing(tail, files, id);
      WithoutMembers(tail, id);
      var rest := Without(tail, id);
      forall j | 0 <= j < |rest|
        ensures Earlier(files, order[0], rest[j])
      {
        assert rest[j] in rest;
        var k :| 0 <= k < |tail| && tail[k] == rest[j];
        assert order[k + 1] == rest[j];
      }
    }
  }

  lemma IncreasingPlusNewest(kept: seq<PhotoId>, files: Directory, after: Directory, id: PhotoId)
    requires Increasing(kept, files) && Jpg(id) in after
    requires forall other :: other in kept ==>
      Jpg(other) in after && Jpg(other) in files && after[Jpg(other)] == files[Jpg(other)]
      && after[Jpg(other)].atime < after[Jpg(id)].atime
    ensures Increasing(kept + [id], after)
  {
    var all := kept + [id];
    forall i, j | 0 <= i < j < |all|
      ensures Earlier(after, all[i], all[j])
    {
      assert all[i] == kept[i] && kept[i] in kept;
      if j < |kept| {
        assert kept[j] in kept;
        assert Earlier(files, kept[i], kept[j]);
      }
    }
  }

  /** A stamp later than that of every other photo. */
  ghost predicate Newest(files: Directory, id: PhotoId, stamp: nat) {
    forall other :: other != id && Jpg(other) in files ==> files[Jpg(other)].atime < stamp
  }

  /** `after` is `d` with one photo stamped later than the others, and perhaps a temporary file gone. */
  ghost predicate FreshlyStamped(d: Disk, id: PhotoId, after: Directory) {
    && Jpg(id) in after && Newest(after, id, after[Jpg(id)].atime)
    && (forall other :: other != id ==> (Jpg(other) in after <==> Jpg(other) in d.files))
    && (forall other :: other != id && Jpg(other) in after ==> after[Jpg(other)] == d.files[Jpg(other)])
  }

  /** Stamping a photo with the latest stamp moves it to the end of the list. */
  lemma NewestGoesLast(d: Disk, id: PhotoId, after: Directory)
    requires Stamped(d) && FreshlyStamped(d, id, after)
    ensures Ordered(d.files) && Ordered(after)
    ensures ByAccess(after) == Without(ByAccess(d.files), id) + [id]
  {
    StampedIsOrdered(d);
    assert Ordered(after);
    var order := ByAccess(d.files);
    hide ByAccess;
    ByAccessIsListed(d.files);
    WithoutIsIncreasing(order, d.files, id);
    WithoutMembers(order, id);
    var kept := Without(order, id);
    hide Without, Ordered;
    IncreasingPlusNewest(kept, d.files, after, id);
    assert forall other :: other in kept + [id] <==> other in kept || other == id;
    ListedIsByAccess(kept + [id], after);
  }

  lemma SuffixIsIncreasing(order: seq<PhotoId>, files: Directory, after: Directory, k: nat)
    requires Increasing(order, files) && k <= |order|
    requires forall id :: id in order[k..] ==>
      Jpg(id) in files && Jpg(id) in after && after[Jpg(id)] == files[Jpg(id)]
    ensures Increasing(order[k..], after)
  {
    var kept := order[k..];
    forall i, j | 0 <= i < j < |kept|
      ensures Earlier(after, kept[i], kept[j])
    {
      assert kept[i] == order[k + i] && kept[j] == order[k + j];
      assert kept[i] in kept && kept[j] in kept;
      assert Earlier(files, order[k + i], order[k + j]);
    }
  }

  lemma DistinctSuffix(order: seq<PhotoId>, files: Directory, k: nat)
    requires Increasing(order, files) && k <= |order|
    ensures forall id :: id in order[k..] ==> id !in order[..k]
  {
    forall i, j | 0 <= i < |order[k..]| && 0 <= j < k
      ensures order[k..][i] != order[..k][j]
    {
      assert Earlier(files, order[j], order[k + i]);
    }
  }

  lemma EvictionDropsTheOldest(files: Directory, max: nat)
    requires Ordered(files)
    ensures Ordered(Evicted(files, max))
    ensures ByAccess(Evicted(files, max)) == LruTrim(ByAccess(files), max)
  {
    var order := ByAccess(files);
    var after := Evicted(files, max);
    if |order| > max {
      var k := |order| - max;
      assert after == WithoutAll(files, order[..k]);
      ByAccessIsListed(files);
      hide ByAccess, Evicted, Ordered;
      DistinctSuffix(order, files, k);
      assert forall id :: id in order <==> id in order[..k] || id in order[k..] by {
        assert order == order[..k] + order[k..];
      }
      SuffixIsIncreasing(order, files, after, k);
      ListedIsByAccess(order[k..], after);
    }
  }

  // Runs, with crashes at the awkward moments.

  datatype Event =
    | Put(id: PhotoId, data: seq<Byte>)
    | Read(id: PhotoId)
    | CrashWhileWriting(id: PhotoId, part: seq<Byte>)
    | CrashBeforeEviction(id: PhotoId, data: seq<Byte>)

  function After(d: Disk, e: Event, max: nat): Disk
    requires Stamped(d)
  {
    match e
    case Put(id, data) => PlacedIsStamped(d, id, data); Disk(Evicted(Placed(d, id, data), max), d.clock + 1)
    case Read(id) => Touched(d, id)
    case CrashWhileWriting(id, part) =>
      Disk(d.files[JpgTmp(id) := File(part, StampOf(d, id))], d.clock + 1)
    case CrashBeforeEviction(id, data) => Disk(Placed(d, id, data), d.clock + 1)
  }

  function LruAfter(held: seq<Held>, e: Event, max: nat): seq<Held> {
    match e
    case Put(id, data) => LruPut(held, id, data, max)
    case Read(id) => LruTouch(held, id)
    case CrashWhileWriting(_, _) => held
    case CrashBeforeEviction(id, data) => Removed(held, id) + [(id, data)]
  }

  /** A put gives its photo the latest stamp: either it meets no temporary file that a
      crash left behind, or no other photo was used since. Nothing shows in a store
      that keeps no photos. */
  ghost predicate StampsNewest(d: Disk, e: Event, max: nat) {
    (e.Put? && max > 0) || e.CrashBeforeEviction? ==> Newest(d.files, e.id, StampOf(d, e.id))
  }


  lemma AfterIsStamped(d: Disk, e: Event, max: nat)
    requires Stamped(d)
    ensures Stamped(After(d, e, max))
  {
    match e
    case Put(id, data) => PlacedIsStamped(d, id, data);
    case _ =>
  }

  lemma PlacedIsFresh(d: Disk, id: PhotoId, data: seq<Byte>)
    requires Newest(d.files, id, StampOf(d, id))
    ensures FreshlyStamped(d, id, Placed(d, id, data))
  {
  }

  ghost predicate AllIn(ids: seq<PhotoId>, files: Directory) {
    forall id :: id in ids ==> Jpg(id) in files
  }

  function HeldIn(ids: seq<PhotoId>, files: Directory): (held: seq<Held>)
    requires AllIn(ids, files)
    ensures |held| == |ids|
  {
    seq(|ids|, i requires 0 <= i < |ids| => (assert ids[i] in ids; (ids[i], files[Jpg(ids[i])].data)))
  }

  /** What the store holds, least recently used first: the photos and their bytes. */
  ghost function Contents(files: Directory): seq<Held>
    requires Ordered(files)
  {
    ByAccessIsListed(files);
    HeldIn(ByAccess(files), files)
  }

  /** `after` has the bytes of `files` for all of `ids`. */
  ghost predicate SameBytes(ids: seq<PhotoId>, files: Directory, after: Directory) {
    forall id :: id in ids ==> Jpg(id) in files && Jpg(id) in after && after[Jpg(id)].data == files[Jpg(id)].data
  }

  lemma HeldFirst(ids: seq<PhotoId>, files: Directory)
    requires AllIn(ids, files) && ids != []
    ensures Jpg(ids[0]) in files && AllIn(ids[1..], files)
    ensures HeldIn(ids, files) == [(ids[0], files[Jpg(ids[0])].data)] + HeldIn(ids[1..], files)
  {
    assert ids == [ids[0]] + ids[1..];
    assert ids[0] in ids;
  }

  lemma RemovedFirst(first: Held, rest: seq<Held>, id: PhotoId)
    ensures Removed([first] + rest, id) == (if first.0 == id then [] else [first]) + Removed(rest, id)
  {
    assert ([first] + rest)[1..] == rest;
  }

  lemma {:induction false} HeldWithout(ids: seq<PhotoId>, files: Directory, after: Directory, id: PhotoId)
    requires AllIn(ids, files) && SameBytes(Without(ids, id), files, after)
    ensures AllIn(Without(ids, id), after)
    ensures HeldIn(Without(ids, id), after) == Removed(HeldIn(ids, files), id)
  {
    if ids != [] {
      var rest := Without(ids[1..], id);
      assert Without(ids, id) == (if ids[0] == id then [] else [ids[0]]) + rest;
      assert forall other :: other in rest ==> other in Without(ids, id);
      hide Without, Removed, HeldIn;
      HeldFirst(ids, files);
      HeldWithout(ids[1..], files, after, id);
      RemovedFirst((ids[0], files[Jpg(ids[0])].data), HeldIn(ids[1..], files), id);
      if ids[0] != id {
        assert Without(ids, id) == [ids[0]] + rest;
        assert ids[0] in Without(ids, id);
        HeldFirst(Without(ids, id), after);
      } else {
        assert Without(ids, id) == rest;
      }
    }
  }

  lemma {:induction false} FindHeld(ids: seq<PhotoId>, files: Directory, id: PhotoId)
    requires AllIn(ids, files)
    ensures Find(HeldIn(ids, files), id) == if id in ids then Some(files[Jpg(id)].data) else None
  {
    if ids != [] {
      assert HeldIn(ids, files)[1..] == HeldIn(ids[1..], files);
      FindHeld(ids[1..], files, id);
      assert ids == [ids[0]] + ids[1..];
    }
  }

  lemma ListedAreIn(ids: seq<PhotoId>, files: Directory)
    requires ListsByAccess(ids, files)
    ensures AllIn(ids, files)
  {
    hide Increasing;
  }

  lemma ContentsIs(files: Directory)
    requires Ordered(files)
    ensures AllIn(ByAccess(files), files) && Contents(files) == HeldIn(ByAccess(files), files)
  {
    ByAccessIsListed(files);
    hide ByAccess, Ordered;
    ListedAreIn(ByAccess(files), files);
  }

  lemma HeldAtTheEnd(order: seq<PhotoId>, files: Directory, after: Directory, id: PhotoId)
    requires AllIn(order, files) && SameBytes(Without(order, id), files, after) && Jpg(id) in after
    ensures AllIn(Without(order, id) + [id], after)
    ensures HeldIn(Without(order, id) + [id], after)
         == Removed(HeldIn(order, files), id) + [(id, after[Jpg(id)].data)]
  {
    HeldWithout(order, files, after, id);
    hide Without, Removed;
    var kept := Without(order, id);
    forall other | other in kept + [id]
      ensures Jpg(other) in after
    {
      assert other in kept || other == id;
    }
    assert HeldIn(kept + [id], after) == HeldIn(kept, after) + [(id, after[Jpg(id)].data)];
  }

  /** Moving a photo to the end of the list, with the bytes it now has. */
  lemma StampedContents(files: Directory, after: Directory, id: PhotoId)
    requires Ordered(files) && Ordered(after) && Jpg(id) in after
    requires ByAccess(after) == Without(ByAccess(files), id) + [id]
    requires SameBytes(Without(ByAccess(files), id), files, after)
    ensures Contents(after) == Removed(Contents(files), id) + [(id, after[Jpg(id)].data)]
  {
    hide *;
    ContentsIs(files);
    ContentsIs(after);
    HeldAtTheEnd(ByAccess(files), files, after, id);
  }

  lemma HeldTrimmed(order: seq<PhotoId>, files: Directory, after: Directory, max: nat)
    requires AllIn(order, files) && AllIn(LruTrim(order, max), after)
    requires SameBytes(LruTrim(order, max), files, after)
    ensures HeldIn(LruTrim(order, max), after) == LruTrim(HeldIn(order, files), max)
  {
    var kept := LruTrim(order, max);
    assert forall i :: 0 <= i < |kept| ==> kept[i] in kept;
  }

  lemma EvictionKeepsBytes(files: Directory, max: nat, ids: seq<PhotoId>)
    requires Ordered(files) && AllIn(ids, Evicted(files, max))
    ensures SameBytes(ids, files, Evicted(files, max))
  {
  }

  lemma TrimmedContents(files: Directory, max: nat)
    requires Ordered(files)
    ensures Ordered(Evicted(files, max))
    ensures Contents(Evicted(files, max)) == LruTrim(Contents(files), max)
  {
    hide *;
    EvictionDropsTheOldest(files, max);
    ContentsIs(files);
    ContentsIs(Evicted(files, max));
    EvictionKeepsBytes(files, max, LruTrim(ByAccess(files), max));
    HeldTrimmed(ByAccess(files), files, Evicted(files, max), max);
  }

  lemma PlacedGoesLast(d: Disk, id: PhotoId, data: seq<Byte>)
    requires Stamped(d) && Newest(d.files, id, StampOf(d, id))
    ensures Ordered(d.files) && Ordered(Placed(d, id, data))
    ensures Contents(Placed(d, id, data)) == Removed(Contents(d.files), id) + [(id, data)]
  {
    PlacedIsFresh(d, id, data);
    PlacedIsStamped(d, id, data);
    StampedIsOrdered(d);
    ByAccessIsListed(d.files);
    WithoutMembers(ByAccess(d.files), id);
    var placed := Placed(d, id, data);
    assert SameBytes(Without(ByAccess(d.files), id), d.files, placed);
    assert placed[Jpg(id)].data == data;
    hide Without, Removed, LruTrim, ByAccess, Evicted, Placed, Ordered, Contents;
    NewestGoesLast(d, id, placed);
    StampedContents(d.files, placed, id);
  }

  /** Only a photo with the latest stamp is listed last. */
  lemma LastIsNewest(files: Directory, id: PhotoId)
    requires Ordered(files) && Jpg(id) in files
    requires |Contents(files)| > 0 && Contents(files)[|Contents(files)| - 1].0 == id
    ensures Newest(files, id, files[Jpg(id)].atime)
  {
    ContentsIs(files);
    ByAccessIsListed(files);
    var order := ByAccess(files);
    hide ByAccess, Ordered, Contents;
    forall other | other != id && Jpg(other) in files
      ensures files[Jpg(other)].atime < files[Jpg(id)].atime
    {
      var i :| 0 <= i < |order| && order[i] == other;
      assert Earlier(files, order[i], order[|order| - 1]);
    }
  }

  /** Trimmed to a limit, both lists end the way they did. */
  lemma TrimKeepsLast<T>(held: seq<T>, max: nat)
    requires held != [] && max > 0
    ensures LruTrim(held, max) != [] && LruTrim(held, max)[|LruTrim(held, max)| - 1] == held[|held| - 1]
  {
  }

  lemma PlacedKeepsOthers(d: Disk, id: PhotoId, data: seq<Byte>)
    ensures Jpg(id) in Placed(d, id, data) && Placed(d, id, data)[Jpg(id)].atime == StampOf(d, id)
    ensures forall stamp :: Newest(Placed(d, id, data), id, stamp) <==> Newest(d.files, id, stamp)
  {
    var placed := Placed(d, id, data);
    assert forall other :: other != id ==> (Jpg(other) in placed <==> Jpg(other) in d.files);
    assert forall other :: other != id && Jpg(other) in placed ==> placed[Jpg(other)] == d.files[Jpg(other)];
  }

  lemma NotNewestIsNotLast(d: Disk, id: PhotoId, data: seq<Byte>)
    requires Stamped(d) && !Newest(d.files, id, StampOf(d, id))
    ensures Ordered(Placed(d, id, data))
    ensures var held := Contents(Placed(d, id, data)); held != [] && held[|held| - 1].0 != id
  {
    PlacedIsStamped(d, id, data);
    PlacedKeepsOthers(d, id, data);
    var placed := Placed(d, id, data);
    ByAccessIsListed(placed);
    ContentsIs(placed);
    hide Newest, Placed, Contents, Ordered, ByAccess;
    assert id in ByAccess(placed);
    if Contents(placed)[|Contents(placed)| - 1].0 == id {
      LastIsNewest(placed, id);
    }
  }

  /** A photo put in place joins the end of the list exactly when its stamp is the latest. */
  lemma PlacedGoesLastExactly(d: Disk, id: PhotoId, data: seq<Byte>)
    requires Stamped(d)
    ensures Ordered(d.files) && Ordered(Placed(d, id, data))
    ensures Contents(Placed(d, id, data)) == Removed(Contents(d.files), id) + [(id, data)]
       <==> Newest(d.files, id, StampOf(d, id))
  {
    hide Contents, Removed, Placed, Newest, StampOf;
    PlacedIsStamped(d, id, data);
    StampedIsOrdered(d);
    if Newest(d.files, id, StampOf(d, id)) {
      PlacedGoesLast(d, id, data);
    } else {
      NotNewestIsNotLast(d, id, data);
    }
  }

  /** A whole put is that of an abstract least-recently-used list exactly when the
      stamp is the latest, or when no photos are kept at all. */
  lemma PutIsLruExactly(d: Disk, id: PhotoId, data: seq<Byte>, max: nat)
    requires Stamped(d)
    ensures Ordered(d.files) && Ordered(Placed(d, id, data)) && Ordered(Evicted(Placed(d, id, data), max))
    ensures Contents(Evicted(Placed(d, id, data), max)) == LruPut(Contents(d.files), id, data, max)
       <==> max == 0 || Newest(d.files, id, StampOf(d, id))
  {
    hide Contents, Removed, Placed, Newest, StampOf, Evicted, LruTrim;
    PlacedGoesLastExactly(d, id, data);
    TrimmedContents(Placed(d, id, data), max);
    var placed := Contents(Placed(d, id, data));
    var listed := Removed(Contents(d.files), id) + [(id, data)];
    if max == 0 {
      NothingKept(placed);
      NothingKept(listed);
    } else if !Newest(d.files, id, StampOf(d, id)) {
      NotNewestIsNotLast(d, id, data);
      TrimKeepsLast(placed, max);
      TrimKeepsLast(listed, max);
    }
  }

  lemma NothingKept<T>(held: seq<T>)
    ensures LruTrim(held, 0) == []
  {
  }

  /** What `Contents` says: a photo is held with some bytes when its file has them. */
  lemma ContentsAreTheFiles(files: Directory, id: PhotoId)
    requires Ordered(files)
    ensures Find(Contents(files), id) == if Jpg(id) in files then Some(files[Jpg(id)].data) else None
  {
    ByAccessIsListed(files);
    FindHeld(ByAccess(files), files, id);
  }

  lemma TouchIsFresh(d: Disk, id: PhotoId)
    requires Stamped(d) && Jpg(id) in d.files
    ensures var after := Touched(d, id).files;
      && FreshlyStamped(d, id, after) && after[Jpg(id)].data == d.files[Jpg(id)].data
      && forall ids :: AllIn(ids, d.files) ==> SameBytes(ids, d.files, after)
  {
  }

  lemma ReadIsLru(d: Disk, id: PhotoId)
    requires Stamped(d)
    ensures Ordered(d.files) && Ordered(Touched(d, id).files)
    ensures Contents(Touched(d, id).files) == LruTouch(Contents(d.files), id)
  {
    StampedIsOrdered(d);
    ContentsAreTheFiles(d.files, id);
    if Jpg(id) in d.files {
      TouchIsFresh(d, id);
      ByAccessIsListed(d.files);
      WithoutMembers(ByAccess(d.files), id);
      hide Without, ByAccess, Ordered, Removed, Contents, FreshlyStamped, SameBytes, Touched, Stamped, Increasing;
      NewestGoesLast(d, id, Touched(d, id).files);
      StampedContents(d.files, Touched(d, id).files, id);
    }
  }

  /** Every event acts on the list it should exactly when it stamps its photo newest. */
  lemma AfterIsLruExactly(d: Disk, e: Event, max: nat)
    requires Stamped(d)
    ensures Stamped(After(d, e, max)) && Ordered(d.files) && Ordered(After(d, e, max).files)
    ensures Contents(After(d, e, max).files) == LruAfter(Contents(d.files), e, max) <==> StampsNewest(d, e, max)
  {
    AfterIsStamped(d, e, max);
    StampedIsOrdered(d);
    StampedIsOrdered(After(d, e, max));
    hide *;
    match e
    case Put(id, data) => PutActsOnTheList(d, id, data, max);
    case CrashBeforeEviction(id, data) => CutPutActsOnTheList(d, id, data, max);
    case Read(id) => ReadActsOnTheList(d, id, max);
    case CrashWhileWriting(id, part) => CutKeepsTheList(d, id, part, max);
  }

  lemma PutActsOnTheList(d: Disk, id: PhotoId, data: seq<Byte>, max: nat)
    requires Stamped(d) && Ordered(d.files) && Ordered(After(d, Put(id, data), max).files)
    ensures Contents(After(d, Put(id, data), max).files) == LruAfter(Contents(d.files), Put(id, data), max)
       <==> StampsNewest(d, Put(id, data), max)
  {
    hide Stamped, Ordered, ByAccess, Evicted, Placed, Contents, LruPut, StampOf, Newest;
    PutIsLruExactly(d, id, data, max);
  }

  lemma CutPutActsOnTheList(d: Disk, id: PhotoId, data: seq<Byte>, max: nat)
    requires Stamped(d) && Ordered(d.files) && Ordered(After(d, CrashBeforeEviction(id, data), max).files)
    ensures Contents(After(d, CrashBeforeEviction(id, data), max).files)
              == LruAfter(Contents(d.files), CrashBeforeEviction(id, data), max)
       <==> StampsNewest(d, CrashBeforeEviction(id, data), max)
  {
    hide Stamped, Ordered, ByAccess, Evicted, Placed, Contents, Removed, StampOf, Newest;
    PlacedGoesLastExactly(d, id, data);
  }

  lemma ReadActsOnTheList(d: Disk, id: PhotoId, max: nat)
    requires Stamped(d) && Ordered(d.files) && Ordered(After(d, Read(id), max).files)
    ensures Contents(After(d, Read(id), max).files) == LruAfter(Contents(d.files), Read(id), max)
    ensures StampsNewest(d, Read(id), max)
  {
    hide Stamped, Ordered, ByAccess, Touched, Contents, LruTouch;
    ReadIsLru(d, id);
  }

  lemma CutKeepsTheList(d: Disk, id: PhotoId, part: seq<Byte>, max: nat)
    requires Stamped(d) && Ordered(d.files) && Ordered(After(d, CrashWhileWriting(id, part), max).files)
    ensures Contents(After(d, CrashWhileWriting(id, part), max).files)
              == LruAfter(Contents(d.files), CrashWhileWriting(id, part), max)
    ensures StampsNewest(d, CrashWhileWriting(id, part), max)
  {
    hide Stamped, Ordered, ByAccess, Contents, StampOf;
    SamePhotosSameOrder(d.files, d.files[JpgTmp(id) := File(part, StampOf(d, id))]);
  }

  lemma SamePhotosSameOrder(files: Directory, after: Directory)
    requires Ordered(files) && Ordered(after)
    requires forall id :: Jpg(id) in files <==> Jpg(id) in after
    requires forall id :: Jpg(id) in files ==> files[Jpg(id)] == after[Jpg(id)]
    ensures Contents(after) == Contents(files)
  {
    ByAccessIsListed(files);
    var order := ByAccess(files);
    hide *;
    ContentsIs(files);
    ContentsIs(after);
    SameListing(order, files, after);
    ListedIsByAccess(order, after);
    SameHeld(order, files, after);
  }

  lemma SameHeld(ids: seq<PhotoId>, files: Directory, after: Directory)
    requires AllIn(ids, files) && AllIn(ids, after)
    requires forall id :: Jpg(id) in files ==> Jpg(id) in after && files[Jpg(id)] == after[Jpg(id)]
    ensures HeldIn(ids, files) == HeldIn(ids, after)
  {
    assert forall i :: 0 <= i < |ids| ==> ids[i] in ids;
  }

  lemma SameListing(order: seq<PhotoId>, files: Directory, after: Directory)
    requires ListsByAccess(order, files)
    requires forall id :: Jpg(id) in files <==> Jpg(id) in after
    requires forall id :: Jpg(id) in files ==> files[Jpg(id)] == after[Jpg(id)]
    ensures ListsByAccess(order, after)
  {
    forall i, j | 0 <= i < j < |order|
      ensures Earlier(after, order[i], order[j])
    {
      assert Earlier(files, order[i], order[j]);
    }
  }

  ghost function Run(d: Disk, events: seq<Event>, max: nat): Disk
    requires Stamped(d)
    decreases |events|
  {
    if events == [] then d
    else
      AfterIsStamped(d, events[0], max);
      Run(After(d, events[0], max), events[1..], max)
  }

  ghost predicate AllStampNewest(d: Disk, events: seq<Event>, max: nat)
    requires Stamped(d)
    decreases |events|
  {
    events == [] ||
    (StampsNewest(d, events[0], max)
     && (AfterIsStamped(d, events[0], max); AllStampNewest(After(d, events[0], max), events[1..], max)))
  }

  /** At every moment of the run the store holds what the list holds. */
  ghost predicate Tracks(d: Disk, held: seq<Held>, events: seq<Event>, max: nat)
    requires Stamped(d)
    decreases |events|
  {
    StampedIsOrdered(d);
    && Contents(d.files) == held
    && (events == [] ||
        (AfterIsStamped(d, events[0], max);
         Tracks(After(d, events[0], max), LruAfter(held, events[0], max), events[1..], max)))
  }

  function LruRun(held: seq<Held>, events: seq<Event>, max: nat): seq<Held>
    decreases |events|
  {
    if events == [] then held else LruRun(LruAfter(held, events[0], max), events[1..], max)
  }

  /** Over any run of puts, reads and crashes, the store holds at every moment exactly
      what an abstract list holds (the same photos, with the bytes last put, in the
      same order), if and only if every put gives its photo the latest stamp. */
  lemma {:induction false} StoreIsLru(d: Disk, events: seq<Event>, max: nat)
    requires Stamped(d)
    ensures Ordered(d.files)
    ensures Tracks(d, Contents(d.files), events, max) <==> AllStampNewest(d, events, max)
    decreases |events|
  {
    hide After, LruAfter, Stamped, StampsNewest, Contents;
    StampedIsOrdered(d);
    if events != [] {
      var next := After(d, events[0], max);
      AfterIsLruExactly(d, events[0], max);
      StoreIsLru(next, events[1..], max);
      if !StampsNewest(d, events[0], max) {
        TracksItsContents(next, LruAfter(Contents(d.files), events[0], max), events[1..], max);
      }
    }
  }

  lemma TracksItsContents(d: Disk, held: seq<Held>, events: seq<Event>, max: nat)
    requires Stamped(d)
    ensures Ordered(d.files)
    ensures Tracks(d, held, events, max) ==> Contents(d.files) == held
  {
    StampedIsOrdered(d);
  }

  predicate NoLeftovers(files: Directory) {
    forall name :: name in files ==> name.Jpg?
  }

  /** So a store in which no write is cut short is always least recently used. */
  lemma {:induction false} WithoutCutsAlwaysNewest(d: Disk, events: seq<Event>, max: nat)
    requires Stamped(d) && NoLeftovers(d.files) && forall e :: e in events ==> !e.CrashWhileWriting?
    ensures AllStampNewest(d, events, max)
    decreases |events|
  {
    hide Stamped, Newest;
    if events != [] {
      assert events == [events[0]] + events[1..];
      AfterIsStamped(d, events[0], max);
      CutsLeaveLeftovers(d, events[0], max);
      WithoutCutsAlwaysNewest(After(d, events[0], max), events[1..], max);
    }
  }

  lemma CutsLeaveLeftovers(d: Disk, e: Event, max: nat)
    requires Stamped(d) && NoLeftovers(d.files) && !e.CrashWhileWriting?
    ensures StampsNewest(d, e, max) && NoLeftovers(After(d, e, max).files)
  {
    if e.Put? {
      PlacedIsStamped(d, e.id, e.data);
    }
  }

  /** In particular at the end. */
  lemma {:induction false} TracksToTheEnd(d: Disk, held: seq<Held>, events: seq<Event>, max: nat)
    requires Stamped(d) && Tracks(d, held, events, max)
    ensures Ordered(Run(d, events, max).files)
    ensures Contents(Run(d, events, max).files) == LruRun(held, events, max)
    decreases |events|
  {
    hide After, LruAfter, Stamped, Contents;
    StampedIsOrdered(d);
    if events != [] {
      AfterIsStamped(d, events[0], max);
      TracksToTheEnd(After(d, events[0], max), LruAfter(held, events[0], max), events[1..], max);
    }
  }

  /** Whether an event puts photo `id` in place, with whatever bytes. */
  predicate Places(e: Event, id: PhotoId) {
    (e.Put? || e.CrashBeforeEviction?) && e.id == id
  }

  /** `data` is what the last of the puts of `id` wrote. */
  ghost predicate LastPut(events: seq<Event>, id: PhotoId, data: seq<Byte>) {
    exists k :: 0 <= k < |events| && Places(events[k], id) && events[k].data == data
             && forall later :: k < later < |events| ==> !Places(events[later], id)
  }

  ghost predicate AllLastPut(files: Directory, events: seq<Event>) {
    forall id :: Jpg(id) in files ==> LastPut(events, id, files[Jpg(id)].data)
  }

  lemma LastPutBefore(before: seq<Event>, e: Event, id: PhotoId, data: seq<Byte>)
    requires if Places(e, id) then e.data == data else LastPut(before, id, data)
    ensures LastPut(before + [e], id, data)
  {
    var events := before + [e];
    if Places(e, id) {
      assert events[|before|] == e;
    } else {
      var k :| 0 <= k < |before| && Places(before[k], id) && before[k].data == data
            && forall later :: k < later < |before| ==> !Places(before[later], id);
      assert events[k] == before[k];
    }
  }

  /** Over every run, whatever crashes leave behind, each photo that can be seen is
      whole, and is the one last put: a half-written file never shows up as one. */
  lemma {:induction false} PhotosAreWhole(events: seq<Event>, max: nat)
    ensures Stamped(Disk(map[], 0))
    ensures AllLastPut(Run(Disk(map[], 0), events, max).files, events)
    decreases |events|
  {
    if events != [] {
      var before, e := events[..|events| - 1], events[|events| - 1];
      assert events == before + [e];
      PhotosAreWhole(before, max);
      RunAppend(Disk(map[], 0), before, e, max);
      hide LastPut, After, Run, Stamped;
      var d := Run(Disk(map[], 0), before, max);
      forall id | Jpg(id) in After(d, e, max).files
        ensures LastPut(events, id, After(d, e, max).files[Jpg(id)].data)
      {
        WhereItCameFrom(d, e, max, id);
        LastPutBefore(before, e, id, After(d, e, max).files[Jpg(id)].data);
      }
    }
  }

  lemma {:induction false} RunAppend(d: Disk, events: seq<Event>, e: Event, max: nat)
    requires Stamped(d)
    ensures Stamped(Run(d, events, max))
    ensures Run(d, events + [e], max) == After(Run(d, events, max), e, max)
    decreases |events|
  {
    hide After;
    if events == [] {
      assert events + [e] == [e];
      assert [e][1..] == [];
      AfterIsStamped(d, e, max);
      assert Run(After(d, e, max), [], max) == After(d, e, max);
    } else {
      assert (events + [e])[1..] == events[1..] + [e];
      AfterIsStamped(d, events[0], max);
      RunAppend(After(d, events[0], max), events[1..], e, max);
    }
  }

  lemma WhereItCameFrom(d: Disk, e: Event, max: nat, id: PhotoId)
    requires Stamped(d) && Jpg(id) in After(d, e, max).files
    ensures var data := After(d, e, max).files[Jpg(id)].data;
      if Places(e, id) then e.data == data else Jpg(id) in d.files && d.files[Jpg(id)].data == data
  {
    if e.Put? {
      PlacedIsStamped(d, e.id, e.data);
    }
  }

  /** A completed put leaves the store within its limit. */
  lemma PutStaysWithinLimit(d: Disk, id: PhotoId, data: seq<Byte>, max: nat)
    requires Stamped(d)
    ensures |Ids(After(d, Put(id, data), max).files)| <= max
  {
    PlacedIsStamped(d, id, data);
    EvictionDropsTheOldest(Placed(d, id, data), max);
  }

  /** The other photos last used before the moment `stamp`. */
  function OlderThan(files: Directory, id: PhotoId, stamp: nat): set<PhotoId> {
    set other | other in Ids(files) && other != id && Jpg(other) in files && files[Jpg(other)].atime < stamp
  }

  lemma NotEarlierThanBefore(order: seq<PhotoId>, files: Directory, i: nat, k: nat)
    requires Increasing(order, files) && i < |order| && k < |order|
    ensures Earlier(files, order[i], order[k]) ==> i < k
  {
    if k < i {
      assert Earlier(files, order[k], order[i]);
    }
  }

  lemma ListedBefore(order: seq<PhotoId>, files: Directory, k: nat)
    requires ListsByAccess(order, files) && k < |order|
    ensures forall other :: other in order[..k] <==> Jpg(other) in files && Earlier(files, other, order[k])
    ensures Distinct(order[..k])
  {
    var before := order[..k];
    forall i, j | 0 <= i < j < |before|
      ensures before[i] != before[j]
    {
      assert Earlier(files, order[i], order[j]);
    }
    forall other
      ensures other in before <==> Jpg(other) in files && Earlier(files, other, order[k])
    {
      if other in before {
        var i :| 0 <= i < k && before[i] == other;
        assert Earlier(files, order[i], order[k]);
      }
      if Jpg(other) in files && Earlier(files, other, order[k]) {
        assert other in order;
        var i :| 0 <= i < |order| && order[i] == other;
        NotEarlierThanBefore(order, files, i, k);
        assert before[i] == other;
      }
    }
  }

  /** The place of a photo in the listing is the number of photos used before it. */
  lemma PlaceCountsOlder(order: seq<PhotoId>, files: Directory, k: nat)
    requires ListsByAccess(order, files) && k < |order| && Jpg(order[k]) in files
    ensures k == |OlderThan(files, order[k], files[Jpg(order[k])].atime)|
  {
    ListedBefore(order, files, k);
    var older := OlderThan(files, order[k], files[Jpg(order[k])].atime);
    hide ListsByAccess, Distinct;
    forall other
      ensures other in order[..k] <==> other in older
    {
      IdsAreNames(files, other);
    }
    DistinctCount(order[..k]);
    assert Members(order[..k]) == older;
  }

  /** The photo just put survives its own eviction exactly when the photos used
      before its time stamp make up the excess: always, if the limit is not zero
      and no leftover temporary file gave it an older stamp. */
  lemma PutKeepsItsPhotoExactly(d: Disk, id: PhotoId, data: seq<Byte>, max: nat)
    requires Stamped(d)
    ensures Jpg(id) in After(d, Put(id, data), max).files
       <==> |OlderThan(d.files, id, StampOf(d, id))| + max >= |Ids(d.files) + {id}|
    ensures max > 0 && JpgTmp(id) !in d.files ==> Jpg(id) in After(d, Put(id, data), max).files
  {
    PlacedIsStamped(d, id, data);
    PlacedOlder(d, id, data);
    NewestIsAfterAll(d, id);
    var placed := Placed(d, id, data);
    ByAccessIsListed(placed);
    EvictedPlace(placed, id, max);
  }

  /** A run in which a put throws away its own photo: a crash while writing it, then
      another photo, then the same one again, in a store that keeps one. */
  lemma LeftoverLosesThePhoto(a: PhotoId, b: PhotoId, part: seq<Byte>, data: seq<Byte>, other: seq<Byte>)
    requires a != b
    ensures Stamped(Disk(map[], 0))
    ensures var events := [CrashWhileWriting(a, part), Put(b, other)] + [Put(a, data)];
      && Jpg(a) !in Run(Disk(map[], 0), events, 1).files
      && LruRun([], events, 1) == [(a, data)]
  {
    var first, second := CrashWhileWriting(a, part), Put(b, other);
    var start := Disk(map[], 0);
    var crashed := Disk(map[JpgTmp(a) := File(part, 0)], 1);
    assert After(start, first, 1) == crashed;
    SecondIsKept(a, b, part, other);
    TwoEvents(start, first, second, 1);
    RunAppend(start, [first, second], Put(a, data), 1);
    ListAfterAll(a, b, part, data, other);
    var d := Disk(map[JpgTmp(a) := File(part, 0), Jpg(b) := File(other, 1)], 2);
    assert OlderThan(d.files, a, StampOf(d, a)) == {};
    IdsAreNames(d.files, b);
    assert {a, b} <= Ids(d.files) + {a};
    CountsAtLeastTwo(a, b, Ids(d.files) + {a});
    hide After, Run, OlderThan, Evicted;
    PutKeepsItsPhotoExactly(d, a, data, 1);
  }

  lemma CountsAtLeastTwo(a: PhotoId, b: PhotoId, ids: set<PhotoId>)
    requires a != b && {a, b} <= ids
    ensures |ids| >= 2
  {
    assert ids == {a, b} + (ids - {a, b});
  }

  lemma SecondIsKept(a: PhotoId, b: PhotoId, part: seq<Byte>, other: seq<Byte>)
    requires a != b
    ensures var crashed := Disk(map[JpgTmp(a) := File(part, 0)], 1);
      && Stamped(crashed)
      && After(crashed, Put(b, other), 1) == Disk(map[JpgTmp(a) := File(part, 0), Jpg(b) := File(other, 1)], 2)
  {
    var crashed := Disk(map[JpgTmp(a) := File(part, 0)], 1);
    var placed := Placed(crashed, b, other);
    assert placed == map[JpgTmp(a) := File(part, 0), Jpg(b) := File(other, 1)];
    PlacedIsStamped(crashed, b, other);
    PlacedIds(crashed, b, other);
    assert Ids(crashed.files) == {};
    assert Ids(placed) == {b};
    hide ByAccess;
    assert |ByAccess(placed)| == 1;
  }

  lemma TwoEvents(d: Disk, first: Event, second: Event, max: nat)
    requires Stamped(d)
    ensures Stamped(After(d, first, max))
    ensures Run(d, [first, second], max) == After(After(d, first, max), second, max)
  {
    AfterIsStamped(d, first, max);
    hide After, Stamped;
    RunAppend(d, [], first, max);
    RunAppend(d, [first], second, max);
    assert [] + [first] == [first];
    assert [first] + [second] == [first, second];
  }

  lemma ListAfterAll(a: PhotoId, b: PhotoId, part: seq<Byte>, data: seq<Byte>, other: seq<Byte>)
    ensures LruRun([], [CrashWhileWriting(a, part), Put(b, other)] + [Put(a, data)], 1) == [(a, data)]
  {
    var first, second, third := CrashWhileWriting(a, part), Put(b, other), Put(a, data);
    var events := [first, second] + [third];
    assert events[1..] == [second, third] && [second, third][1..] == [third] && [third][1..] == [];
    assert LruAfter([], second, 1) == [(b, other)];
    assert LruTrim(Removed([(b, other)], a) + [(a, data)], 1) == [(a, data)];
    var held := LruAfter([(b, other)], third, 1);
    assert held == [(a, data)];
    hide LruAfter;
    assert LruRun([], events, 1) == LruRun([], [second, third], 1) by { assert LruAfter([], first, 1) == []; }
    assert LruRun([], [second, third], 1) == LruRun([(b, other)], [third], 1);
    assert LruRun([(b, other)], [third], 1) == LruRun(held, [], 1);
  }

  /** A photo is evicted when its place in the listing falls within the excess. */
  lemma EvictedPlace(files: Directory, id: PhotoId, max: nat)
    requires Ordered(files) && Jpg(id) in files
    ensures Jpg(id) in Evicted(files, max)
       <==> |OlderThan(files, id, files[Jpg(id)].atime)| + max >= |Ids(files)|
  {
    ByAccessIsListed(files);
    var order := ByAccess(files);
    assert |order| == |Ids(files)|;
    assert Jpg(id) in Evicted(files, max) <==> |order| <= max || id !in order[..|order| - max];
    hide ByAccess, Ordered, Ids, OlderThan, Evicted;
    assert id in order;
    var k :| 0 <= k < |order| && order[k] == id;
    PlaceCountsOlder(order, files, k);
    if |order| > max {
      var excess := |order| - max;
      DistinctSuffix(order, files, excess);
      if k < excess {
        assert order[..excess][k] == id;
      } else {
        assert order[excess..][k - excess] == id;
      }
    }
  }

  lemma PlacedOlder(d: Disk, id: PhotoId, data: seq<Byte>)
    ensures var placed := Placed(d, id, data);
      && Jpg(id) in placed && placed[Jpg(id)].atime == StampOf(d, id)
      && OlderThan(placed, id, StampOf(d, id)) == OlderThan(d.files, id, StampOf(d, id))
      && Ids(placed) == Ids(d.files) + {id}
  {
    PlacedIds(d, id, data);
  }

  lemma NewestIsAfterAll(d: Disk, id: PhotoId)
    requires Stamped(d)
    ensures JpgTmp(id) !in d.files ==> |OlderThan(d.files, id, StampOf(d, id))| + 1 == |Ids(d.files) + {id}|
  {
    var older := OlderThan(d.files, id, StampOf(d, id));
    if JpgTmp(id) !in d.files {
      forall other
        ensures other in Ids(d.files) + {id} <==> other in older + {id}
      {
        IdsAreNames(d.files, other);
      }
      assert Ids(d.files) + {id} == older + {id};
    }
  }

  lemma PlacedIds(d: Disk, id: PhotoId, data: seq<Byte>)
    ensures Ids(Placed(d, id, data)) == Ids(d.files) + {id}
  {
    var placed := Placed(d, id, data);
    forall other
      ensures other in Ids(placed) <==> other in Ids(d.files) + {id}
    {
      IdsAreNames(placed, other);
      IdsAreNames(d.files, other);
    }
  }
}
