// Dropping ticked folders that lie inside other ticked folders, judged by
// whether one identifier starts with another.
module FolderPruning {
  import opened FiniteSets
  import opened MediaWalk

  predicate HasOuter(chosen: seq<FolderId>, candidate: FolderId) {
    exists other :: other in chosen && other != candidate && other <= candidate
  }

  function Outermost(candidates: seq<FolderId>, chosen: seq<FolderId>): seq<FolderId> {
    if candidates == [] then []
    else (if HasOuter(chosen, candidates[0]) then [] else [candidates[0]]) + Outermost(candidates[1..], chosen)
  }

  function DropRedundantChildren(chosen: seq<FolderId>): seq<FolderId> {
    Outermost(chosen, chosen)
  }

  lemma {:induction false} OutermostMembers(candidates: seq<FolderId>, chosen: seq<FolderId>, id: FolderId)
    ensures id in Outermost(candidates, chosen) <==> id in candidates && !HasOuter(chosen, id)
  {
    if candidates != [] {
      assert candidates == [candidates[0]] + candidates[1..];
      OutermostMembers(candidates[1..], chosen, id);
    }
  }

  /** Every ticked folder is still covered by a kept one that it starts with. */
  lemma {:induction false} SomeKeptPrefix(chosen: seq<FolderId>, id: FolderId) returns (kept: FolderId)
    requires id in chosen
    ensures kept in DropRedundantChildren(chosen) && kept <= id
    decreases |id|
  {
    OutermostMembers(chosen, chosen, id);
    if HasOuter(chosen, id) {
      var other :| other in chosen && other != id && other <= id;
      assert |other| < |id|;
      kept := SomeKeptPrefix(chosen, other);
    } else {
      kept := id;
    }
  }

  /** What is kept: ticked, never inside another ticked folder, and covering all the rest. */
  lemma PruningKeepsTheOutermost(chosen: seq<FolderId>)
    ensures var kept := DropRedundantChildren(chosen);
      && (forall id :: id in kept <==> id in chosen && forall other :: other in chosen ==> !(other < id))
      && (forall id :: id in chosen ==> exists k :: k in kept && k <= id)
      && (chosen == [] <==> kept == [])
  {
    var kept := DropRedundantChildren(chosen);
    forall id
      ensures id in kept <==> id in chosen && forall other :: other in chosen ==> !(other < id)
    {
      OutermostMembers(chosen, chosen, id);
    }
    forall id | id in chosen
      ensures exists k :: k in kept && k <= id
    {
      var k := SomeKeptPrefix(chosen, id);
    }
    if chosen != [] {
      var k := SomeKeptPrefix(chosen, chosen[0]);
    }
  }

  // What pruning does to the photos.

  lemma ReachableThrough(g: Source, starts: seq<FolderId>, middle: FolderId, id: FolderId)
    requires Reachable(g, starts, middle) && Reachable(g, [middle], id)
    ensures Reachable(g, starts, id)
  {
    var there :| IsPath(g, there) && there[0] in starts && there[|there| - 1] == middle;
    var onward :| IsPath(g, onward) && onward[0] in [middle] && onward[|onward| - 1] == id;
    var path := there + onward[1..];
    assert forall i :: |there| <= i < |path| ==> path[i] == onward[i - |there| + 1];
    forall i | 0 <= i < |path| - 1
      ensures Lists(g, path[i], path[i + 1])
    {
      if i >= |there| - 1 {
        assert path[i] == onward[i - |there| + 1];
        assert Lists(g, onward[i - |there| + 1], onward[i - |there| + 2]);
      }
    }
    assert IsPath(g, path);
  }

  lemma MoreStartsReachMore(g: Source, few: seq<FolderId>, many: seq<FolderId>, id: FolderId)
    requires Reachable(g, few, id) && forall start :: start in few ==> start in many
    ensures Reachable(g, many, id)
  {
    var path :| IsPath(g, path) && path[0] in few && path[|path| - 1] == id;
    assert path[0] in many;
  }

  lemma FromSomeStart(g: Source, starts: seq<FolderId>, id: FolderId) returns (start: FolderId)
    requires Reachable(g, starts, id)
    ensures start in starts && Reachable(g, [start], id)
  {
    var path :| IsPath(g, path) && path[0] in starts && path[|path| - 1] == id;
    start := path[0];
    assert path[0] in [start];
  }

  ghost predicate SameReach(g: Source, a: seq<FolderId>, b: seq<FolderId>) {
    forall id :: Reachable(g, a, id) <==> Reachable(g, b, id)
  }

  /** Pruning keeps every folder in reach exactly when each dropped folder can
      still be reached from a kept one. */
  lemma PruningKeepsReachExactly(g: Source, chosen: seq<FolderId>)
    ensures var kept := DropRedundantChildren(chosen);
      SameReach(g, kept, chosen) <==> forall id :: id in chosen && id !in kept ==> Reachable(g, kept, id)
  {
    hide Reachable;
    var kept := DropRedundantChildren(chosen);
    PruningKeepsTheOutermost(chosen);
    if SameReach(g, kept, chosen) {
      forall id | id in chosen
        ensures Reachable(g, kept, id)
      {
        StartIsReachable(g, chosen, id);
      }
    }
    if forall id :: id in chosen && id !in kept ==> Reachable(g, kept, id) {
      forall id
        ensures Reachable(g, kept, id) <==> Reachable(g, chosen, id)
      {
        if Reachable(g, kept, id) {
          MoreStartsReachMore(g, kept, chosen, id);
        }
        if Reachable(g, chosen, id) {
          var start := FromSomeStart(g, chosen, id);
          if start in kept {
            StartIsReachable(g, kept, start);
          }
          ReachableThrough(g, kept, start, id);
        }
      }
    }
  }

  /** Identifiers in this source mean what pruning takes them to mean. */
  ghost predicate PrefixMeansInside(g: Source, chosen: seq<FolderId>) {
    forall outer, inner :: outer in chosen && inner in chosen && outer < inner ==> Reachable(g, [outer], inner)
  }

  lemma PruningKeepsReach(g: Source, chosen: seq<FolderId>)
    requires PrefixMeansInside(g, chosen)
    ensures SameReach(g, DropRedundantChildren(chosen), chosen)
  {
    hide Reachable;
    var kept := DropRedundantChildren(chosen);
    PruningKeepsTheOutermost(chosen);
    PruningKeepsReachExactly(g, chosen);
    forall id | id in chosen && id !in kept
      ensures Reachable(g, kept, id)
    {
      var k := SomeKeptPrefix(chosen, id);
      assert k < id;
      StartIsReachable(g, kept, k);
      ReachableThrough(g, kept, k, id);
    }
  }

  lemma EmptyTogether(a: seq<FolderId>, b: seq<FolderId>)
    requires forall id :: id in a <==> id in b
    ensures a == [] <==> b == []
  {
    if a != [] {
      assert a[0] in b;
    }
    if b != [] {
      assert b[0] in a;
    }
  }

  lemma {:induction false} PhotosOfPermuted(g: Source, a: seq<FolderId>, b: seq<FolderId>)
    requires Distinct(a) && Distinct(b) && forall id :: id in a <==> id in b
    ensures multiset(PhotosOf(g, a)) == multiset(PhotosOf(g, b))
    decreases |a|
  {
    hide Photos, Listing, Distinct;
    EmptyTogether(a, b);
    if a != [] {
      assert a[0] in b;
      var k :| 0 <= k < |b| && b[k] == a[0];
      var rest := b[..k] + b[k + 1..];
      WithoutOne(a, b, k);
      PhotosOfPermuted(g, a[1..], rest);
      PhotosOfWithout(g, b, k);
      assert PhotosOf(g, a) == Photos(Listing(g, a[0])) + PhotosOf(g, a[1..]);
    }
  }

  lemma PhotosOfWithout(g: Source, b: seq<FolderId>, k: nat)
    requires k < |b|
    ensures multiset(PhotosOf(g, b))
         == multiset(Photos(Listing(g, b[k]))) + multiset(PhotosOf(g, b[..k] + b[k + 1..]))
  {
    hide Photos, Listing;
    PhotosOfAppend(g, b[..k], b[k + 1..]);
    PhotosOfAppend(g, b[..k], b[k..]);
    assert b == b[..k] + b[k..] && b[k..][1..] == b[k + 1..];
  }

  lemma WithoutOne(a: seq<FolderId>, b: seq<FolderId>, k: nat)
    requires a != [] && k < |b| && b[k] == a[0]
    requires Distinct(a) && Distinct(b) && forall id :: id in a <==> id in b
    ensures Distinct(a[1..]) && Distinct(b[..k] + b[k + 1..])
    ensures forall id :: id in a[1..] <==> id in b[..k] + b[k + 1..]
  {
    var rest := b[..k] + b[k + 1..];
    assert forall i :: 0 <= i < |rest| ==> rest[i] == if i < k then b[i] else b[i + 1];
    forall id
      ensures id in a[1..] <==> id in rest
    {
      assert id in a <==> id == a[0] || id in a[1..] by {
        assert a == [a[0]] + a[1..];
      }
      assert id in b <==> id == b[k] || id in rest by {
        assert b == b[..k] + [b[k]] + b[k + 1..];
      }
      assert a[0] !in a[1..];
      assert b[k] !in rest;
    }
  }

  /** If prefixes mean containment, the pool is the same photos the same number
      of times, pruned or not: only the order can differ. */
  lemma PruningKeepsEveryPhoto(g: Source, chosen: seq<FolderId>)
    requires PrefixMeansInside(g, chosen)
    ensures multiset(AllItems(g, DropRedundantChildren(chosen))) == multiset(AllItems(g, chosen))
  {
    hide Reachable, Visits;
    var kept := DropRedundantChildren(chosen);
    PruningKeepsTheOutermost(chosen);
    PruningKeepsReach(g, chosen);
    VisitsAreExactlyReachable(g, Starts(kept));
    VisitsAreExactlyReachable(g, Starts(chosen));
    PhotosOfPermuted(g, Visits(g, Starts(kept), {}), Visits(g, Starts(chosen), {}));
  }

  /** A sibling whose name merely continues another's is dropped with its photos. */
  lemma SiblingIsLost()
    ensures var trip, trip2 := "media-source://s/Trip", "media-source://s/Trip 2";
            var g: Source := map[trip := [], trip2 := [Photo("a.jpg")]];
      && Offers(g, [trip, trip2], "a.jpg")
      && !Offers(g, DropRedundantChildren([trip, trip2]), "a.jpg")
  {
    var trip, trip2 := "media-source://s/Trip", "media-source://s/Trip 2";
    var g: Source := map[trip := [], trip2 := [Photo("a.jpg")]];
    StartIsReachable(g, [trip, trip2], trip2);
    var chosen := [trip, trip2];
    assert trip == trip2[..|trip|] && |trip| < |trip2|;
    assert chosen[0] == trip && trip in chosen;
    assert HasOuter(chosen, trip2);
    OutermostMembers([trip, trip2], [trip, trip2], trip2);
    var kept := DropRedundantChildren([trip, trip2]);
    forall id | id in kept
      ensures id == trip
    {
      OutermostMembers([trip, trip2], [trip, trip2], id);
    }
    forall id | Reachable(g, kept, id)
      ensures id == trip
    {
      assert ClosedUnder(g, {trip});
      ReachableStaysInside(g, {trip}, kept, id);
    }
  }
}
