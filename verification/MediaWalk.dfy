// Walking the chosen folders of a media source. The source is a graph: folders
// may be listed in several places and may contain one another.
module MediaWalk {
  import opened FiniteSets

  const ROOT := "media-source://"

  type FolderId = string

  // What a browse lists: a folder to go into, a photo, or anything else.
  datatype Child = Folder(id: FolderId) | Photo(id: string) | Other(id: string)

  /** Folders that can be browsed, and what each one lists. */
  type Source = map<FolderId, seq<Child>>

  function Listing(g: Source, id: FolderId): seq<Child> {
    if id in g then g[id] else []
  }

  function Folders(children: seq<Child>): seq<FolderId> {
    if children == [] then []
    else (if children[0].Folder? then [children[0].id] else []) + Folders(children[1..])
  }

  function Photos(children: seq<Child>): seq<string> {
    if children == [] then []
    else (if children[0].Photo? then [children[0].id] else []) + Photos(children[1..])
  }

  function Starts(selection: seq<FolderId>): seq<FolderId> {
    if selection == [] then [ROOT] else selection
  }

  // Reachability.

  predicate Lists(g: Source, parent: FolderId, child: FolderId) {
    child in Folders(Listing(g, parent))
  }

  ghost predicate IsPath(g: Source, path: seq<FolderId>) {
    && path != []
    && forall i :: 0 <= i < |path| - 1 ==> Lists(g, path[i], path[i + 1])
  }

  ghost predicate Reachable(g: Source, starts: seq<FolderId>, id: FolderId) {
    exists path :: IsPath(g, path) && path[0] in starts && path[|path| - 1] == id
  }

  lemma StartIsReachable(g: Source, starts: seq<FolderId>, id: FolderId)
    requires id in starts
    ensures Reachable(g, starts, id)
  {
    assert IsPath(g, [id]);
  }

  lemma ChildIsReachable(g: Source, starts: seq<FolderId>, id: FolderId, child: FolderId)
    requires Reachable(g, starts, id) && Lists(g, id, child)
    ensures Reachable(g, starts, child)
  {
    var path :| IsPath(g, path) && path[0] in starts && path[|path| - 1] == id;
    assert IsPath(g, path + [child]);
  }

  ghost predicate ClosedUnder(g: Source, s: set<FolderId>) {
    forall a, b :: a in s && Lists(g, a, b) ==> b in s
  }

  lemma {:induction false} PathStaysInside(g: Source, s: set<FolderId>, path: seq<FolderId>)
    requires ClosedUnder(g, s) && IsPath(g, path) && path[0] in s
    ensures path[|path| - 1] in s
    decreases |path|
  {
    if |path| > 1 {
      var front := path[..|path| - 1];
      assert forall i :: 0 <= i < |front| - 1 ==> Lists(g, front[i], front[i + 1]) by {
        assert forall i :: 0 <= i < |front| - 1 ==> Lists(g, path[i], path[i + 1]);
      }
      PathStaysInside(g, s, front);
      assert Lists(g, path[|path| - 2], path[|path| - 1]);
    }
  }

  lemma ReachableStaysInside(g: Source, s: set<FolderId>, starts: seq<FolderId>, id: FolderId)
    requires ClosedUnder(g, s) && Reachable(g, starts, id)
    requires forall start :: start in starts ==> start in s
    ensures id in s
  {
    var path :| IsPath(g, path) && path[0] in starts && path[|path| - 1] == id;
    PathStaysInside(g, s, path);
  }

  // Termination: only ids that are chosen or listed somewhere are ever browsed.

  function Mentioned(g: Source): set<FolderId> {
    set parent, child | parent in g && child in Folders(g[parent]) :: child
  }

  function Unseen(g: Source, pending: seq<FolderId>, seen: set<FolderId>): nat {
    |Mentioned(g) + Members(pending) - seen|
  }

  lemma UnseenDrops(g: Source, pending: seq<FolderId>, seen: set<FolderId>)
    requires pending != []
    ensures Unseen(g, pending[1..], seen) <= Unseen(g, pending, seen)
    ensures pending[0] !in seen ==>
      Unseen(g, pending[1..] + Folders(Listing(g, pending[0])), seen + {pending[0]}) < Unseen(g, pending, seen)
  {
    var all := Mentioned(g) + Members(pending) - seen;
    SubsetSize(Mentioned(g) + Members(pending[1..]) - seen, all);
    if pending[0] !in seen {
      var next := pending[1..] + Folders(Listing(g, pending[0]));
      var left := Mentioned(g) + Members(next) - (seen + {pending[0]});
      assert left <= all - {pending[0]};
      SubsetSize(left, all - {pending[0]});
      assert pending[0] in all;
    }
  }

  /** The folders browsed, in order, when nothing stops the walk early. */
  function Visits(g: Source, pending: seq<FolderId>, seen: set<FolderId>): seq<FolderId>
    decreases Unseen(g, pending, seen), |pending|
  {
    if pending == [] then []
    else
      UnseenDrops(g, pending, seen);
      if pending[0] in seen then Visits(g, pending[1..], seen)
      else [pending[0]] + Visits(g, pending[1..] + Folders(Listing(g, pending[0])), seen + {pending[0]})
  }

  function PhotosOf(g: Source, visits: seq<FolderId>): seq<string> {
    if visits == [] then [] else Photos(Listing(g, visits[0])) + PhotosOf(g, visits[1..])
  }

  /** Everything the walk would yield without its cap. */
  function AllItems(g: Source, selection: seq<FolderId>): seq<string> {
    PhotosOf(g, Visits(g, Starts(selection), {}))
  }

  function Take(items: seq<string>, cap: nat): seq<string> {
    if |items| <= cap then items else items[..cap]
  }

  // What the visits are.

  lemma {:induction false} VisitsAreFresh(g: Source, pending: seq<FolderId>, seen: set<FolderId>)
    ensures forall id :: id in Visits(g, pending, seen) ==> id !in seen
    ensures Distinct(Visits(g, pending, seen))
    decreases Unseen(g, pending, seen), |pending|
  {
    hide Unseen, Folders, Listing;
    if pending != [] {
      UnseenDrops(g, pending, seen);
      var id, rest := pending[0], pending[1..];
      if id in seen {
        VisitsAreFresh(g, rest, seen);
      } else {
        VisitsAreFresh(g, rest + Folders(Listing(g, id)), seen + {id});
        var later := Visits(g, rest + Folders(Listing(g, id)), seen + {id});
        assert forall i :: 0 <= i < |later| ==> later[i] in later;
      }
    }
  }

  lemma {:induction false} VisitsCoverPending(g: Source, pending: seq<FolderId>, seen: set<FolderId>)
    ensures forall id :: id in pending ==> id in seen || id in Visits(g, pending, seen)
    decreases Unseen(g, pending, seen), |pending|
  {
    hide Unseen, Folders, Listing;
    if pending != [] {
      UnseenDrops(g, pending, seen);
      var id, rest := pending[0], pending[1..];
      assert pending == [id] + rest;
      if id in seen {
        VisitsCoverPending(g, rest, seen);
      } else {
        VisitsCoverPending(g, rest + Folders(Listing(g, id)), seen + {id});
      }
    }
  }

  lemma {:induction false} VisitsAreClosed(g: Source, pending: seq<FolderId>, seen: set<FolderId>)
    ensures var v := Visits(g, pending, seen);
            forall a, b :: a in v && Lists(g, a, b) ==> b in seen || b in v
    decreases Unseen(g, pending, seen), |pending|
  {
    hide Unseen, Folders, Listing;
    if pending != [] {
      UnseenDrops(g, pending, seen);
      var id, rest := pending[0], pending[1..];
      if id in seen {
        VisitsAreClosed(g, rest, seen);
      } else {
        var next := rest + Folders(Listing(g, id));
        VisitsAreClosed(g, next, seen + {id});
        VisitsCoverPending(g, next, seen + {id});
        assert forall b :: Lists(g, id, b) ==> b in next;
      }
    }
  }

  lemma {:induction false} VisitsAreReachable(
      g: Source, pending: seq<FolderId>, seen: set<FolderId>, starts: seq<FolderId>)
    requires forall id :: id in pending ==> Reachable(g, starts, id)
    ensures forall id :: id in Visits(g, pending, seen) ==> Reachable(g, starts, id)
    decreases Unseen(g, pending, seen), |pending|
  {
    hide Reachable;
    if pending != [] {
      UnseenDrops(g, pending, seen);
      var id, rest := pending[0], pending[1..];
      assert pending == [id] + rest;
      if id in seen {
        VisitsAreReachable(g, rest, seen, starts);
      } else {
        var found := Folders(Listing(g, id));
        forall child | child in found
          ensures Reachable(g, starts, child)
        {
          ChildIsReachable(g, starts, id, child);
        }
        VisitsAreReachable(g, rest + found, seen + {id}, starts);
      }
    }
  }

  /** The walk browses exactly the reachable folders, once each, on any graph. */
  lemma VisitsAreExactlyReachable(g: Source, starts: seq<FolderId>)
    ensures var v := Visits(g, starts, {});
      && (forall id :: id in v <==> Reachable(g, starts, id))
      && Distinct(v)
  {
    hide Reachable, Visits;
    forall id | id in starts
      ensures Reachable(g, starts, id)
    {
      StartIsReachable(g, starts, id);
    }
    VisitsAreReachable(g, starts, {}, starts);
    VisitsAreFresh(g, starts, {});
    VisitsCoverPending(g, starts, {});
    VisitsAreClosed(g, starts, {});
    var browsed := Members(Visits(g, starts, {}));
    assert ClosedUnder(g, browsed);
    forall id | Reachable(g, starts, id)
      ensures id in Visits(g, starts, {})
    {
      ReachableStaysInside(g, browsed, starts, id);
    }
  }

  // In which order.

  /** `id` is one of the starts or at most `d` steps down from one. */
  ghost predicate Within(g: Source, starts: seq<FolderId>, id: FolderId, d: nat)
    decreases d
  {
    id in starts || (d > 0 && exists parent :: Within(g, starts, parent, d - 1) && Lists(g, parent, id))
  }

  ghost predicate NearestFirst(g: Source, starts: seq<FolderId>, v: seq<FolderId>) {
    forall i, j, d: nat :: 0 <= i < j < |v| && Within(g, starts, v[j], d) ==> Within(g, starts, v[i], d)
  }

  lemma {:induction false} WithinGrows(g: Source, starts: seq<FolderId>, id: FolderId, d: nat, e: nat)
    requires Within(g, starts, id, d) && d <= e
    ensures Within(g, starts, id, e)
    decreases d
  {
    if id !in starts {
      var parent :| Within(g, starts, parent, d - 1) && Lists(g, parent, id);
      WithinGrows(g, starts, parent, d - 1, e - 1);
    }
  }

  /** The walk is working on depth `d`: the first `a` folders waiting are that deep at most,
      the others one deeper, and nothing that is less deep is left. */
  ghost predicate AtDepth(
      g: Source, starts: seq<FolderId>, pending: seq<FolderId>, seen: set<FolderId>, d: nat, a: nat)
  {
    && a <= |pending|
    && (forall id :: id in seen ==> Within(g, starts, id, d))
    && (forall i :: 0 <= i < |pending| ==> Within(g, starts, pending[i], if i < a then d else d + 1))
    && (forall id :: Within(g, starts, id, d) ==> id in seen || id in pending[..a])
    && (forall id, e: nat :: e < d && Within(g, starts, id, e) ==> id in seen)
    && (forall id, child :: id in seen && Lists(g, id, child) ==> child in seen || child in pending)
  }

  lemma NextDepth(g: Source, starts: seq<FolderId>, pending: seq<FolderId>, seen: set<FolderId>, d: nat)
    requires AtDepth(g, starts, pending, seen, d, 0)
    ensures AtDepth(g, starts, pending, seen, d + 1, |pending|)
  {
    hide Lists;
    forall id | id in seen
      ensures Within(g, starts, id, d + 1)
    {
      WithinGrows(g, starts, id, d, d + 1);
    }
    forall id | Within(g, starts, id, d + 1)
      ensures id in seen || id in pending
    {
      if id in starts {
        assert Within(g, starts, id, d);
      }
    }
    forall id, e: nat | e < d + 1 && Within(g, starts, id, e)
      ensures id in seen
    {
      WithinGrows(g, starts, id, e, d);
    }
    assert pending[..|pending|] == pending;
  }

  lemma SkipSeen(g: Source, starts: seq<FolderId>, pending: seq<FolderId>, seen: set<FolderId>, d: nat, a: nat)
    requires AtDepth(g, starts, pending, seen, d, a) && a > 0 && pending[0] in seen
    ensures AtDepth(g, starts, pending[1..], seen, d, a - 1)
  {
    hide Within, Lists;
    assert pending[..a] == [pending[0]] + pending[1..][..a - 1];
    assert pending == [pending[0]] + pending[1..];
  }

  lemma BrowseNext(g: Source, starts: seq<FolderId>, pending: seq<FolderId>, seen: set<FolderId>, d: nat, a: nat)
    requires AtDepth(g, starts, pending, seen, d, a) && a > 0 && pending[0] !in seen
    ensures AtDepth(g, starts, pending[1..] + Folders(Listing(g, pending[0])), seen + {pending[0]}, d, a - 1)
  {
    hide Folders, Listing;
    var id := pending[0];
    var found := Folders(Listing(g, id));
    var next := pending[1..] + found;
    forall i | 0 <= i < |found|
      ensures Within(g, starts, found[i], d + 1)
    {
      assert Within(g, starts, id, d) && Lists(g, id, found[i]);
    }
    hide Within;
    assert pending[..a] == [id] + next[..a - 1];
    assert pending == [id] + pending[1..];
    forall child | Lists(g, id, child)
      ensures child in next
    {
      assert child in found;
    }
  }

  /** Folders are browsed nearest first, so a walk that is cut off has not gone deep
      while something shallower was left. */
  lemma {:induction false} VisitsByDepth(
      g: Source, starts: seq<FolderId>, pending: seq<FolderId>, seen: set<FolderId>, d: nat, a: nat)
    requires AtDepth(g, starts, pending, seen, d, a)
    ensures NearestFirst(g, starts, Visits(g, pending, seen))
    decreases Unseen(g, pending, seen), |pending|, if a == 0 then 1 else 0
  {
    hide Unseen, Folders, Listing, Within, AtDepth;
    if pending != [] {
      UnseenDrops(g, pending, seen);
      VisitsStep(g, pending, seen);
      if a == 0 {
        NextDepth(g, starts, pending, seen, d);
        VisitsByDepth(g, starts, pending, seen, d + 1, |pending|);
      } else if pending[0] in seen {
        SkipSeen(g, starts, pending, seen, d, a);
        VisitsByDepth(g, starts, pending[1..], seen, d, a - 1);
      } else {
        var next := pending[1..] + Folders(Listing(g, pending[0]));
        BrowseNext(g, starts, pending, seen, d, a);
        VisitsByDepth(g, starts, next, seen + {pending[0]}, d, a - 1);
        FirstIsNearest(g, starts, pending, seen, d, a, Visits(g, next, seen + {pending[0]}));
      }
    }
  }

  lemma FirstIsNearest(g: Source, starts: seq<FolderId>, pending: seq<FolderId>, seen: set<FolderId>, d: nat, a: nat,
                       later: seq<FolderId>)
    requires AtDepth(g, starts, pending, seen, d, a) && a > 0
    requires later == Visits(g, pending[1..] + Folders(Listing(g, pending[0])), seen + {pending[0]})
    requires NearestFirst(g, starts, later)
    ensures NearestFirst(g, starts, [pending[0]] + later)
  {
    hide Unseen, Folders, Listing, Within, Visits, Lists;
    VisitsAreFresh(g, pending[1..] + Folders(Listing(g, pending[0])), seen + {pending[0]});
    var v := [pending[0]] + later;
    forall i, j, e: nat | 0 <= i < j < |v| && Within(g, starts, v[j], e)
      ensures Within(g, starts, v[i], e)
    {
      assert v[j] == later[j - 1] && later[j - 1] in later;
      if i == 0 {
        WithinGrows(g, starts, pending[0], d, e);
      } else {
        assert v[i] == later[i - 1];
      }
    }
  }

  /** So the walk of a selection browses by distance from it, on any graph. */
  lemma WalkIsNearestFirst(g: Source, starts: seq<FolderId>)
    ensures NearestFirst(g, starts, Visits(g, starts, {}))
  {
    assert starts[..|starts|] == starts;
    assert AtDepth(g, starts, starts, {}, 0, |starts|);
    VisitsByDepth(g, starts, starts, {}, 0, |starts|);
  }

  ghost predicate Offers(g: Source, starts: seq<FolderId>, photo: string) {
    exists id :: Reachable(g, starts, id) && photo in Photos(Listing(g, id))
  }

  lemma {:induction false} PhotosOfMembers(g: Source, visits: seq<FolderId>, photo: string)
    ensures photo in PhotosOf(g, visits) <==> exists id :: id in visits && photo in Photos(Listing(g, id))
  {
    if visits != [] {
      PhotosOfMembers(g, visits[1..], photo);
      assert visits == [visits[0]] + visits[1..];
    }
  }

  /** Uncapped, the walk yields a photo exactly when a folder lists it that the chosen
      ones lead to, or the top of the library if none is chosen. */
  lemma AllItemsAreTheReachablePhotos(g: Source, selection: seq<FolderId>, photo: string)
    ensures photo in AllItems(g, selection)
       <==> Offers(g, if selection == [] then ["media-source://"] else selection, photo)
  {
    hide Reachable, Visits;
    VisitsAreExactlyReachable(g, Starts(selection));
    PhotosOfMembers(g, Visits(g, Starts(selection), {}), photo);
  }

  // The loop.

  lemma {:induction false} FoldersAppend(a: seq<Child>, b: seq<Child>)
    ensures Folders(a + b) == Folders(a) + Folders(b)
    ensures Photos(a + b) == Photos(a) + Photos(b)
  {
    if a == [] {
      assert a + b == b;
    } else {
      assert (a + b)[1..] == a[1..] + b;
      FoldersAppend(a[1..], b);
      FirstChild(a + b);
      FirstChild(a);
      hide Folders, Photos;
    }
  }

  lemma FirstChild(children: seq<Child>)
    requires children != []
    ensures Folders(children)
         == (if children[0].Folder? then [children[0].id] else []) + Folders(children[1..])
    ensures Photos(children)
         == (if children[0].Photo? then [children[0].id] else []) + Photos(children[1..])
  {
  }

  lemma {:induction false} PhotosOfAppend(g: Source, a: seq<FolderId>, b: seq<FolderId>)
    ensures PhotosOf(g, a + b) == PhotosOf(g, a) + PhotosOf(g, b)
  {
    if a == [] {
      assert a + b == b;
    } else {
      assert (a + b)[1..] == a[1..] + b;
      PhotosOfAppend(g, a[1..], b);
    }
  }

  lemma OneMoreChild(children: seq<Child>, i: nat)
    requires i < |children|
    ensures Folders(children[..i + 1]) == Folders(children[..i]) + Folders([children[i]])
    ensures Photos(children[..i + 1]) == Photos(children[..i]) + Photos([children[i]])
    ensures Folders([children[i]]) == if children[i].Folder? then [children[i].id] else []
    ensures Photos([children[i]]) == if children[i].Photo? then [children[i].id] else []
  {
    assert children[..i + 1] == children[..i] + [children[i]];
    FoldersAppend(children[..i], [children[i]]);
    assert [children[i]][1..] == [];
  }

  lemma NothingYet(g: Source)
    ensures Folders([]) == [] && Photos([]) == [] && PhotosOf(g, []) == []
  {
  }

  /** Photos found so far are the beginning of all there are. */
  lemma FoundIsPrefix(g: Source, visited: seq<FolderId>, id: FolderId, rest: seq<FolderId>, i: nat)
    requires i <= |Listing(g, id)|
    ensures PhotosOf(g, visited) + Photos(Listing(g, id)[..i]) <= PhotosOf(g, visited + ([id] + rest))
  {
    var children := Listing(g, id);
    PhotosOfAppend(g, visited, [id] + rest);
    assert ([id] + rest)[1..] == rest;
    FoldersAppend(children[..i], children[i..]);
    assert children == children[..i] + children[i..];
  }

  /** The provider's generator, run to its end: the first `cap` photos of the walk.
      The provider's cap is 20 000. */
  method ListItems(g: Source, selection: seq<FolderId>, cap: nat) returns (items: seq<string>)
    ensures items == Take(AllItems(g, selection), cap)
    ensures items <= AllItems(g, selection) && |items| <= cap
    ensures |items| < cap ==> items == AllItems(g, selection)
  {
    hide Visits, Unseen, Folders, Photos, PhotosOf, Listing;
    NothingYet(g);
    var pending := Starts(selection);
    var seen: set<FolderId> := {};
    items := [];
    ghost var visited: seq<FolderId> := [];
    ghost var all := Visits(g, Starts(selection), {});
    assert all == [] + all;
    while pending != [] && |items| < cap
      invariant all == visited + Visits(g, pending, seen)
      invariant items == PhotosOf(g, visited)
      invariant |items| <= cap
      decreases Unseen(g, pending, seen), |pending|
    {
      UnseenDrops(g, pending, seen);
      VisitsStep(g, pending, seen);
      var id := pending[0];
      pending := pending[1..];
      if id in seen {
        continue;
      }
      ghost var rest := pending;
      seen := seen + {id};
      var children := Listing(g, id);
      ghost var later := Visits(g, pending + Folders(children), seen);
      assert all == visited + ([id] + later);
      assert children[..0] == [];
      for i := 0 to |children|
        invariant pending == rest + Folders(children[..i])
        invariant items == PhotosOf(g, visited) + Photos(children[..i])
        invariant |items| < cap
      {
        OneMoreChild(children, i);
        if children[i].Folder? {
          pending := pending + [children[i].id];
        } else if children[i].Photo? {
          items := items + [children[i].id];
          if |items| >= cap {
            FoundIsPrefix(g, visited, id, later, i + 1);
            return;
          }
        }
      }
      assert children[..|children|] == children;
      OneMoreVisit(g, visited, id);
      visited := visited + [id];
      assert all == visited + later;
    }
    if pending == [] {
      VisitsStep(g, pending, seen);
      assert all == visited;
    } else {
      PhotosOfAppend(g, visited, Visits(g, pending, seen));
    }
  }

  lemma VisitsStep(g: Source, pending: seq<FolderId>, seen: set<FolderId>)
    ensures pending == [] ==> Visits(g, pending, seen) == []
    ensures pending != [] && pending[0] in seen ==> Visits(g, pending, seen) == Visits(g, pending[1..], seen)
    ensures pending != [] && pending[0] !in seen ==> (
      Visits(g, pending, seen)
        == [pending[0]] + Visits(g, pending[1..] + Folders(Listing(g, pending[0])), seen + {pending[0]}))
  {
  }

  lemma OneMoreVisit(g: Source, visited: seq<FolderId>, id: FolderId)
    ensures PhotosOf(g, visited + [id]) == PhotosOf(g, visited) + Photos(Listing(g, id))
  {
    PhotosOfAppend(g, visited, [id]);
    assert [id][1..] == [];
  }
}
