// The indented folder list offered in the options form: depth-first, at most
// four levels deep, and cut off once it is long enough.
module FolderListing {
  import opened Wrappers
  import MediaWalk

  const MAX_TREE_DEPTH: nat := 3
  const MAX_TREE_FOLDERS: nat := 300

  /** The folders that browsing each folder lists; one that is not a key cannot be browsed. */
  type Tree = map<MediaWalk.FolderId, seq<MediaWalk.FolderId>>

  datatype Entry = Entry(depth: nat, folder: MediaWalk.FolderId)

  datatype BrowseError = CouldNotBrowse

  /** A traversal: what it listed, and whether a browse failed and ended it. */
  datatype Walked = Walked(entries: seq<Entry>, failed: bool)

  /** The whole preorder traversal below `id`, with no limit on its length. */
  function Preorder(g: Tree, id: MediaWalk.FolderId, depth: nat): Walked
    decreases MAX_TREE_DEPTH + 1 - depth, 0
  {
    if depth > MAX_TREE_DEPTH then Walked([], false)
    else if id !in g then Walked([], true)
    else Siblings(g, g[id], depth)
  }

  function Siblings(g: Tree, children: seq<MediaWalk.FolderId>, depth: nat): Walked
    requires depth <= MAX_TREE_DEPTH
    decreases MAX_TREE_DEPTH - depth, |children| + 1
  {
    if children == [] then Walked([], false)
    else
      var below := Preorder(g, children[0], depth + 1);
      var first := [Entry(depth, children[0])] + below.entries;
      if below.failed then Walked(first, true)
      else
        var rest := Siblings(g, children[1..], depth);
        Walked(first + rest.entries, rest.failed)
  }

  class Collector {
    const source: Tree
    const limit: nat
    var collected: seq<Entry>

    constructor (source: Tree, limit: nat)
      ensures this.source == source && this.limit == limit && collected == []
    {
      this.source, this.limit, collected := source, limit, [];
    }

    /** Append what lies below `id`. A failed browse abandons the whole listing. */
    method Walk(id: MediaWalk.FolderId, depth: nat) returns (r: Result<(), BrowseError>)
      requires |collected| <= limit
      modifies this
      ensures collected == Capped(old(collected), Preorder(source, id, depth), limit).0
      ensures r.Failure? <==> Capped(old(collected), Preorder(source, id, depth), limit).1
      decreases MAX_TREE_DEPTH + 1 - depth
    {
      hide Capped, Siblings;
      NothingToAdd(collected, limit);
      if |collected| == limit {
        FullStaysFull(collected, Preorder(source, id, depth), limit);
      }
      if depth > MAX_TREE_DEPTH || |collected| >= limit {
        return Success(());
      }
      if id !in source {
        FailsHere(collected, limit);
        return Failure(CouldNotBrowse);
      }
      var children := source[id];
      ghost var whole := Siblings(source, children, depth);
      var i := 0;
      while i < |children|
        invariant 0 <= i <= |children| && |collected| <= limit
        invariant Capped(collected, Siblings(source, children[i..], depth), limit)
               == Capped(old(collected), whole, limit)
      {
        if |collected| >= limit {
          FullStaysFull(collected, Siblings(source, children[i..], depth), limit);
          return Success(());
        }
        CapSiblings(collected, source, children[i..], depth, limit);
        collected := collected + [Entry(depth, children[i])];
        var r' := Walk(children[i], depth + 1);
        if r'.Failure? {
          return r';
        }
        assert children[i..][1..] == children[i + 1..];
        i := i + 1;
      }
      NoSiblings(source, depth);
      assert children[i..] == [];
      NothingToAdd(collected, limit);
      r := Success(());
    }
  }

  lemma NoSiblings(g: Tree, depth: nat)
    requires depth <= MAX_TREE_DEPTH
    ensures Siblings(g, [], depth) == Walked([], false)
  {
  }

  lemma FailsHere(soFar: seq<Entry>, limit: nat)
    requires |soFar| < limit
    ensures Capped(soFar, Walked([], true), limit) == (soFar, true)
  {
    assert soFar + [] == soFar;
  }

  /** What a list already `so far` becomes, and whether the failure is met before it is full. */
  function Capped(soFar: seq<Entry>, w: Walked, limit: nat): (c: (seq<Entry>, bool))
    requires |soFar| <= limit
    ensures soFar <= c.0 && |c.0| <= limit
  {
    var all := soFar + w.entries;
    (if |all| <= limit then all else all[..limit], w.failed && |all| < limit)
  }

  lemma FullStaysFull(soFar: seq<Entry>, w: Walked, limit: nat)
    requires |soFar| == limit
    ensures Capped(soFar, w, limit) == (soFar, false)
  {
    assert (soFar + w.entries)[..limit] == soFar;
    assert |w.entries| == 0 ==> soFar + w.entries == soFar;
  }

  lemma NothingToAdd(soFar: seq<Entry>, limit: nat)
    requires |soFar| <= limit
    ensures Capped(soFar, Walked([], false), limit) == (soFar, false)
  {
    assert soFar + [] == soFar;
  }

  /** Capping two stretches one after the other is capping them together. */
  lemma CapInStages(soFar: seq<Entry>, first: Walked, rest: Walked, limit: nat)
    requires |soFar| <= limit
    ensures var stage := Capped(soFar, first, limit);
      Capped(soFar, if first.failed then first else Walked(first.entries + rest.entries, rest.failed), limit)
        == if stage.1 then stage else Capped(stage.0, rest, limit)
  {
    var stage := Capped(soFar, first, limit);
    if |stage.0| == limit {
      FullStaysFull(stage.0, rest, limit);
    }
    assert soFar + (first.entries + rest.entries) == (soFar + first.entries) + rest.entries;
    assert |soFar + first.entries| >= limit ==>
      (soFar + first.entries + rest.entries)[..limit] == (soFar + first.entries)[..limit];
  }

  lemma CapSiblings(soFar: seq<Entry>, g: Tree, children: seq<MediaWalk.FolderId>, depth: nat, limit: nat)
    requires children != [] && |soFar| < limit && depth <= MAX_TREE_DEPTH
    ensures
      var below := Capped(soFar + [Entry(depth, children[0])], Preorder(g, children[0], depth + 1), limit);
      Capped(soFar, Siblings(g, children, depth), limit)
        == if below.1 then below else Capped(below.0, Siblings(g, children[1..], depth), limit)
  {
    var below := Preorder(g, children[0], depth + 1);
    var head := [Entry(depth, children[0])];
    var first := Walked(head + below.entries, below.failed);
    hide Preorder, Capped;
    CapInStages(soFar, first, Siblings(g, children[1..], depth), limit);
    CapHead(soFar, head, below, limit);
  }

  lemma CapHead(soFar: seq<Entry>, head: seq<Entry>, w: Walked, limit: nat)
    requires |soFar + head| <= limit
    ensures Capped(soFar, Walked(head + w.entries, w.failed), limit) == Capped(soFar + head, w, limit)
  {
    assert soFar + (head + w.entries) == soFar + head + w.entries;
  }

  /** The listing is the first entries of the full traversal; an unreadable folder
      matters only if it is met before the list is full. */
  method CollectTree(g: Tree, root: MediaWalk.FolderId) returns (r: Result<seq<Entry>, BrowseError>)
    ensures var w := Preorder(g, root, 0);
      r == if w.failed && |w.entries| < MAX_TREE_FOLDERS then Failure(CouldNotBrowse)
           else Success(if |w.entries| <= MAX_TREE_FOLDERS then w.entries else w.entries[..MAX_TREE_FOLDERS])
  {
    var collector := new Collector(g, MAX_TREE_FOLDERS);
    var walked := collector.Walk(root, 0);
    assert [] + Preorder(g, root, 0).entries == Preorder(g, root, 0).entries;
    if walked.Failure? {
      return Failure(CouldNotBrowse);
    }
    r := Success(collector.collected);
  }

  // What the full traversal lists.

  /** `folder` is reached from `id` by going down `steps` + 1 levels. */
  predicate Below(g: Tree, id: MediaWalk.FolderId, steps: nat, folder: MediaWalk.FolderId)
    decreases steps, 0
  {
    id in g && (if steps == 0 then folder in g[id] else SomeBelow(g, g[id], steps - 1, folder))
  }

  predicate SomeBelow(g: Tree, children: seq<MediaWalk.FolderId>, steps: nat, folder: MediaWalk.FolderId)
    decreases steps, 1
  {
    exists child :: child in children && Below(g, child, steps, folder)
  }

  /** A folder at most three levels down from the start cannot be browsed. */
  ghost predicate UnreadableBelow(g: Tree, id: MediaWalk.FolderId, depth: nat) {
    && depth <= 3
    && (id !in g || exists steps: nat, folder :: depth + steps < 3 && Below(g, id, steps, folder) && folder !in g)
  }

  ghost predicate SomeUnreadable(g: Tree, children: seq<MediaWalk.FolderId>, depth: nat) {
    exists child :: child in children && UnreadableBelow(g, child, depth + 1)
  }

  /** The traversal fails exactly when there is such a folder, the start itself included. */
  lemma {:induction false} PreorderFails(g: Tree, id: MediaWalk.FolderId, depth: nat)
    ensures Preorder(g, id, depth).failed <==> UnreadableBelow(g, id, depth)
    decreases MAX_TREE_DEPTH + 1 - depth, 0
  {
    hide Siblings;
    if depth <= MAX_TREE_DEPTH && id in g {
      SiblingsFail(g, g[id], depth);
      UnreadableOneDown(g, id, depth);
    }
  }

  lemma UnreadableOneDown(g: Tree, id: MediaWalk.FolderId, depth: nat)
    requires depth <= MAX_TREE_DEPTH && id in g
    ensures UnreadableBelow(g, id, depth) <==> SomeUnreadable(g, g[id], depth)
  {
    if UnreadableBelow(g, id, depth) {
      var steps: nat, folder :| depth + steps < 3 && Below(g, id, steps, folder) && folder !in g;
      if steps == 0 {
        assert UnreadableBelow(g, folder, depth + 1);
      } else {
        assert SomeBelow(g, g[id], steps - 1, folder);
        var child :| child in g[id] && Below(g, child, steps - 1, folder);
        assert UnreadableBelow(g, child, depth + 1);
      }
    }
    if SomeUnreadable(g, g[id], depth) {
      var child :| child in g[id] && UnreadableBelow(g, child, depth + 1);
      if child !in g {
        assert Below(g, id, 0, child);
      } else {
        var steps: nat, folder :| depth + 1 + steps < 3 && Below(g, child, steps, folder) && folder !in g;
        assert SomeBelow(g, g[id], steps, folder);
        assert Below(g, id, steps + 1, folder);
      }
    }
  }

  lemma {:induction false} SiblingsFail(g: Tree, children: seq<MediaWalk.FolderId>, depth: nat)
    requires depth <= MAX_TREE_DEPTH
    ensures Siblings(g, children, depth).failed <==> SomeUnreadable(g, children, depth)
    decreases MAX_TREE_DEPTH - depth, |children| + 1
  {
    hide Preorder, UnreadableBelow;
    if children != [] {
      PreorderFails(g, children[0], depth + 1);
      SiblingsFail(g, children[1..], depth);
      SomeUnreadableSplits(g, children, depth);
      hide SomeUnreadable;
      var below, rest := Preorder(g, children[0], depth + 1), Siblings(g, children[1..], depth);
      assert Siblings(g, children, depth).failed <==> below.failed || rest.failed;
    }
  }

  lemma SomeUnreadableSplits(g: Tree, children: seq<MediaWalk.FolderId>, depth: nat)
    requires children != []
    ensures SomeUnreadable(g, children, depth)
       <==> UnreadableBelow(g, children[0], depth + 1) || SomeUnreadable(g, children[1..], depth)
  {
    hide UnreadableBelow;
    assert children == [children[0]] + children[1..];
    assert children[0] in children && forall child :: child in children[1..] ==> child in children;
  }

  /** If nothing fails, a folder is listed at a depth exactly when it lies that far down. */
  lemma {:induction false} PreorderLists(g: Tree, id: MediaWalk.FolderId, depth: nat, entry: Entry)
    requires !Preorder(g, id, depth).failed
    ensures entry in Preorder(g, id, depth).entries
       <==> depth <= entry.depth <= MAX_TREE_DEPTH && Below(g, id, entry.depth - depth, entry.folder)
    decreases MAX_TREE_DEPTH + 1 - depth, 0
  {
    hide SomeBelow, Siblings;
    if depth <= MAX_TREE_DEPTH {
      SiblingsList(g, g[id], depth, entry);
    }
  }

  lemma {:induction false} SiblingsList(g: Tree, children: seq<MediaWalk.FolderId>, depth: nat, entry: Entry)
    requires depth <= MAX_TREE_DEPTH && !Siblings(g, children, depth).failed
    ensures entry in Siblings(g, children, depth).entries
       <==> || (entry.depth == depth && entry.folder in children)
            || (depth < entry.depth <= MAX_TREE_DEPTH
                && SomeBelow(g, children, entry.depth - depth - 1, entry.folder))
    decreases MAX_TREE_DEPTH - depth, |children| + 1
  {
    hide SomeBelow, Below, Preorder;
    if children == [] {
      if depth < entry.depth {
        NoneBelow(g, entry.depth - depth - 1, entry.folder);
      }
    } else {
      PreorderLists(g, children[0], depth + 1, entry);
      SiblingsList(g, children[1..], depth, entry);
      if depth < entry.depth {
        SomeBelowSplits(g, children, entry.depth - depth - 1, entry.folder);
      }
      assert children == [children[0]] + children[1..];
    }
  }

  lemma NoneBelow(g: Tree, steps: nat, folder: MediaWalk.FolderId)
    ensures !SomeBelow(g, [], steps, folder)
  {
  }

  lemma SomeBelowSplits(g: Tree, children: seq<MediaWalk.FolderId>, steps: nat, folder: MediaWalk.FolderId)
    requires children != []
    ensures SomeBelow(g, children, steps, folder)
       <==> Below(g, children[0], steps, folder) || SomeBelow(g, children[1..], steps, folder)
  {
    hide Below;
    assert children == [children[0]] + children[1..];
  }
}
