/**
 The folder tree of src/core/scan/tree_model.cpp as a value, for any kind of child name: one entry
 inserted along its path, totals added up from the leaves, and what they must come to for a list of
 entries in any order.
 */
module TreeModel {
  import opened Integers
  import opened Wrappers
  import opened StringInterner

  datatype Kind = Regular | Directory | SymbolicLink | Junction | HardLink | Offline | Device | Unknown

  datatype Entry = Entry(parentPath: Handle, name: Handle, logicalSize: U64, sizeOnDisk: U64, kind: Kind)

  /** The three totals that are plain sums; they wrap at 2^64. */
  datatype Totals = Totals(files: U64, logicalBytes: U64, sizeOnDisk: U64)

  /** The same sums on unbounded numbers. */
  datatype Sums = Sums(files: nat, logicalBytes: nat, sizeOnDisk: nat)

  const NOTHING: Sums := Sums(0, 0, 0)

  datatype Node<K> = Node(name: K, totals: Totals, directories: U64, children: seq<Node<K>>, files: seq<Entry>)

  datatype Leaf = AFile(entry: Entry) | AFolder

  /** One entry: the names on its path, the folder's own included, and what to put at the end. */
  datatype Item<K> = Item(path: seq<K>, leaf: Leaf)

  /** Addition of 64-bit unsigned numbers. */
  function Sum64(a: U64, b: U64): (r: U64)
    ensures r == (a + b) % TWO_TO_THE_64
  {
    if a + b < TWO_TO_THE_64 then a + b else a + b - TWO_TO_THE_64
  }

  function Plus(a: Totals, b: Totals): Totals {
    Totals(Sum64(a.files, b.files), Sum64(a.logicalBytes, b.logicalBytes), Sum64(a.sizeOnDisk, b.sizeOnDisk))
  }

  function Add(a: Sums, b: Sums): Sums {
    Sums(a.files + b.files, a.logicalBytes + b.logicalBytes, a.sizeOnDisk + b.sizeOnDisk)
  }

  function Wrap(s: Sums): Totals {
    Totals(s.files % TWO_TO_THE_64, s.logicalBytes % TWO_TO_THE_64, s.sizeOnDisk % TWO_TO_THE_64)
  }

  /** What an entry adds: a file without a size on disk counts its logical size. */
  function Weight(leaf: Leaf): Sums {
    match leaf
    case AFolder => NOTHING
    case AFile(e) => Sums(1, e.logicalSize, if e.sizeOnDisk == 0 then e.logicalSize else e.sizeOnDisk)
  }

  lemma WrapAdds64(a: nat, b: nat)
    ensures Sum64(a % TWO_TO_THE_64, b % TWO_TO_THE_64) == (a + b) % TWO_TO_THE_64
  {
  }

  lemma Sum64Swaps(a: U64, b: U64, c: U64)
    ensures Sum64(Sum64(a, b), c) == Sum64(Sum64(a, c), b)
    ensures Sum64(Sum64(a, b), c) == Sum64(a, Sum64(b, c))
  {
  }

  lemma WrapAdds(a: Sums, b: Sums)
    ensures Plus(Wrap(a), Wrap(b)) == Wrap(Add(a, b))
  {
    WrapAdds64(a.files, b.files);
    WrapAdds64(a.logicalBytes, b.logicalBytes);
    WrapAdds64(a.sizeOnDisk, b.sizeOnDisk);
    hide Sum64;
  }

  lemma PlusSwaps(a: Totals, b: Totals, c: Totals)
    ensures Plus(Plus(a, b), c) == Plus(Plus(a, c), b)
    ensures Plus(Plus(a, b), c) == Plus(a, Plus(b, c))
  {
  }

  // ---------------------------------------------------------------- the tree

  function Fresh<K>(name: K): Node<K> {
    Node(name, Wrap(NOTHING), 0, [], [])
  }

  /** The first child with the name, or the number of children. */
  function Find<K(==)>(children: seq<Node<K>>, name: K): (i: nat)
    ensures i <= |children|
    ensures i < |children| ==> children[i].name == name
    ensures forall j :: 0 <= j < i ==> children[j].name != name
  {
    if children == [] then 0
    else if children[0].name == name then 0
    else 1 + Find(children[1..], name)
  }

  function Placed<K>(node: Node<K>, leaf: Leaf): Node<K> {
    match leaf
    case AFolder => node
    case AFile(e) => node.(totals := Plus(node.totals, Wrap(Weight(leaf))), files := node.files + [e])
  }

  function Insert<K(==)>(node: Node<K>, path: seq<K>, leaf: Leaf): (r: Node<K>)
    ensures r.name == node.name
    decreases |path|
  {
    if path == [] then Placed(node, leaf)
    else
      var i := Find(node.children, path[0]);
      if i < |node.children| then
        node.(children := node.children[i := Insert(node.children[i], path[1..], leaf)])
      else
        node.(children := node.children + [Insert(Fresh(path[0]), path[1..], leaf)])
  }

  function Built<K(==)>(root: K, items: seq<Item<K>>): Node<K> {
    if items == [] then Fresh(root)
    else
      var last := |items| - 1;
      Insert(Built(root, items[..last]), items[last].path, items[last].leaf)
  }

  function At<K(==)>(node: Node<K>, path: seq<K>): Option<Node<K>>
    decreases |path|
  {
    if path == [] then Some(node)
    else
      var i := Find(node.children, path[0]);
      if i < |node.children| then At(node.children[i], path[1..]) else None
  }

  function AddUp<K>(start: Totals, nodes: seq<Node<K>>): Totals {
    if nodes == [] then start
    else Plus(AddUp(start, nodes[..|nodes| - 1]), nodes[|nodes| - 1].totals)
  }

  function AddUpDirectories<K>(nodes: seq<Node<K>>): U64 {
    if nodes == [] then 0
    else Sum64(AddUpDirectories(nodes[..|nodes| - 1]), Sum64(1, nodes[|nodes| - 1].directories))
  }

  function Propagated<K>(node: Node<K>): (r: Node<K>)
    ensures r.name == node.name && r.files == node.files && |r.children| == |node.children|
    ensures forall i :: 0 <= i < |r.children| ==> r.children[i] == Propagated(node.children[i])
  {
    var below := seq(|node.children|, i requires 0 <= i < |node.children| => Propagated(node.children[i]));
    Node(node.name, AddUp(node.totals, below), AddUpDirectories(below), below, node.files)
  }

  // ---------------------------------------------------------------- where an insertion shows

  lemma {:induction false} FindSame<K>(a: seq<Node<K>>, b: seq<Node<K>>, name: K)
    requires |a| == |b| && forall i :: 0 <= i < |a| ==> a[i].name == b[i].name
    ensures Find(a, name) == Find(b, name)
  {
  }

  lemma {:induction false} FindAppended<K>(a: seq<Node<K>>, b: Node<K>, name: K)
    ensures Find(a + [b], name) ==
      if Find(a, name) < |a| then Find(a, name) else if b.name == name then |a| else |a| + 1
  {
    if a != [] && a[0].name != name {
      FindAppended(a[1..], b, name);
      assert (a + [b])[1..] == a[1..] + [b];
    }
  }

  function OrFresh<K>(o: Option<Node<K>>, name: K): Node<K> {
    match o
    case Some(node) => node
    case None => Fresh(name)
  }

  /** What a lookup of `p` finds after an insertion along `path`. */
  function AtAfter<K(==)>(node: Node<K>, path: seq<K>, leaf: Leaf, p: seq<K>): Option<Node<K>> {
    if p <= path then
      Some(Insert(OrFresh(At(node, p), if p == [] then node.name else p[|p| - 1]), path[|p|..], leaf))
    else
      At(node, p)
  }

  /** An insertion changes the nodes on its path, as insertions of the rest of the path, and no other node. */
  lemma {:induction false} InsertedAt<K>(node: Node<K>, path: seq<K>, leaf: Leaf, p: seq<K>)
    ensures At(Insert(node, path, leaf), p) == AtAfter(node, path, leaf, p)
    decreases |p|
  {
    if p == [] {
      assert path[|p|..] == path;
    } else if path == [] {
      assert Insert(node, path, leaf).children == node.children;
    } else {
      AtFirstName(node, path, leaf, p);
      if p[0] == path[0] {
        var i := Find(node.children, path[0]);
        InsertedAt(if i < |node.children| then node.children[i] else Fresh(path[0]), path[1..], leaf, p[1..]);
        BelowChild(node, path, leaf, p);
        hide Insert, AtAfter;
      }
    }
  }

  lemma AtFirstName<K>(node: Node<K>, path: seq<K>, leaf: Leaf, p: seq<K>)
    requires p != [] && path != []
    ensures var i := Find(node.children, path[0]);
      var child := if i < |node.children| then node.children[i] else Fresh(path[0]);
      At(Insert(node, path, leaf), p) ==
        if p[0] == path[0] then At(Insert(child, path[1..], leaf), p[1..]) else At(node, p)
  {
    var i := Find(node.children, path[0]);
    if i < |node.children| {
      var grown := Insert(node.children[i], path[1..], leaf);
      FindSame(node.children, node.children[i := grown], p[0]);
    } else {
      FindAppended(node.children, Insert(Fresh(path[0]), path[1..], leaf), p[0]);
    }
  }

  lemma BelowChild<K>(node: Node<K>, path: seq<K>, leaf: Leaf, p: seq<K>)
    requires p != [] && path != [] && p[0] == path[0]
    ensures var i := Find(node.children, path[0]);
      var child := if i < |node.children| then node.children[i] else Fresh(path[0]);
      AtAfter(node, path, leaf, p) ==
        if p <= path || i < |node.children| then AtAfter(child, path[1..], leaf, p[1..]) else None
  {
  }

  // ---------------------------------------------------------------- sums

  lemma {:induction false} AddUpUpdated<K>(start: Totals, nodes: seq<Node<K>>, i: nat, x: Node<K>, w: Totals)
    requires i < |nodes| && x.totals == Plus(nodes[i].totals, w)
    ensures AddUp(start, nodes[i := x]) == Plus(AddUp(start, nodes), w)
  {
    var last := |nodes| - 1;
    if i == last {
      assert nodes[i := x][..last] == nodes[..last];
      PlusSwaps(AddUp(start, nodes[..last]), nodes[i].totals, w);
    } else {
      AddUpUpdated(start, nodes[..last], i, x, w);
      assert nodes[i := x][..last] == nodes[..last][i := x];
      PlusSwaps(AddUp(start, nodes[..last]), nodes[last].totals, w);
    }
  }

  lemma {:induction false} AddUpStart<K>(start: Totals, w: Totals, nodes: seq<Node<K>>)
    ensures AddUp(Plus(start, w), nodes) == Plus(AddUp(start, nodes), w)
  {
    if nodes != [] {
      var last := |nodes| - 1;
      AddUpStart(start, w, nodes[..last]);
      PlusSwaps(AddUp(start, nodes[..last]), nodes[last].totals, w);
    }
  }

  lemma AddUpOneMore<K>(start: Totals, nodes: seq<Node<K>>, x: Node<K>)
    ensures AddUp(start, nodes + [x]) == Plus(AddUp(start, nodes), x.totals)
    ensures AddUpDirectories(nodes + [x]) == Sum64(AddUpDirectories(nodes), Sum64(1, x.directories))
  {
  }

  lemma PlusNothing(a: Totals)
    ensures Plus(a, Wrap(NOTHING)) == a && Plus(Wrap(NOTHING), a) == a
  {
  }

  /** An insertion anywhere below a node adds the entry's weight to the node's propagated totals. */
  lemma {:induction false} InsertAddsWeight<K>(node: Node<K>, path: seq<K>, leaf: Leaf)
    ensures Propagated(Insert(node, path, leaf)).totals == Plus(Propagated(node).totals, Wrap(Weight(leaf)))
    decreases |path|
  {
    if path == [] {
      PlacedAddsWeight(node, leaf);
    } else {
      var i := Find(node.children, path[0]);
      if i < |node.children| {
        var child := node.children[i];
        InsertAddsWeight(child, path[1..], leaf);
        ReplacedChildAddsWeight(node, i, Insert(child, path[1..], leaf), Wrap(Weight(leaf)));
      } else {
        InsertAddsWeight(Fresh(path[0]), path[1..], leaf);
        PropagatedFresh(path[0]);
        PlusNothing(Wrap(Weight(leaf)));
        NewChildAddsWeight(node, Insert(Fresh(path[0]), path[1..], leaf));
      }
      hide Propagated, Plus, Wrap, Weight, Placed, Find;
    }
  }

  lemma PropagatedIs<K>(node: Node<K>)
    ensures Propagated(node).totals == AddUp(node.totals, Propagated(node).children)
    ensures Propagated(node).directories == AddUpDirectories(Propagated(node).children)
  {
  }

  lemma ReplacedChild<K>(node: Node<K>, i: nat, grown: Node<K>)
    requires i < |node.children|
    ensures Propagated(node.(children := node.children[i := grown])).children
              == Propagated(node).children[i := Propagated(grown)]
  {
  }

  lemma NewChild<K>(node: Node<K>, grown: Node<K>)
    ensures Propagated(node.(children := node.children + [grown])).children
              == Propagated(node).children + [Propagated(grown)]
  {
    hide AddUp, AddUpDirectories;
    var after := node.(children := node.children + [grown]);
    hide Propagated;
    forall i | 0 <= i < |after.children|
      ensures Propagated(after).children[i] == (Propagated(node).children + [Propagated(grown)])[i]
    {
      assert Propagated(after).children[i] == Propagated(after.children[i]);
    }
  }

  lemma ReplacedChildAddsWeight<K>(node: Node<K>, i: nat, grown: Node<K>, w: Totals)
    requires i < |node.children| && Propagated(grown).totals == Plus(Propagated(node.children[i]).totals, w)
    ensures Propagated(node.(children := node.children[i := grown])).totals == Plus(Propagated(node).totals, w)
  {
    ReplacedChild(node, i, grown);
    PropagatedIs(node);
    PropagatedIs(node.(children := node.children[i := grown]));
    AddUpUpdated(node.totals, Propagated(node).children, i, Propagated(grown), w);
    hide Propagated, Plus, AddUp;
  }

  lemma NewChildAddsWeight<K>(node: Node<K>, grown: Node<K>)
    ensures Propagated(node.(children := node.children + [grown])).totals
              == Plus(Propagated(node).totals, Propagated(grown).totals)
  {
    NewChild(node, grown);
    PropagatedIs(node);
    PropagatedIs(node.(children := node.children + [grown]));
    AddUpOneMore(node.totals, Propagated(node).children, Propagated(grown));
    hide Propagated, Plus, AddUp;
  }

  lemma PropagatedFresh<K>(name: K)
    ensures Propagated(Fresh(name)) == Fresh(name)
  {
  }

  lemma PlacedAddsWeight<K>(node: Node<K>, leaf: Leaf)
    ensures Propagated(Placed(node, leaf)).totals == Plus(Propagated(node).totals, Wrap(Weight(leaf)))
  {
    var below := Propagated(node).children;
    assert Propagated(Placed(node, leaf)).children == below;
    AddUpStart(node.totals, Wrap(Weight(leaf)), below);
    PlusNothing(Propagated(node).totals);
  }

  /** The exact sums over the entries whose path has `p` as a prefix. */
  function SumUnder<K(==)>(items: seq<Item<K>>, p: seq<K>): Sums {
    if items == [] then NOTHING
    else
      var last := |items| - 1;
      var before := SumUnder(items[..last], p);
      if p <= items[last].path then Add(before, Weight(items[last].leaf)) else before
  }

  /** The entries other than folders at or below `p`. */
  function EntriesBelow<K(==)>(items: seq<Item<K>>, p: seq<K>): seq<Entry> {
    if items == [] then []
    else
      var last := |items| - 1;
      var before := EntriesBelow(items[..last], p);
      if p <= items[last].path && items[last].leaf.AFile? then before + [items[last].leaf.entry] else before
  }

  function LogicalBytes(entries: seq<Entry>): nat {
    if entries == [] then 0 else LogicalBytes(entries[..|entries| - 1]) + entries[|entries| - 1].logicalSize
  }

  /** An entry without a size on disk counts its logical size. */
  function BytesOnDisk(entries: seq<Entry>): nat {
    if entries == [] then 0
    else
      var last := entries[|entries| - 1];
      BytesOnDisk(entries[..|entries| - 1]) + if last.sizeOnDisk == 0 then last.logicalSize else last.sizeOnDisk
  }

  lemma OneEntryMore(entries: seq<Entry>, e: Entry)
    ensures LogicalBytes(entries + [e]) == LogicalBytes(entries) + e.logicalSize
    ensures BytesOnDisk(entries + [e]) == BytesOnDisk(entries)
              + if e.sizeOnDisk == 0 then e.logicalSize else e.sizeOnDisk
  {
    assert (entries + [e])[..|entries|] == entries;
  }

  lemma {:induction false} SumUnderIs<K>(items: seq<Item<K>>, p: seq<K>)
    ensures var below := EntriesBelow(items, p);
      SumUnder(items, p) == Sums(|below|, LogicalBytes(below), BytesOnDisk(below))
  {
    hide LogicalBytes, BytesOnDisk;
    if items == [] {
      assert LogicalBytes([]) == 0 && BytesOnDisk([]) == 0 by { NoEntries(); }
    } else {
      var last := |items| - 1;
      SumUnderIs(items[..last], p);
      if p <= items[last].path && items[last].leaf.AFile? {
        OneEntryMore(EntriesBelow(items[..last], p), items[last].leaf.entry);
      }
    }
  }

  lemma NoEntries()
    ensures LogicalBytes([]) == 0 && BytesOnDisk([]) == 0
  {
  }

  /** The files to be listed at `p`, in the order they were added. */
  function FilesAt<K(==)>(items: seq<Item<K>>, p: seq<K>): seq<Entry> {
    if items == [] then []
    else
      var last := |items| - 1;
      var before := FilesAt(items[..last], p);
      if items[last].path == p && items[last].leaf.AFile? then before + [items[last].leaf.entry] else before
  }

  ghost predicate Occurs<K(!new)>(items: seq<Item<K>>, p: seq<K>) {
    p == [] || exists k :: 0 <= k < |items| && p <= items[k].path
  }

  lemma OccursStep<K(!new)>(items: seq<Item<K>>, p: seq<K>)
    requires items != []
    ensures Occurs(items, p) <==> Occurs(items[..|items| - 1], p) || p <= items[|items| - 1].path
  {
  }

  /** Which paths exist, what files they list, and what their totals come to once propagated. */
  lemma {:induction false} AtBuilt<K(!new)>(root: K, items: seq<Item<K>>, p: seq<K>)
    ensures At(Built(root, items), p).Some? <==> Occurs(items, p)
    ensures SumUnder(items, p) == NOTHING || Occurs(items, p)
    ensures FilesAt(items, p) == [] || Occurs(items, p)
    ensures Occurs(items, p) ==> At(Built(root, items), p).value.files == FilesAt(items, p)
    ensures Occurs(items, p) ==> Propagated(At(Built(root, items), p).value).totals == Wrap(SumUnder(items, p))
  {
    if items == [] {
    } else {
      var last := |items| - 1;
      var tree, path, leaf := Built(root, items[..last]), items[last].path, items[last].leaf;
      AtBuilt(root, items[..last], p);
      OccursStep(items, p);
      InsertedAt(tree, path, leaf, p);
      if p <= path {
        var here := OrFresh(At(tree, p), if p == [] then tree.name else p[|p| - 1]);
        InsertAddsWeight(here, path[|p|..], leaf);
        WrapAdds(SumUnder(items[..last], p), Weight(leaf));
        InsertFiles(here, path[|p|..], leaf);
      }
    }
  }

  lemma InsertFiles<K>(node: Node<K>, path: seq<K>, leaf: Leaf)
    ensures Insert(node, path, leaf).files ==
      if path == [] && leaf.AFile? then node.files + [leaf.entry] else node.files
  {
  }

  // ---------------------------------------------------------------- directory counts

  /** How many nodes an insertion along `path` creates. */
  function New<K(==)>(node: Node<K>, path: seq<K>): (n: nat)
    ensures n <= |path|
    decreases |path|
  {
    if path == [] then 0
    else
      var i := Find(node.children, path[0]);
      if i < |node.children| then New(node.children[i], path[1..]) else |path|
  }

  lemma {:induction false} DirectoriesUpdated<K>(nodes: seq<Node<K>>, i: nat, x: Node<K>, d: U64)
    requires i < |nodes| && x.directories == Sum64(nodes[i].directories, d)
    ensures AddUpDirectories(nodes[i := x]) == Sum64(AddUpDirectories(nodes), d)
  {
    var last := |nodes| - 1;
    var before, n := AddUpDirectories(nodes[..last]), nodes[last].directories;
    if i == last {
      assert nodes[i := x][..last] == nodes[..last];
      Sum64Swaps(1, n, d);
      Sum64Swaps(before, Sum64(1, n), d);
    } else {
      DirectoriesUpdated(nodes[..last], i, x, d);
      assert nodes[i := x][..last] == nodes[..last][i := x];
      Sum64Swaps(before, Sum64(1, n), d);
    }
    hide Sum64;
  }

  lemma ReplacedChildDirectories<K>(node: Node<K>, i: nat, grown: Node<K>, d: U64)
    requires i < |node.children| && Propagated(grown).directories == Sum64(Propagated(node.children[i]).directories, d)
    ensures Propagated(node.(children := node.children[i := grown])).directories ==
      Sum64(Propagated(node).directories, d)
  {
    ReplacedChild(node, i, grown);
    PropagatedIs(node);
    PropagatedIs(node.(children := node.children[i := grown]));
    DirectoriesUpdated(Propagated(node).children, i, Propagated(grown), d);
    hide Propagated, Sum64, AddUpDirectories;
  }

  lemma NewChildDirectories<K>(node: Node<K>, grown: Node<K>)
    ensures Propagated(node.(children := node.children + [grown])).directories
              == Sum64(Propagated(node).directories, Sum64(1, Propagated(grown).directories))
  {
    NewChild(node, grown);
    PropagatedIs(node);
    PropagatedIs(node.(children := node.children + [grown]));
    AddUpOneMore(Wrap(NOTHING), Propagated(node).children, Propagated(grown));
    hide Propagated, Sum64, AddUpDirectories;
  }

  lemma PlacedDirectories<K>(node: Node<K>, leaf: Leaf)
    ensures Propagated(Placed(node, leaf)).directories == Propagated(node).directories
  {
  }

  lemma {:induction false} InsertAddsDirectories<K>(node: Node<K>, path: seq<K>, leaf: Leaf)
    ensures Propagated(Insert(node, path, leaf)).directories
              == Sum64(Propagated(node).directories, New(node, path) % TWO_TO_THE_64)
    decreases |path|
  {
    hide Propagated, Placed, Sum64, AddUpDirectories, AddUp, Plus, Wrap;
    if path == [] {
      PlacedDirectories(node, leaf);
    } else {
      var i := Find(node.children, path[0]);
      if i < |node.children| {
        var child := node.children[i];
        InsertAddsDirectories(child, path[1..], leaf);
        ReplacedChildDirectories(node, i, Insert(child, path[1..], leaf), New(child, path[1..]) % TWO_TO_THE_64);
      } else {
        InsertAddsDirectories(Fresh(path[0]), path[1..], leaf);
        PropagatedFresh(path[0]);
        NewChildDirectories(node, Insert(Fresh(path[0]), path[1..], leaf));
        NewInFresh(path[0], path[1..]);
        WrapAdds64(0, |path| - 1);
        WrapAdds64(1, |path| - 1);
      }
    }
  }

  lemma NewInFresh<K>(name: K, path: seq<K>)
    ensures New(Fresh(name), path) == |path|
  {
  }

  lemma {:induction false} NewIs<K>(node: Node<K>, path: seq<K>, n: nat)
    requires n <= |path|
    ensures At(node, path[..n]).Some? <==> n <= |path| - New(node, path)
    decreases |path|
  {
    if n > 0 {
      var i := Find(node.children, path[0]);
      assert path[..n][0] == path[0] && path[..n][1..] == path[1..][..n - 1];
      if i < |node.children| {
        NewIs(node.children[i], path[1..], n - 1);
      }
    }
  }

  lemma {:induction false} NewFromPrefix<K>(node: Node<K>, path: seq<K>, p: seq<K>)
    requires p <= path && At(node, p).Some?
    ensures New(At(node, p).value, path[|p|..]) == New(node, path)
    decreases |p|
  {
    if p == [] {
      assert path[|p|..] == path;
    } else {
      var i := Find(node.children, path[0]);
      NewFromPrefix(node.children[i], path[1..], p[1..]);
      assert path[1..][|p| - 1..] == path[|p|..];
    }
  }

  /** The strict descendants of `p`. */
  ghost function PathsBelow<K>(items: seq<Item<K>>, p: seq<K>): set<seq<K>> {
    set k, n | 0 <= k < |items| && |p| < n <= |items[k].path| && p <= items[k].path :: items[k].path[..n]
  }

  lemma PathsBelowIs<K(!new)>(items: seq<Item<K>>, p: seq<K>, q: seq<K>)
    ensures q in PathsBelow(items, p) <==> Occurs(items, q) && p < q
  {
    if Occurs(items, q) && p < q {
      var k :| 0 <= k < |items| && q <= items[k].path;
      assert q == items[k].path[..|q|];
    }
  }

  ghost function LongPrefixes<K>(path: seq<K>, lo: nat): set<seq<K>> {
    set n | lo < n <= |path| :: path[..n]
  }

  lemma {:induction false} LongPrefixesCount<K>(path: seq<K>, lo: nat)
    requires lo <= |path|
    ensures |LongPrefixes(path, lo)| == |path| - lo
    decreases |path| - lo
  {
    if lo < |path| {
      LongPrefixesCount(path, lo + 1);
      assert LongPrefixes(path, lo) == LongPrefixes(path, lo + 1) + {path[..lo + 1]};
      assert path[..lo + 1] !in LongPrefixes(path, lo + 1);
    } else {
      assert LongPrefixes(path, lo) == {};
    }
  }

  lemma PathsBelowGains<K(!new)>(root: K, items: seq<Item<K>>, p: seq<K>, q: seq<K>)
    requires items != [] && p <= items[|items| - 1].path
    ensures var last := |items| - 1;
      var path := items[last].path;
      var known := |path| - New(Built(root, items[..last]), path);
      q in PathsBelow(items, p) <==>
        q in PathsBelow(items[..last], p) || q in LongPrefixes(path, if known < |p| then |p| else known)
  {
    var last := |items| - 1;
    var before, path := items[..last], items[last].path;
    hide PathsBelow, Occurs, Built, At, New, Propagated, SumUnder, FilesAt;
    PathsBelowIs(items, p, q);
    PathsBelowIs(before, p, q);
    OccursStep(items, q);
    if q <= path {
      AtBuilt(root, before, q);
      NewIs(Built(root, before), path, |q|);
    }
  }

  lemma PathsBelowStep<K(!new)>(root: K, items: seq<Item<K>>, p: seq<K>)
    requires items != [] && p <= items[|items| - 1].path
    ensures var last := |items| - 1;
      var tree, path := Built(root, items[..last]), items[last].path;
      |PathsBelow(items, p)| == |PathsBelow(items[..last], p)| +
        if At(tree, p).Some? then New(At(tree, p).value, path[|p|..]) else |path| - |p|
  {
    hide At, Built, New, Propagated, SumUnder, FilesAt, PathsBelow, LongPrefixes, Occurs;
    var last := |items| - 1;
    var before, path := items[..last], items[last].path;
    var tree := Built(root, before);
    NewIs(tree, path, |p|);
    assert path[..|p|] == p;
    if At(tree, p).Some? {
      NewFromPrefix(tree, path, p);
    }
    var known := |path| - New(tree, path);
    var lo := if known < |p| then |p| else known;
    LongPrefixesCount(path, lo);
    forall q {
      PathsBelowGains(root, items, p, q);
    }
    assert PathsBelow(items, p) == PathsBelow(before, p) + LongPrefixes(path, lo);
    forall q | q in LongPrefixes(path, lo) ensures q !in PathsBelow(before, p) {
      LongPrefixesNest(path, lo, known, q);
      LongPrefixIsNew(root, before, path, p, q);
    }
    assert PathsBelow(before, p) !! LongPrefixes(path, lo);
  }

  lemma LongPrefixesNest<K>(path: seq<K>, lo: nat, lower: nat, q: seq<K>)
    requires q in LongPrefixes(path, lo) && lower <= lo
    ensures q in LongPrefixes(path, lower)
  {
  }

  lemma LongPrefixIsNew<K(!new)>(root: K, items: seq<Item<K>>, path: seq<K>, p: seq<K>, q: seq<K>)
    requires q in LongPrefixes(path, |path| - New(Built(root, items), path))
    ensures q !in PathsBelow(items, p)
  {
    hide At, Built, New, Propagated, SumUnder, FilesAt;
    var n :| |path| - New(Built(root, items), path) < n <= |path| && q == path[..n];
    NewIs(Built(root, items), path, n);
    hide LongPrefixes, At, Built, New;
    PathsBelowIs(items, p, q);
    AtBuilt(root, items, q);
    hide Occurs, PathsBelow;
  }

  lemma PathsBelowSame<K(!new)>(items: seq<Item<K>>, p: seq<K>)
    requires items != [] && !(p <= items[|items| - 1].path)
    ensures PathsBelow(items, p) == PathsBelow(items[..|items| - 1], p)
  {
  }

  lemma NothingBelow<K(!new)>(items: seq<Item<K>>, p: seq<K>)
    requires !Occurs(items, p)
    ensures PathsBelow(items, p) == {}
  {
  }

  lemma {:induction false} DirectoriesAt<K(!new)>(root: K, items: seq<Item<K>>, p: seq<K>)
    requires At(Built(root, items), p).Some?
    ensures Propagated(At(Built(root, items), p).value).directories == |PathsBelow(items, p)| % TWO_TO_THE_64
  {
    hide Propagated, Insert, New, Sum64, FilesAt, SumUnder;
    if items == [] {
      assert PathsBelow(items, p) == {};
      PropagatedFresh(root);
    } else {
      hide PathsBelow;
      var last := |items| - 1;
      var before, path, leaf := items[..last], items[last].path, items[last].leaf;
      var tree := Built(root, before);
      InsertedAt(tree, path, leaf, p);
      if p <= path {
        var here := OrFresh(At(tree, p), if p == [] then tree.name else p[|p| - 1]);
        PathsBelowStep(root, items, p);
        InsertAddsDirectories(here, path[|p|..], leaf);
        if At(tree, p).Some? {
          DirectoriesAt(root, before, p);
        } else {
          AtBuilt(root, before, p);
          NothingBelow(before, p);
          PropagatedFresh(here.name);
          NewInFresh(here.name, path[|p|..]);
        }
        WrapAdds64(|PathsBelow(before, p)|, New(here, path[|p|..]));
      } else {
        DirectoriesAt(root, before, p);
        PathsBelowSame(items, p);
      }
    }
  }

  // ---------------------------------------------------------------- the tree that is handed out

  lemma {:induction false} AtPropagated<K>(node: Node<K>, p: seq<K>)
    ensures At(Propagated(node), p) == if At(node, p).Some? then Some(Propagated(At(node, p).value)) else None
    decreases |p|
  {
    hide Propagated;
    if p != [] {
      FindSame(Propagated(node).children, node.children, p[0]);
      var i := Find(node.children, p[0]);
      if i < |node.children| {
        AtPropagated(node.children[i], p[1..]);
      }
    }
  }

  /**
   The tree of any list of entries: which paths it has, and for each of them the files listed there and the
   four totals, which are those of the entries below, modulo 2^64.
   */
  lemma TreeAgreesWithEntries<K(!new)>(root: K, items: seq<Item<K>>, p: seq<K>)
    ensures At(Propagated(Built(root, items)), p).Some? <==> Occurs(items, p)
    ensures Occurs(items, p) ==>
      var node := At(Propagated(Built(root, items)), p).value;
      && node.files == FilesAt(items, p)
      && node.totals == Wrap(SumUnder(items, p))
      && node.totals.files == |EntriesBelow(items, p)| % TWO_TO_THE_64
      && node.totals.logicalBytes == LogicalBytes(EntriesBelow(items, p)) % TWO_TO_THE_64
      && node.totals.sizeOnDisk == BytesOnDisk(EntriesBelow(items, p)) % TWO_TO_THE_64
      && node.directories == |PathsBelow(items, p)| % TWO_TO_THE_64
  {
    SumUnderIs(items, p);
    AtPropagated(Built(root, items), p);
    AtBuilt(root, items, p);
    if Occurs(items, p) {
      DirectoriesAt(root, items, p);
    }
    hide PathsBelow, SumUnder, Occurs;
  }

  /** No two children of a node have the same name, anywhere in the tree. */
  ghost predicate SiblingsDiffer<K>(node: Node<K>) {
    && (forall i, j :: 0 <= i < j < |node.children| ==> node.children[i].name != node.children[j].name)
    && (forall i :: 0 <= i < |node.children| ==> SiblingsDiffer(node.children[i]))
  }

  lemma {:induction false} InsertKeepsSiblings<K>(node: Node<K>, path: seq<K>, leaf: Leaf)
    requires SiblingsDiffer(node)
    ensures SiblingsDiffer(Insert(node, path, leaf))
    decreases |path|
  {
    if path == [] {
      assert Insert(node, path, leaf).children == node.children;
    } else {
      var i := Find(node.children, path[0]);
      InsertKeepsSiblings(if i < |node.children| then node.children[i] else Fresh(path[0]), path[1..], leaf);
    }
  }

  lemma {:induction false} PropagatedKeepsSiblings<K>(node: Node<K>)
    requires SiblingsDiffer(node)
    ensures SiblingsDiffer(Propagated(node))
  {
    forall i | 0 <= i < |node.children| ensures SiblingsDiffer(Propagated(node.children[i])) {
      PropagatedKeepsSiblings(node.children[i]);
    }
  }

  lemma {:induction false} BuiltSiblingsDiffer<K>(root: K, items: seq<Item<K>>)
    ensures SiblingsDiffer(Built(root, items)) && SiblingsDiffer(Propagated(Built(root, items)))
  {
    if items != [] {
      var last := |items| - 1;
      BuiltSiblingsDiffer(root, items[..last]);
      InsertKeepsSiblings(Built(root, items[..last]), items[last].path, items[last].leaf);
    }
    PropagatedKeepsSiblings(Built(root, items));
  }

  // ---------------------------------------------------------------- any order of insertion

  lemma AddSwaps(a: Sums, b: Sums, c: Sums)
    ensures Add(Add(a, b), c) == Add(Add(a, c), b)
  {
  }

  function Share<K(==)>(item: Item<K>, p: seq<K>): Sums {
    if p <= item.path then Weight(item.leaf) else NOTHING
  }

  lemma {:induction false} SumWithout<K>(items: seq<Item<K>>, p: seq<K>, k: nat)
    requires k < |items|
    ensures SumUnder(items, p) == Add(SumUnder(items[..k] + items[k + 1..], p), Share(items[k], p))
  {
    var last := |items| - 1;
    if k == last {
      assert items[..k] + items[k + 1..] == items[..last];
    } else {
      var without := items[..k] + items[k + 1..];
      SumWithout(items[..last], p, k);
      assert without[..|without| - 1] == items[..last][..k] + items[..last][k + 1..];
      AddSwaps(SumUnder(items[..last][..k] + items[..last][k + 1..], p), Share(items[k], p), Share(items[last], p));
    }
  }

  lemma {:induction false} SumPermuted<K>(a: seq<Item<K>>, b: seq<Item<K>>, p: seq<K>)
    requires multiset(a) == multiset(b)
    ensures SumUnder(a, p) == SumUnder(b, p)
    decreases |a|
  {
    if a == [] {
      assert |multiset(b)| == 0;
    } else {
      assert a[0] in multiset(b);
      var k :| 0 <= k < |b| && b[k] == a[0];
      assert a == [a[0]] + a[1..];
      assert b == b[..k] + [b[k]] + b[k + 1..];
      assert multiset(b[..k] + b[k + 1..]) == multiset(b) - multiset{a[0]};
      SumPermuted(a[1..], b[..k] + b[k + 1..], p);
      SumWithout(a, p, 0);
      assert a[..0] + a[0 + 1..] == a[1..];
      SumWithout(b, p, k);
    }
  }

  lemma OccursPermuted<K(!new)>(a: seq<Item<K>>, b: seq<Item<K>>, p: seq<K>)
    requires multiset(a) == multiset(b)
    ensures Occurs(a, p) ==> Occurs(b, p)
  {
    if Occurs(a, p) && p != [] {
      var k :| 0 <= k < |a| && p <= a[k].path;
      assert a[k] in multiset(b);
      var j :| 0 <= j < |b| && b[j] == a[k];
    }
  }

  /** The paths of the tree and all the totals at each of them are the same for every order of the entries. */
  lemma OrderDoesNotMatter<K(!new)>(root: K, a: seq<Item<K>>, b: seq<Item<K>>, p: seq<K>)
    requires multiset(a) == multiset(b)
    ensures var first, second := At(Propagated(Built(root, a)), p), At(Propagated(Built(root, b)), p);
      && first.Some? == second.Some?
      && (first.Some? ==>
            first.value.totals == second.value.totals && first.value.directories == second.value.directories)
  {
    TreeAgreesWithEntries(root, a, p);
    TreeAgreesWithEntries(root, b, p);
    OccursPermuted(a, b, p);
    OccursPermuted(b, a, p);
    SumPermuted(a, b, p);
    hide At, Propagated, Built, SumUnder, FilesAt;
    forall q ensures q in PathsBelow(a, p) <==> q in PathsBelow(b, p) {
      PathsBelowIs(a, p, q);
      PathsBelowIs(b, p, q);
      OccursPermuted(a, b, q);
      OccursPermuted(b, a, q);
    }
    assert PathsBelow(a, p) == PathsBelow(b, p);
  }
}
