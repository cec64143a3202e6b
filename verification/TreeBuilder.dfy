/**
 `TreeBuilder` of src/core/scan/tree_model.cpp, which keys children by interned handles, and the proof
 that the tree it builds is the tree of the entries' own strings.
 */
module TreeBuilder {
  import opened Sequences
  import opened StringInterner
  import opened TreeModel

  // ---------------------------------------------------------------- path segments

  predicate Separator(c: char) {
    c == '/' || c == '\\'
  }

  /** The pieces of a path between separators. */
  function Pieces(text: string): (pieces: seq<string>)
    ensures pieces != []
  {
    if text == [] then [""]
    else
      var rest := Pieces(text[1..]);
      if Separator(text[0]) then [""] + rest else [[text[0]] + rest[0]] + rest[1..]
  }

  /** The pieces that name a folder: `add` skips the others. */
  function Named(pieces: seq<string>): seq<string> {
    if pieces == [] then []
    else
      var last := |pieces| - 1;
      Named(pieces[..last]) + if pieces[last] == "" || pieces[last] == "/" then [] else [pieces[last]]
  }

  function Joined(names: seq<string>): string {
    if names == [] then ""
    else if |names| == 1 then names[0]
    else names[0] + "/" + Joined(names[1..])
  }

  predicate IsName(name: string) {
    name != "" && forall i :: 0 <= i < |name| ==> !Separator(name[i])
  }

  lemma {:induction false} PiecesOfName(name: string, rest: string)
    requires forall i :: 0 <= i < |name| ==> !Separator(name[i])
    ensures rest == [] ==> Pieces(name + rest) == [name]
    ensures rest != [] && Separator(rest[0]) ==> Pieces(name + rest) == [name] + Pieces(rest[1..])
  {
    if name == [] {
      assert name + rest == rest;
    } else {
      PiecesOfName(name[1..], rest);
      assert (name + rest)[1..] == name[1..] + rest;
      assert [name[0]] + name[1..] == name;
    }
  }

  lemma {:induction false} NamedFirst(piece: string, pieces: seq<string>)
    ensures Named([piece] + pieces) == (if piece == "" || piece == "/" then [] else [piece]) + Named(pieces)
  {
    if pieces == [] {
      assert [piece] + pieces == [piece] && [piece][..0] == [];
    } else {
      var last := |pieces| - 1;
      assert ([piece] + pieces)[..last + 1] == [piece] + pieces[..last];
      NamedFirst(piece, pieces[..last]);
    }
  }

  predicate NoSlash(name: string) {
    forall i :: 0 <= i < |name| ==> name[i] != '/' && name[i] != '\\'
  }

  lemma PiecesSplit(name: string, c: char, rest: string)
    requires NoSlash(name) && (c == '/' || c == '\\')
    ensures Pieces(name + ([c] + rest)) == [name] + Pieces(rest) && Pieces(name) == [name] && name != "/"
  {
    hide Pieces;
    PiecesOfName(name, [c] + rest);
    PiecesOfName(name, "");
    assert name + "" == name && ([c] + rest)[1..] == rest;
    assert |name| == 1 ==> name[0] != '/';
  }

  /** A slash of either kind ends a name; between two of them there is none. */
  lemma SplitAtSlash(name: string, c: char, rest: string)
    requires NoSlash(name) && (c == '/' || c == '\\')
    ensures Named(Pieces(name + ([c] + rest))) == (if name == "" then [] else [name]) + Named(Pieces(rest))
    ensures Named(Pieces(name)) == if name == "" then [] else [name]
  {
    hide Pieces, Named, NoSlash;
    PiecesSplit(name, c, rest);
    NamedFirst(name, Pieces(rest));
    NamedFirst(name, []);
    NothingNamed();
    assert [name] + [] == [name];
  }

  lemma NothingNamed()
    ensures Named([]) == []
  {
  }

  lemma {:induction false} NamedKeeps(names: seq<string>)
    requires forall i :: 0 <= i < |names| ==> IsName(names[i])
    ensures Named(names) == names
  {
    if names != [] {
      var last := |names| - 1;
      NamedKeeps(names[..last]);
      assert IsName(names[last]);
      assert !Separator(names[last][0]);
    }
  }

  lemma {:induction false} PiecesJoined(names: seq<string>)
    requires names != [] && forall i :: 0 <= i < |names| ==> IsName(names[i])
    ensures Pieces(Joined(names)) == names
  {
    assert IsName(names[0]);
    if |names| == 1 {
      PiecesOfName(names[0], "");
      assert names[0] + "" == names[0];
    } else {
      PiecesJoined(names[1..]);
      var rest := "/" + Joined(names[1..]);
      PiecesOfName(names[0], rest);
      assert rest[1..] == Joined(names[1..]);
      assert Joined(names) == names[0] + rest;
    }
  }

  /** A path written with separators between names is taken apart into those names. */
  lemma JoinedTakenApart(names: seq<string>)
    requires forall i :: 0 <= i < |names| ==> IsName(names[i])
    ensures Named(Pieces(Joined(names))) == names
  {
    if names != [] {
      PiecesJoined(names);
      NamedKeeps(names);
    }
  }

  // ---------------------------------------------------------------- cursors

  /** A cursor is the way down from the root: a child's position at each level. */
  predicate Reaches<K>(node: Node<K>, cursor: seq<nat>)
    decreases |cursor|
  {
    cursor == [] || (cursor[0] < |node.children| && Reaches(node.children[cursor[0]], cursor[1..]))
  }

  function Get<K>(node: Node<K>, cursor: seq<nat>): Node<K>
    requires Reaches(node, cursor)
    decreases |cursor|
  {
    if cursor == [] then node else Get(node.children[cursor[0]], cursor[1..])
  }

  function Put<K>(node: Node<K>, cursor: seq<nat>, x: Node<K>): Node<K>
    requires Reaches(node, cursor)
    decreases |cursor|
  {
    if cursor == [] then x
    else node.(children := node.children[cursor[0] := Put(node.children[cursor[0]], cursor[1..], x)])
  }

  lemma {:induction false} PutThenGet<K>(node: Node<K>, cursor: seq<nat>, x: Node<K>, y: Node<K>)
    requires Reaches(node, cursor)
    ensures Reaches(Put(node, cursor, x), cursor)
    ensures Get(Put(node, cursor, x), cursor) == x
    ensures Put(Put(node, cursor, x), cursor, y) == Put(node, cursor, y)
    decreases |cursor|
  {
    if cursor != [] {
      PutThenGet(node.children[cursor[0]], cursor[1..], x, y);
    }
  }

  lemma {:induction false} OneDown<K>(node: Node<K>, cursor: seq<nat>, i: nat, y: Node<K>)
    requires Reaches(node, cursor) && i < |Get(node, cursor).children|
    ensures Reaches(node, cursor + [i])
    ensures Get(node, cursor + [i]) == Get(node, cursor).children[i]
    ensures var here := Get(node, cursor);
      Put(node, cursor + [i], y) == Put(node, cursor, here.(children := here.children[i := y]))
    decreases |cursor|
  {
    if cursor != [] {
      OneDown(node.children[cursor[0]], cursor[1..], i, y);
      assert (cursor + [i])[1..] == cursor[1..] + [i];
    }
  }

  /** What `findOrInsertChild` makes of the parent. */
  function WithChild<K(==)>(parent: Node<K>, name: K): Node<K> {
    if Find(parent.children, name) < |parent.children| then parent
    else parent.(children := parent.children + [Fresh(name)])
  }

  /** The insertion still to be done below the cursor. */
  function Remaining<K(==)>(root: Node<K>, cursor: seq<nat>, path: seq<K>, leaf: Leaf): Node<K>
    requires Reaches(root, cursor)
  {
    Put(root, cursor, Insert(Get(root, cursor), path, leaf))
  }

  lemma WithChildInsert<K>(here: Node<K>, path: seq<K>, leaf: Leaf)
    requires path != []
    ensures var i := Find(here.children, path[0]);
      var grown := WithChild(here, path[0]);
      && i < |grown.children|
      && Insert(here, path, leaf) ==
           grown.(children := grown.children[i := Insert(grown.children[i], path[1..], leaf)])
  {
  }

  lemma StepDown<K>(root: Node<K>, cursor: seq<nat>, path: seq<K>, leaf: Leaf)
    requires Reaches(root, cursor) && path != []
    ensures var here := Get(root, cursor);
      var after := Put(root, cursor, WithChild(here, path[0]));
      var down := cursor + [Find(here.children, path[0])];
      Reaches(after, down) && Remaining(after, down, path[1..], leaf) == Remaining(root, cursor, path, leaf)
  {
    var here := Get(root, cursor);
    var grown := WithChild(here, path[0]);
    var i := Find(here.children, path[0]);
    var after := Put(root, cursor, grown);
    WithChildInsert(here, path, leaf);
    var child := Insert(grown.children[i], path[1..], leaf);
    PutThenGet(root, cursor, grown, grown.(children := grown.children[i := child]));
    OneDown(after, cursor, i, child);
    hide Put, Get, Reaches, Insert, WithChild;
  }

  // ---------------------------------------------------------------- handles and strings

  /** The same tree with every handle replaced by the string it names. */
  function Viewed(node: Node<Handle>, words: seq<string>): (r: Node<string>)
    ensures |r.children| == |node.children|
    ensures forall i :: 0 <= i < |r.children| ==> r.children[i] == Viewed(node.children[i], words)
  {
    Node(View(words, node.name), node.totals, node.directories,
         seq(|node.children|, i requires 0 <= i < |node.children| => Viewed(node.children[i], words)), node.files)
  }

  predicate IsKnown(h: Handle, words: seq<string>) {
    1 <= h <= |words|
  }

  ghost predicate Known(node: Node<Handle>, words: seq<string>) {
    IsKnown(node.name, words) && forall i :: 0 <= i < |node.children| ==> Known(node.children[i], words)
  }

  lemma {:induction false} ViewedGrows(node: Node<Handle>, words: seq<string>, more: seq<string>)
    requires Known(node, words) && words <= more
    ensures Known(node, more) && Viewed(node, more) == Viewed(node, words)
  {
    forall i | 0 <= i < |node.children|
      ensures Known(node.children[i], more) && Viewed(node.children[i], more) == Viewed(node.children[i], words)
    {
      ViewedGrows(node.children[i], words, more);
    }
    assert Viewed(node, more).children == Viewed(node, words).children;
  }

  lemma {:induction false} ViewedGet(node: Node<Handle>, words: seq<string>, cursor: seq<nat>)
    requires Reaches(node, cursor) && Known(node, words)
    ensures Reaches(Viewed(node, words), cursor)
    ensures Get(Viewed(node, words), cursor) == Viewed(Get(node, cursor), words)
    ensures Known(Get(node, cursor), words)
    decreases |cursor|
  {
    if cursor != [] {
      ViewedGet(node.children[cursor[0]], words, cursor[1..]);
    }
  }

  lemma {:induction false} ViewedPut(node: Node<Handle>, words: seq<string>, cursor: seq<nat>, x: Node<Handle>)
    requires Reaches(node, cursor) && Known(node, words) && Known(x, words)
    ensures Reaches(Viewed(node, words), cursor)
    ensures Viewed(Put(node, cursor, x), words) == Put(Viewed(node, words), cursor, Viewed(x, words))
    ensures Known(Put(node, cursor, x), words)
    decreases |cursor|
  {
    if cursor != [] {
      var i := cursor[0];
      ViewedPut(node.children[i], words, cursor[1..], x);
      var child := Put(node.children[i], cursor[1..], x);
      ViewedChild(node, words, i, child);
    }
  }

  lemma ViewedChild(node: Node<Handle>, words: seq<string>, i: nat, child: Node<Handle>)
    requires i < |node.children|
    ensures Viewed(node.(children := node.children[i := child]), words)
              == Viewed(node, words).(children := Viewed(node, words).children[i := Viewed(child, words)])
  {
  }

  /** The handle comparison at the heart of `findOrInsertChild` compares strings. */
  lemma {:induction false} ViewedFind(children: seq<Node<Handle>>, viewed: seq<Node<string>>, words: seq<string>,
                                      h: Handle)
    requires Distinct(words) && IsKnown(h, words) && |viewed| == |children|
    requires forall i :: 0 <= i < |children| ==> IsKnown(children[i].name, words)
    requires forall i :: 0 <= i < |children| ==> viewed[i].name == View(words, children[i].name)
    ensures Find(children, h) == Find(viewed, View(words, h))
  {
  }

  lemma ViewedWithChild(node: Node<Handle>, words: seq<string>, h: Handle)
    requires Distinct(words) && IsKnown(h, words) && Known(node, words)
    ensures Viewed(WithChild(node, h), words) == WithChild(Viewed(node, words), View(words, h))
    ensures Known(WithChild(node, h), words)
    ensures Find(node.children, h) == Find(Viewed(node, words).children, View(words, h))
  {
    ViewedFind(node.children, Viewed(node, words).children, words, h);
    assert Viewed(Fresh(h), words) == Fresh(View(words, h));
    assert Viewed(node.(children := node.children + [Fresh(h)]), words).children
        == Viewed(node, words).children + [Fresh(View(words, h))];
  }

  /** One turn of the loop of `add`, seen on strings: the insertion still to be done is one name shorter. */
  lemma StepViewed(root: Node<Handle>, words: seq<string>, cursor: seq<nat>, path: seq<string>, leaf: Leaf)
    requires Reaches(root, cursor) && Known(root, words) && path != []
    requires Distinct(Interned(words, path[0])) && |Interned(words, path[0])| < HANDLES
    ensures var more := Interned(words, path[0]);
      var h := HandleOf(more, path[0]);
      var here := Get(root, cursor);
      var after := Put(root, cursor, WithChild(here, h));
      var down := cursor + [Find(here.children, h)];
      && Known(after, more) && Reaches(Viewed(root, words), cursor) && Reaches(Viewed(after, more), down)
      && Remaining(Viewed(after, more), down, path[1..], leaf) == Remaining(Viewed(root, words), cursor, path, leaf)
  {
    var more := Interned(words, path[0]);
    var h := HandleOf(more, path[0]);
    HandleViewsItsString(more, path[0]);
    ViewedGrows(root, words, more);
    ViewedGet(root, more, cursor);
    var here := Get(root, cursor);
    ViewedWithChild(here, more, h);
    ViewedPut(root, more, cursor, WithChild(here, h));
    hide HandleOf, View, Viewed, Known, Put, Get, Reaches, WithChild, Interned;
    StepDown(Viewed(root, more), cursor, path, leaf);
    hide Remaining;
  }

  lemma {:induction false} PutSame<K>(node: Node<K>, cursor: seq<nat>)
    requires Reaches(node, cursor)
    ensures Put(node, cursor, Get(node, cursor)) == node
    decreases |cursor|
  {
    if cursor != [] {
      PutSame(node.children[cursor[0]], cursor[1..]);
    }
  }

  lemma {:induction false} ViewedPropagated(node: Node<Handle>, words: seq<string>)
    ensures Viewed(Propagated(node), words) == Propagated(Viewed(node, words))
  {
    var a, b := Propagated(node).children, Propagated(Viewed(node, words)).children;
    forall i | 0 <= i < |a| ensures Viewed(a[i], words) == b[i] {
      ViewedPropagated(node.children[i], words);
    }
    SameSums(node.totals, a, b);
    assert Viewed(Propagated(node), words).children == b;
  }

  lemma {:induction false} SameSums(start: Totals, a: seq<Node<Handle>>, b: seq<Node<string>>)
    requires |a| == |b|
    requires forall i :: 0 <= i < |a| ==> a[i].totals == b[i].totals && a[i].directories == b[i].directories
    ensures AddUp(start, a) == AddUp(start, b) && AddUpDirectories(a) == AddUpDirectories(b)
  {
    if a != [] {
      SameSums(start, a[..|a| - 1], b[..|b| - 1]);
    }
  }

  // ---------------------------------------------------------------- the class

  function InternedAll(words: seq<string>, names: seq<string>): seq<string> {
    if names == [] then words
    else Interned(InternedAll(words, names[..|names| - 1]), names[|names| - 1])
  }

  /** What an entry means at the moment it is added: its handles are looked up in the interner. */
  function ItemOf(words: seq<string>, entry: Entry): Item<string> {
    var names := Named(Pieces(View(words, entry.parentPath)));
    if entry.kind == Directory then Item(names + [View(InternedAll(words, names), entry.name)], AFolder)
    else Item(names, AFile(entry))
  }

  /** `propagateTotals`. */
  method PropagateTotals(node: Node<Handle>) returns (r: Node<Handle>)
    ensures r == Propagated(node)
    decreases node
  {
    hide Plus, Sum64, AddUp, AddUpDirectories, Propagated;
    var totals, directories, children := node.totals, 0, node.children;
    NoChildren(node.totals);
    for k := 0 to |node.children|
      invariant |children| == |node.children|
      invariant forall j :: 0 <= j < k ==> children[j] == Propagated(node.children[j])
      invariant forall j :: k <= j < |children| ==> children[j] == node.children[j]
      invariant totals == AddUp(node.totals, children[..k]) && directories == AddUpDirectories(children[..k])
    {
      var child := PropagateTotals(children[k]);
      ghost var before := children[..k];
      children := children[k := child];
      totals := Plus(totals, child.totals);
      directories := Sum64(directories, Sum64(1, child.directories));
      assert children[..k + 1] == before + [child];
      AddUpOneMore(node.totals, before, child);
    }
    assert children[..|children|] == children;
    PropagatedFrom(node, children);
    r := Node(node.name, totals, directories, children, node.files);
  }

  lemma NoChildren(start: Totals)
    ensures AddUp<Handle>(start, []) == start && AddUpDirectories<Handle>([]) == 0
  {
  }

  lemma PropagatedFrom(node: Node<Handle>, children: seq<Node<Handle>>)
    requires |children| == |node.children|
    requires forall j :: 0 <= j < |children| ==> children[j] == Propagated(node.children[j])
    ensures Propagated(node) ==
      Node(node.name, AddUp(node.totals, children), AddUpDirectories(children), children, node.files)
  {
    assert Propagated(node).children == children;
  }

  /** `findOrInsertChild`: the parent with the child in it, and the child's position. */
  method FindOrInsertChild(interner: Interner, parent: Node<Handle>, name: string)
    returns (grown: Node<Handle>, at: nat)
    requires interner.Valid()
    modifies interner
    ensures interner.Valid() && interner.Words() == Interned(old(interner.Words()), name)
    ensures grown == WithChild(parent, HandleOf(interner.Words(), name))
    ensures at == Find(parent.children, HandleOf(interner.Words(), name))
  {
    var h := interner.Intern(name);
    at := 0;
    while at < |parent.children| && parent.children[at].name != h
      invariant at <= |parent.children|
      invariant forall j :: 0 <= j < at ==> parent.children[j].name != h
    {
      at := at + 1;
    }
    assert at == Find(parent.children, h);
    if at < |parent.children| {
      return parent, at;
    }
    grown := parent.(children := parent.children + [Fresh(h)]);
  }

  ghost predicate Faithful(root: Node<Handle>, words: seq<string>, items: seq<Item<string>>) {
    Known(root, words) && Viewed(root, words) == Built("", items)
  }

  lemma EmptyIsFaithful(words: seq<string>)
    requires "" in words && |words| < HANDLES
    ensures Faithful(Fresh(HandleOf(words, "")), words, [])
  {
  }

  /** What is left of an insertion that is to end in `goal`, as long as the handles have not run out. */
  ghost predicate Pending(goal: Node<string>, root: Node<Handle>, words: seq<string>, cursor: seq<nat>,
                          path: seq<string>, leaf: Leaf) {
    |words| < HANDLES ==>
      && Known(root, words) && Reaches(Viewed(root, words), cursor)
      && Remaining(Viewed(root, words), cursor, path, leaf) == goal
  }

  lemma PendingStarts(root: Node<Handle>, words: seq<string>, items: seq<Item<string>>, item: Item<string>)
    requires |words| < HANDLES ==> Faithful(root, words, items)
    ensures Pending(Insert(Built("", items), item.path, item.leaf), root, words, [], item.path, item.leaf)
  {
  }

  lemma PendingStep(goal: Node<string>, root: Node<Handle>, words: seq<string>, cursor: seq<nat>,
                    path: seq<string>, leaf: Leaf)
    requires Reaches(root, cursor) && path != [] && Distinct(Interned(words, path[0]))
    requires Pending(goal, root, words, cursor, path, leaf)
    ensures var more := Interned(words, path[0]);
      var h := HandleOf(more, path[0]);
      var here := Get(root, cursor);
      var after := Put(root, cursor, WithChild(here, h));
      var down := cursor + [Find(here.children, h)];
      Reaches(after, down) && Pending(goal, after, more, down, path[1..], leaf)
  {
    var more := Interned(words, path[0]);
    var h := HandleOf(more, path[0]);
    StepDown(root, cursor, [h], leaf);
    if |more| < HANDLES {
      StepViewed(root, words, cursor, path, leaf);
    }
    hide HandleOf, Known, Viewed, Remaining, Put, Get, WithChild, Reaches, View;
  }

  lemma FileEnds(goal: Node<string>, root: Node<Handle>, words: seq<string>, cursor: seq<nat>, leaf: Leaf)
    requires Reaches(root, cursor) && Pending(goal, root, words, cursor, [], leaf) && |words| < HANDLES
    ensures var after := Put(root, cursor, Placed(Get(root, cursor), leaf));
      Known(after, words) && Viewed(after, words) == goal
  {
    var here := Get(root, cursor);
    ViewedGet(root, words, cursor);
    assert Viewed(Placed(here, leaf), words).children == Viewed(here, words).children;
    assert Viewed(Placed(here, leaf), words) == Placed(Viewed(here, words), leaf);
    ViewedPut(root, words, cursor, Placed(here, leaf));
    hide Put, Get, Reaches, Viewed;
  }

  lemma FolderEnds(goal: Node<string>, root: Node<Handle>, words: seq<string>, cursor: seq<nat>)
    requires Pending(goal, root, words, cursor, [], AFolder) && |words| < HANDLES
    ensures Known(root, words) && Viewed(root, words) == goal
  {
    PutSame(Viewed(root, words), cursor);
  }

  lemma {:induction false} NamedIsPrefix(pieces: seq<string>, k: nat)
    requires k <= |pieces|
    ensures Named(pieces[..k]) <= Named(pieces)
    decreases |pieces|
  {
    if k == |pieces| {
      assert pieces[..k] == pieces;
    } else {
      var last := |pieces| - 1;
      NamedIsPrefix(pieces[..last], k);
      assert pieces[..last][..k] == pieces[..k];
    }
  }

  ghost predicate Reached(goal: Node<string>, root: Node<Handle>, words: seq<string>) {
    |words| < HANDLES ==> Known(root, words) && Viewed(root, words) == goal
  }

  lemma ItemAdded(root: Node<Handle>, words: seq<string>, items: seq<Item<string>>, item: Item<string>)
    requires Reached(Insert(Built("", items), item.path, item.leaf), root, words)
    ensures |words| < HANDLES ==> Faithful(root, words, items + [item])
  {
  }

  lemma Cancel<T>(a: seq<T>, b: seq<T>, c: seq<T>)
    requires a + b == a + c
    ensures b == c
  {
    assert b == (a + b)[|a|..] == (a + c)[|a|..] == c;
  }

  lemma NextOf<T>(before: seq<T>, x: T, all: seq<T>, left: seq<T>, tail: seq<T>)
    requires before + [x] <= all && before + left == all + tail
    ensures left != [] && left[0] == x && before + [x] + left[1..] == all + tail
  {
    assert |left| == |all + tail| - |before|;
    assert left[0] == (before + left)[|before|] == all[|before|] == (before + [x])[|before|];
    assert left == [x] + left[1..];
    assert before + [x] + left[1..] == before + left;
  }

  lemma NamedStep(pieces: seq<string>, k: nat, left: seq<string>, tail: seq<string>)
    requires k < |pieces| && Named(pieces[..k]) + left == Named(pieces) + tail
    ensures (pieces[k] == "" || pieces[k] == "/") ==> Named(pieces[..k + 1]) == Named(pieces[..k])
    ensures !(pieces[k] == "" || pieces[k] == "/") ==>
              && Named(pieces[..k + 1]) == Named(pieces[..k]) + [pieces[k]]
              && left != [] && left[0] == pieces[k]
              && Named(pieces[..k + 1]) + left[1..] == Named(pieces) + tail
  {
    var before, after, all := Named(pieces[..k]), Named(pieces[..k + 1]), Named(pieces);
    assert pieces[..k + 1][..k] == pieces[..k];
    if !(pieces[k] == "" || pieces[k] == "/") {
      NamedIsPrefix(pieces, k + 1);
      assert after == before + [pieces[k]];
      NextOf(before, pieces[k], all, left, tail);
    }
  }

  lemma InternedOneMore(words: seq<string>, names: seq<string>, name: string)
    ensures InternedAll(words, names + [name]) == Interned(InternedAll(words, names), name)
  {
  }

  class TreeBuilder {
    const interner: Interner
    var root: Node<Handle>
    ghost var items: seq<Item<string>>

    /** The tree is the tree of the entries' strings for as long as the interner's handles have not run out. */
    ghost predicate Valid()
      reads this, interner
    {
      interner.Valid() && (|interner.Words()| < HANDLES ==> Faithful(root, interner.Words(), items))
    }

    constructor (interner: Interner)
      requires interner.Valid()
      modifies interner
      ensures Valid() && items == [] && this.interner == interner
      ensures interner.Words() == Interned(old(interner.Words()), "")
    {
      var h := interner.Intern("");
      this.interner := interner;
      root := Fresh(h);
      items := [];
      new;
      if |interner.Words()| < HANDLES {
        EmptyIsFaithful(interner.Words());
      }
      hide HandleOf, Faithful;
    }

    /** One turn of the loop of `add`: the cursor moves to the child with the name, made if it is not there. */
    method Descend(cursor: seq<nat>, name: string, ghost goal: Node<string>, ghost path: seq<string>, ghost leaf: Leaf)
      returns (down: seq<nat>)
      requires interner.Valid() && Reaches(root, cursor) && path != [] && path[0] == name
      requires Pending(goal, root, interner.Words(), cursor, path, leaf)
      modifies `root, interner
      ensures interner.Valid() && interner.Words() == Interned(old(interner.Words()), name)
      ensures Reaches(root, down) && Pending(goal, root, interner.Words(), down, path[1..], leaf)
    {
      ghost var words := interner.Words();
      var grown, at := FindOrInsertChild(interner, Get(root, cursor), name);
      PendingStep(goal, root, words, cursor, path, leaf);
      root := Put(root, cursor, grown);
      down := cursor + [at];
    }

    /** The loop of `add`. */
    method Walk(pieces: seq<string>, ghost goal: Node<string>, ghost tail: seq<string>, ghost leaf: Leaf)
      returns (cursor: seq<nat>)
      requires interner.Valid() && Pending(goal, root, interner.Words(), [], Named(pieces) + tail, leaf)
      modifies `root, interner
      ensures interner.Valid() && interner.Words() == InternedAll(old(interner.Words()), Named(pieces))
      ensures Reaches(root, cursor) && Pending(goal, root, interner.Words(), cursor, tail, leaf)
    {
      cursor := [];
      ghost var left := Named(pieces) + tail;
      for k := 0 to |pieces|
        invariant interner.Valid() && interner.Words() == InternedAll(old(interner.Words()), Named(pieces[..k]))
        invariant Reaches(root, cursor) && Named(pieces[..k]) + left == Named(pieces) + tail
        invariant Pending(goal, root, interner.Words(), cursor, left, leaf)
      {
        hide Pending, Reaches, Interned;
        var name := pieces[k];
        NamedStep(pieces, k, left, tail);
        if name == "" || name == "/" { continue; }
        InternedOneMore(old(interner.Words()), Named(pieces[..k]), name);
        hide Named, InternedAll;
        cursor := Descend(cursor, name, goal, left, leaf);
        left := left[1..];
      }
      assert pieces[..|pieces|] == pieces;
      Cancel(Named(pieces), left, tail);
    }

    /** The end of `add` for a folder. */
    method EndWithFolder(cursor: seq<nat>, entry: Entry, ghost goal: Node<string>, ghost name: string)
      requires interner.Valid() && Reaches(root, cursor) && name == View(interner.Words(), entry.name)
      requires Pending(goal, root, interner.Words(), cursor, [name], AFolder)
      modifies `root, interner
      ensures interner.Valid() && Reached(goal, root, interner.Words())
      ensures interner.Words() == Interned(old(interner.Words()), name)
    {
      var text := interner.Viewed(entry.name);
      assert [name][1..] == [];
      hide Pending, Reaches, View;
      var down := Descend(cursor, text, goal, [name], AFolder);
      if |interner.Words()| < HANDLES {
        FolderEnds(goal, root, interner.Words(), down);
      }
    }

    /** The end of `add` for anything else. */
    method EndWithFile(cursor: seq<nat>, entry: Entry, ghost goal: Node<string>)
      requires interner.Valid() && Reaches(root, cursor)
      requires Pending(goal, root, interner.Words(), cursor, [], AFile(entry))
      modifies `root
      ensures Reached(goal, root, interner.Words())
    {
      if |interner.Words()| < HANDLES {
        FileEnds(goal, root, interner.Words(), cursor, AFile(entry));
      }
      root := Put(root, cursor, Placed(Get(root, cursor), AFile(entry)));
    }

    method Grow(entry: Entry, pieces: seq<string>, ghost goal: Node<string>, ghost item: Item<string>)
      requires interner.Valid() && pieces == Pieces(View(interner.Words(), entry.parentPath))
      requires item == ItemOf(interner.Words(), entry)
      requires Pending(goal, root, interner.Words(), [], item.path, item.leaf)
      modifies `root, interner
      ensures interner.Valid() && Reached(goal, root, interner.Words())
      ensures interner.Words() == InternedAll(old(interner.Words()), item.path)
    {
      hide Pieces, Pending, Reaches, Reached, View, InternedAll, Named;
      ghost var words, names := interner.Words(), Named(pieces);
      if entry.kind == Directory {
        ghost var last := View(InternedAll(words, names), entry.name);
        var cursor := Walk(pieces, goal, [last], AFolder);
        EndWithFolder(cursor, entry, goal, last);
        InternedOneMore(words, names, last);
      } else {
        assert names + [] == names;
        var cursor := Walk(pieces, goal, [], AFile(entry));
        EndWithFile(cursor, entry, goal);
      }
    }

    /** `add`. */
    method Add(entry: Entry)
      requires Valid()
      modifies this, interner
      ensures Valid() && items == old(items) + [ItemOf(old(interner.Words()), entry)]
      ensures interner.Words() == InternedAll(old(interner.Words()), ItemOf(old(interner.Words()), entry).path)
    {
      ghost var item := ItemOf(interner.Words(), entry);
      PendingStarts(root, interner.Words(), items, item);
      hide Insert, Built, Pieces, Pending, Faithful, Reached, View, InternedAll, Named, ItemOf;
      var fullPath := interner.Viewed(entry.parentPath);
      Grow(entry, Pieces(fullPath), Insert(Built("", items), item.path, item.leaf), item);
      ItemAdded(root, interner.Words(), items, item);
      items := items + [item];
    }

    /** `build`. */
    method Build() returns (tree: Node<Handle>)
      requires Valid()
      modifies `root
      ensures tree == root == Propagated(old(root))
      ensures |interner.Words()| < HANDLES ==> Viewed(tree, interner.Words()) == Propagated(Built("", items))
    {
      ViewedPropagated(root, interner.Words());
      tree := PropagateTotals(root);
      root := tree;
    }
  }
}
