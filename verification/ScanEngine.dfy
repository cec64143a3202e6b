/**
 The walk of src/core/scan/scan_engine.cpp, as far as it feeds the folder tree: whatever the directory iterator
 comes upon is interned, added and in the end totalled. The tree does not depend on the order it comes in.
 */
module ScanEngine {
  import opened Integers
  import opened StringInterner
  import opened TreeModel
  import TreeBuilder
  import opened Sequences
  import opened Wrappers

  /** One stop of the directory iterator; the size counts for a regular file and is 0 when it cannot be read. */
  datatype Found = Found(parent: string, leaf: string, kind: Kind, size: U64)

  function EntryOf(f: Found, parent: Handle, name: Handle): Entry {
    var size := if f.kind == Regular then f.size else 0;
    Entry(parent, name, size, size, f.kind)
  }

  /** What it means for the tree, whatever handles its strings are given. */
  function Meaning(f: Found): Item<string> {
    var names := TreeBuilder.Named(TreeBuilder.Pieces(f.parent));
    if f.kind == Directory then Item(names + [f.leaf], AFolder) else Item(names, AFile(EntryOf(f, 0, 0)))
  }

  function Meanings(found: seq<Found>): (items: seq<Item<string>>)
    ensures |items| == |found|
  {
    seq(|found|, i requires 0 <= i < |found| => Meaning(found[i]))
  }

  // ---------------------------------------------------------------- an entry keeps its meaning

  lemma {:induction false} InternedAllGrows(words: seq<string>, names: seq<string>)
    ensures words <= TreeBuilder.InternedAll(words, names)
  {
    if names != [] {
      InternedAllGrows(words, names[..|names| - 1]);
    }
  }

  lemma ViewIsStable(words: seq<string>, more: seq<string>, h: Handle)
    requires words <= more && h <= |words|
    ensures View(more, h) == View(words, h)
  {
  }

  /** Once its handles have been given out, what an entry means never changes. */
  lemma ItemOfIsStable(words: seq<string>, more: seq<string>, entry: Entry)
    requires words <= more && entry.parentPath <= |words| && entry.name <= |words|
    ensures TreeBuilder.ItemOf(more, entry) == TreeBuilder.ItemOf(words, entry)
  {
    var names := TreeBuilder.Named(TreeBuilder.Pieces(View(words, entry.parentPath)));
    ViewIsStable(words, more, entry.parentPath);
    InternedAllGrows(words, names);
    InternedAllGrows(more, names);
    hide View, TreeBuilder.InternedAll, TreeBuilder.Named, TreeBuilder.Pieces;
    ViewIsStable(words, TreeBuilder.InternedAll(words, names), entry.name);
    ViewIsStable(words, TreeBuilder.InternedAll(more, names), entry.name);
  }

  predicate SameEffect(a: Item<string>, b: Item<string>) {
    a.path == b.path && Weight(a.leaf) == Weight(b.leaf)
  }

  /** With handles to spare, it means what was found. */
  lemma MeansWhatWasFound(words: seq<string>, f: Found)
    requires f.parent in words && f.leaf in words && |words| < HANDLES
    ensures var entry := EntryOf(f, HandleOf(words, f.parent), HandleOf(words, f.leaf));
      SameEffect(TreeBuilder.ItemOf(words, entry), Meaning(f))
  {
    var names := TreeBuilder.Named(TreeBuilder.Pieces(f.parent));
    HandleViewsItsString(words, f.parent);
    HandleViewsItsString(words, f.leaf);
    InternedAllGrows(words, names);
    hide View, TreeBuilder.InternedAll, TreeBuilder.Named, TreeBuilder.Pieces;
    HandleInRange(words, f.leaf);
    ViewIsStable(words, TreeBuilder.InternedAll(words, names), HandleOf(words, f.leaf));
  }

  lemma HandleInRange(words: seq<string>, v: string)
    requires v in words
    ensures HandleOf(words, v) <= |words|
  {
  }

  // ---------------------------------------------------------------- equal totals

  ghost predicate SameTotals(a: Node<string>, b: Node<string>) {
    forall p :: SameAt(At(a, p), At(b, p))
  }

  ghost predicate SameAt(a: Option<Node<string>>, b: Option<Node<string>>) {
    a.Some? == b.Some? && (a.Some? ==> a.value.totals == b.value.totals && a.value.directories == b.value.directories)
  }

  lemma {:induction false} SumsAgree(a: seq<Item<string>>, b: seq<Item<string>>, p: seq<string>)
    requires |a| == |b| && forall i :: 0 <= i < |a| ==> SameEffect(a[i], b[i])
    ensures SumUnder(a, p) == SumUnder(b, p)
  {
    if a != [] {
      SumsAgree(a[..|a| - 1], b[..|b| - 1], p);
    }
  }

  /** The tree depends on the paths and weights of its items only. */
  lemma SameEffectsSameTotals(a: seq<Item<string>>, b: seq<Item<string>>)
    requires |a| == |b| && forall i :: 0 <= i < |a| ==> SameEffect(a[i], b[i])
    ensures SameTotals(Propagated(Built("", a)), Propagated(Built("", b)))
  {
    forall p ensures SameAt(At(Propagated(Built("", a)), p), At(Propagated(Built("", b)), p)) {
      TreeAgreesWithEntries("", a, p);
      TreeAgreesWithEntries("", b, p);
      SumsAgree(a, b, p);
      hide At, Propagated, Built, SumUnder, FilesAt;
      forall q ensures q in PathsBelow(a, p) <==> q in PathsBelow(b, p) {
        PathsBelowIs(a, p, q);
        PathsBelowIs(b, p, q);
      }
      assert PathsBelow(a, p) == PathsBelow(b, p);
    }
  }

  // ---------------------------------------------------------------- totals in terms of what was found

  /** The folders it lies in, and its own name if it is one. */
  function PathOf(f: Found): seq<string> {
    TreeBuilder.Named(TreeBuilder.Pieces(f.parent)) + if f.kind == Directory then [f.leaf] else []
  }

  /** What was found at or below `p`, folders aside. */
  function FoundBelow(found: seq<Found>, p: seq<string>): seq<Found> {
    if found == [] then []
    else
      var last := |found| - 1;
      var before := FoundBelow(found[..last], p);
      if found[last].kind != Directory && p <= PathOf(found[last]) then before + [found[last]] else before
  }

  /** The sizes of the regular files among them; links and the like count nothing. */
  function FileBytes(found: seq<Found>): nat {
    if found == [] then 0
    else
      var last := found[|found| - 1];
      FileBytes(found[..|found| - 1]) + if last.kind == Regular then last.size else 0
  }

  lemma OneFoundMore(found: seq<Found>, f: Found)
    ensures FileBytes(found + [f]) == FileBytes(found) + if f.kind == Regular then f.size else 0
  {
    assert (found + [f])[..|found|] == found;
  }

  lemma {:induction false} EntriesOfFound(found: seq<Found>, p: seq<string>)
    ensures var entries, below := EntriesBelow(Meanings(found), p), FoundBelow(found, p);
      |entries| == |below| && LogicalBytes(entries) == FileBytes(below) && BytesOnDisk(entries) == FileBytes(below)
  {
    if found == [] {
      NoEntries();
    } else {
      var last := |found| - 1;
      var f := found[last];
      assert Meanings(found)[..last] == Meanings(found[..last]);
      MeaningHasPath(f);
      hide LogicalBytes, BytesOnDisk, FileBytes, TreeBuilder.Named, TreeBuilder.Pieces, PathOf;
      EntriesOfFound(found[..last], p);
      if f.kind != Directory && p <= PathOf(f) {
        OneEntryMore(EntriesBelow(Meanings(found[..last]), p), EntryOf(f, 0, 0));
        OneFoundMore(FoundBelow(found[..last], p), f);
      }
    }
  }

  lemma MeaningHasPath(f: Found)
    ensures Meaning(f).path == PathOf(f)
    ensures Meaning(f).leaf == if f.kind == Directory then AFolder else AFile(EntryOf(f, 0, 0))
  {
  }

  /** Which folders exist, and that their totals are the number and the sizes of what was found below. */
  ghost predicate TotalsAre(tree: Node<string>, found: seq<Found>, p: seq<string>) {
    && (At(tree, p).Some? <==> p == [] || exists k :: 0 <= k < |found| && p <= PathOf(found[k]))
    && (At(tree, p).Some? ==>
          var totals := At(tree, p).value.totals;
          && totals.files == |FoundBelow(found, p)| % TWO_TO_THE_64
          && totals.logicalBytes == FileBytes(FoundBelow(found, p)) % TWO_TO_THE_64
          && totals.sizeOnDisk == FileBytes(FoundBelow(found, p)) % TWO_TO_THE_64)
  }

  lemma OccursInFound(found: seq<Found>, p: seq<string>)
    ensures Occurs(Meanings(found), p) <==> p == [] || exists k :: 0 <= k < |found| && p <= PathOf(found[k])
  {
    forall k | 0 <= k < |found| ensures Meanings(found)[k].path == PathOf(found[k]) { MeaningHasPath(found[k]); }
    hide PathOf;
  }

  lemma TotalsOfFound(tree: Node<string>, found: seq<Found>, p: seq<string>)
    requires SameTotals(tree, Propagated(Built("", Meanings(found))))
    ensures TotalsAre(tree, found, p)
  {
    hide At, Propagated, Built, EntriesBelow, FoundBelow, SumUnder, PathsBelow, FilesAt, Meanings, PathOf, Occurs,
      LogicalBytes, BytesOnDisk, FileBytes;
    TreeAgreesWithEntries("", Meanings(found), p);
    EntriesOfFound(found, p);
    OccursInFound(found, p);
    assert SameAt(At(tree, p), At(Propagated(Built("", Meanings(found))), p));
  }

  // ---------------------------------------------------------------- the order of what was found

  function Without(found: seq<Found>, k: nat): (rest: seq<Found>)
    requires k < |found|
    ensures |rest| == |found| - 1
  {
    found[..k] + found[k + 1..]
  }

  lemma OneTakenOut(found: seq<Found>, k: nat)
    requires k < |found|
    ensures multiset(Without(found, k)) == multiset(found) - multiset{found[k]}
    ensures multiset(Meanings(found)) == multiset(Meanings(Without(found, k))) + multiset{Meaning(found[k])}
  {
    var before, after := Meanings(found)[..k], Meanings(found)[k + 1..];
    assert found == found[..k] + [found[k]] + found[k + 1..];
    assert Meanings(found) == before + [Meaning(found[k])] + after;
    assert Meanings(Without(found, k)) == before + after;
  }

  lemma {:induction false} MeaningsPermuted(a: seq<Found>, b: seq<Found>)
    requires multiset(a) == multiset(b)
    ensures multiset(Meanings(a)) == multiset(Meanings(b))
    decreases |a|
  {
    if a == [] {
      assert |multiset(b)| == 0;
    } else {
      assert a[0] in multiset(b);
      var k :| 0 <= k < |b| && b[k] == a[0];
      OneTakenOut(a, 0);
      OneTakenOut(b, k);
      hide Meanings, Meaning, Without;
      MeaningsPermuted(Without(a, 0), Without(b, k));
    }
  }

  /** Whatever the order in which the same things are found, the tree has the same paths and totals. */
  lemma FoundInAnyOrder(a: seq<Found>, b: seq<Found>)
    requires multiset(a) == multiset(b)
    ensures SameTotals(Propagated(Built("", Meanings(a))), Propagated(Built("", Meanings(b))))
  {
    MeaningsPermuted(a, b);
    hide At, Propagated, Built, Meanings;
    forall p ensures SameAt(At(Propagated(Built("", Meanings(a))), p), At(Propagated(Built("", Meanings(b))), p)) {
      OrderDoesNotMatter("", Meanings(a), Meanings(b), p);
    }
  }

  // ---------------------------------------------------------------- the loop

  ghost predicate IsEntryOf(entry: Entry, f: Found, words: seq<string>) {
    f.parent in words && f.leaf in words && entry == EntryOf(f, HandleOf(words, f.parent), HandleOf(words, f.leaf))
  }

  /** The entries recorded so far, and the items of the tree, are what was found, by the handles of today. */
  ghost predicate Recorded(flat: seq<Entry>, items: seq<Item<string>>, found: seq<Found>, words: seq<string>) {
    && |flat| == |items| == |found|
    && forall i :: 0 <= i < |flat| ==>
         IsEntryOf(flat[i], found[i], words) && items[i] == TreeBuilder.ItemOf(words, flat[i])
  }

  lemma EntryLasts(entry: Entry, f: Found, words: seq<string>, more: seq<string>)
    requires IsEntryOf(entry, f, words) && words <= more && Distinct(more)
    ensures IsEntryOf(entry, f, more) && TreeBuilder.ItemOf(more, entry) == TreeBuilder.ItemOf(words, entry)
  {
    HandleIsStable(words, more, f.parent);
    HandleIsStable(words, more, f.leaf);
    HandleInRange(words, f.parent);
    HandleInRange(words, f.leaf);
    ItemOfIsStable(words, more, entry);
  }

  lemma RecordedLasts(flat: seq<Entry>, items: seq<Item<string>>, found: seq<Found>,
                      words: seq<string>, more: seq<string>)
    requires Recorded(flat, items, found, words) && words <= more && Distinct(more)
    ensures Recorded(flat, items, found, more)
  {
    forall i | 0 <= i < |flat|
      ensures IsEntryOf(flat[i], found[i], more) && items[i] == TreeBuilder.ItemOf(more, flat[i])
    {
      EntryLasts(flat[i], found[i], words, more);
    }
  }

  lemma RecordedMeans(flat: seq<Entry>, items: seq<Item<string>>, found: seq<Found>, words: seq<string>)
    requires Recorded(flat, items, found, words) && |words| < HANDLES
    ensures SameTotals(Propagated(Built("", items)), Propagated(Built("", Meanings(found))))
  {
    forall i | 0 <= i < |items| ensures SameEffect(items[i], Meanings(found)[i]) {
      MeansWhatWasFound(words, found[i]);
    }
    hide SameTotals, Propagated, Built;
    SameEffectsSameTotals(items, Meanings(found));
  }

  lemma FaithfulLasts(builder: TreeBuilder.TreeBuilder, words: seq<string>)
    requires builder.interner.Valid() && words <= builder.interner.Words()
    requires |words| < HANDLES ==> TreeBuilder.Faithful(builder.root, words, builder.items)
    ensures builder.Valid()
  {
    if |builder.interner.Words()| < HANDLES {
      TreeBuilder.ViewedGrows(builder.root, words, builder.interner.Words());
    }
  }

  /** The two strings of a stop are interned. */
  method NewEntry(builder: TreeBuilder.TreeBuilder, f: Found) returns (record: Entry)
    requires builder.Valid()
    modifies builder.interner
    ensures builder.Valid() && old(builder.interner.Words()) <= builder.interner.Words()
    ensures IsEntryOf(record, f, builder.interner.Words())
  {
    ghost var words := builder.interner.Words();
    hide TreeBuilder.Faithful, HandleOf, Indexes, TotalLength;
    var parent := builder.interner.Intern(f.parent);
    ghost var more := builder.interner.Words();
    var name := builder.interner.Intern(f.leaf);
    FaithfulLasts(builder, words);
    HandleIsStable(more, builder.interner.Words(), f.parent);
    record := EntryOf(f, parent, name);
  }

  /** And the entry is added to the tree. */
  method Record(builder: TreeBuilder.TreeBuilder, f: Found) returns (record: Entry)
    requires builder.Valid()
    modifies builder, builder.interner
    ensures builder.Valid() && old(builder.interner.Words()) <= builder.interner.Words()
    ensures IsEntryOf(record, f, builder.interner.Words())
    ensures builder.items == old(builder.items) + [TreeBuilder.ItemOf(builder.interner.Words(), record)]
  {
    hide TreeBuilder.Faithful, TreeBuilder.ItemOf, TreeBuilder.InternedAll, Distinct, Indexes, TotalLength;
    record := NewEntry(builder, f);
    ghost var words := builder.interner.Words();
    InternedAllGrows(words, TreeBuilder.ItemOf(words, record).path);
    builder.Add(record);
    EntryLasts(record, f, words, builder.interner.Words());
  }

  lemma NothingRecorded(words: seq<string>)
    ensures Recorded([], [], [], words)
  {
  }

  lemma OneMoreRecorded(flat: seq<Entry>, record: Entry, items: seq<Item<string>>, found: seq<Found>,
                        words: seq<string>)
    requires |flat| < |found| && Recorded(flat, items, found[..|flat|], words)
    requires IsEntryOf(record, found[|flat|], words)
    ensures Recorded(flat + [record], items + [TreeBuilder.ItemOf(words, record)], found[..|flat| + 1], words)
  {
    hide IsEntryOf, TreeBuilder.ItemOf;
  }

  lemma RecordedAre(flat: seq<Entry>, items: seq<Item<string>>, found: seq<Found>, words: seq<string>)
    requires Recorded(flat, items, found, words)
    ensures |flat| == |found| && forall i :: 0 <= i < |flat| ==> IsEntryOf(flat[i], found[i], words)
  {
  }

  lemma TotalsEverywhere(tree: Node<string>, found: seq<Found>)
    requires SameTotals(tree, Propagated(Built("", Meanings(found))))
    ensures forall p :: TotalsAre(tree, found, p)
  {
    hide TotalsAre, SameTotals, Propagated, Built;
    forall p ensures TotalsAre(tree, found, p) { TotalsOfFound(tree, found, p); }
  }

  /** The walk: every stop is recorded, and the totals are added up at the end. */
  method Walk(interner: Interner, found: seq<Found>) returns (tree: Node<Handle>, flat: seq<Entry>)
    requires interner.Valid()
    modifies interner
    ensures interner.Valid() && |flat| == |found|
    ensures forall i :: 0 <= i < |flat| ==> IsEntryOf(flat[i], found[i], interner.Words())
    ensures |interner.Words()| < HANDLES ==>
      SameTotals(TreeBuilder.Viewed(tree, interner.Words()), Propagated(Built("", Meanings(found))))
    ensures |interner.Words()| < HANDLES ==>
      forall p :: TotalsAre(TreeBuilder.Viewed(tree, interner.Words()), found, p)
  {
    hide Recorded, IsEntryOf, TreeBuilder.ItemOf, TreeBuilder.Faithful, TreeBuilder.Viewed, SameTotals, TotalsAre,
      Propagated, Built, Meanings, Distinct, Indexes, TotalLength;
    flat := [];
    var builder := new TreeBuilder.TreeBuilder(interner);
    NothingRecorded(interner.Words());
    for k := 0 to |found|
      invariant builder.interner == interner && builder.Valid() && fresh(builder)
      invariant |flat| == k && Recorded(flat, builder.items, found[..k], interner.Words())
    {
      ghost var words, items := interner.Words(), builder.items;
      var record := Record(builder, found[k]);
      RecordedLasts(flat, items, found[..k], words, interner.Words());
      OneMoreRecorded(flat, record, items, found, interner.Words());
      flat := flat + [record];
    }
    assert found[..|found|] == found;
    tree := builder.Build();
    RecordedAre(flat, builder.items, found, interner.Words());
    if |interner.Words()| < HANDLES {
      RecordedMeans(flat, builder.items, found, interner.Words());
      TotalsEverywhere(TreeBuilder.Viewed(tree, interner.Words()), found);
    }
  }
}
