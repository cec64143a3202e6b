/**
 `findDuplicates` of src/core/duplicates/duplicate_finder.cpp. The size and the digest of a file are oracles
 that may fail; the two hash maps are gone through in any order.
 */
module Duplicates {
  import opened Integers
  import opened Wrappers

  type Path = string
  type Digest = nat

  datatype Options = Options(includeZeroByte: bool, minSize: U64)

  datatype DuplicateFile = DuplicateFile(path: Path, size: U64, contentDigest: Digest)

  datatype Cluster = Cluster(fileSize: U64, digest: Digest, files: seq<DuplicateFile>)

  /** The product is taken modulo 2^64. */
  function RecoverableBytes(c: Cluster): U64 {
    if |c.files| <= 1 then 0 else (c.fileSize * (|c.files| - 1)) % TWO_TO_THE_64
  }

  /** What the search sees: the options, and the outcome of asking for each file's size and digest. */
  datatype World = World(options: Options, sizeOf: Path -> Option<U64>, digestOf: Path -> Option<Digest>)
  {
    predicate Eligible(p: Path) {
      sizeOf(p).Some? && !(sizeOf(p).value == 0 && !options.includeZeroByte) && !(sizeOf(p).value < options.minSize)
    }
  }

  // ---------------------------------------------------------------- naive grouping

  /** The eligible candidates with the given size and digest, in candidate order. */
  function Class(w: World, candidates: seq<Path>, size: U64, digest: Digest): seq<Path> {
    if candidates == [] then []
    else
      var p := candidates[|candidates| - 1];
      var before := Class(w, candidates[..|candidates| - 1], size, digest);
      if w.Eligible(p) && w.sizeOf(p) == Some(size) && w.digestOf(p) == Some(digest) then before + [p] else before
  }

  function FilesOf(paths: seq<Path>, size: U64, digest: Digest): seq<DuplicateFile> {
    seq(|paths|, i requires 0 <= i < |paths| => DuplicateFile(paths[i], size, digest))
  }

  function ClusterOf(w: World, candidates: seq<Path>, size: U64, digest: Digest): Cluster {
    Cluster(size, digest, FilesOf(Class(w, candidates, size, digest), size, digest))
  }

  ghost predicate Listed(clusters: seq<Cluster>, size: U64, digest: Digest) {
    exists i :: 0 <= i < |clusters| && clusters[i].fileSize == size && clusters[i].digest == digest
  }

  /** Every class of at least two candidates is a cluster, every cluster is such a class, and none is listed twice. */
  ghost predicate IsNaiveGrouping(w: World, candidates: seq<Path>, clusters: seq<Cluster>) {
    && (forall i :: 0 <= i < |clusters| ==>
          clusters[i] == ClusterOf(w, candidates, clusters[i].fileSize, clusters[i].digest) && |clusters[i].files| >= 2)
    && (forall size: U64, digest: Digest ::
          |Class(w, candidates, size, digest)| >= 2 ==> Listed(clusters, size, digest))
    && (forall i, j :: 0 <= i < j < |clusters| ==>
          !(clusters[i].fileSize == clusters[j].fileSize && clusters[i].digest == clusters[j].digest))
  }

  ghost predicate SortedByRecoverable(clusters: seq<Cluster>) {
    forall i, j :: 0 <= i < j < |clusters| ==> RecoverableBytes(clusters[i]) >= RecoverableBytes(clusters[j])
  }

  // ---------------------------------------------------------------- two stages

  function SizeGroup(w: World, candidates: seq<Path>, size: U64): seq<Path> {
    if candidates == [] then []
    else
      var p := candidates[|candidates| - 1];
      var before := SizeGroup(w, candidates[..|candidates| - 1], size);
      if w.Eligible(p) && w.sizeOf(p) == Some(size) then before + [p] else before
  }

  function DigestGroup(w: World, paths: seq<Path>, digest: Digest): (group: seq<Path>)
    ensures |group| <= |paths|
  {
    if paths == [] then []
    else
      var p := paths[|paths| - 1];
      var before := DigestGroup(w, paths[..|paths| - 1], digest);
      if w.digestOf(p) == Some(digest) then before + [p] else before
  }

  lemma {:induction false} TwoStages(w: World, candidates: seq<Path>, size: U64, digest: Digest)
    ensures DigestGroup(w, SizeGroup(w, candidates, size), digest) == Class(w, candidates, size, digest)
  {
    if candidates != [] {
      var last := |candidates| - 1;
      TwoStages(w, candidates[..last], size, digest);
      var before := SizeGroup(w, candidates[..last], size);
      assert (before + [candidates[last]])[..|before|] == before;
    }
  }

  ghost predicate GroupsBySize(w: World, candidates: seq<Path>, bySize: map<U64, seq<Path>>) {
    forall size: U64 ::
      && (size in bySize <==> SizeGroup(w, candidates, size) != [])
      && (size in bySize ==> bySize[size] == SizeGroup(w, candidates, size))
  }

  ghost predicate GroupsByDigest(w: World, paths: seq<Path>, byDigest: map<Digest, seq<Path>>) {
    forall digest: Digest ::
      && (digest in byDigest <==> DigestGroup(w, paths, digest) != [])
      && (digest in byDigest ==> byDigest[digest] == DigestGroup(w, paths, digest))
  }

  function Appended<K>(groups: map<K, seq<Path>>, k: K, p: Path): map<K, seq<Path>> {
    groups[k := (if k in groups then groups[k] else []) + [p]]
  }

  method GroupBySize(w: World, candidates: seq<Path>) returns (bySize: map<U64, seq<Path>>)
    ensures GroupsBySize(w, candidates, bySize)
  {
    bySize := map[];
    for i := 0 to |candidates|
      invariant GroupsBySize(w, candidates[..i], bySize)
    {
      var path := candidates[i];
      assert candidates[..i + 1][..i] == candidates[..i];
      var size := w.sizeOf(path);
      if size.None? { continue; }
      if size.value == 0 && !w.options.includeZeroByte { continue; }
      if size.value < w.options.minSize { continue; }
      bySize := Appended(bySize, size.value, path);
    }
    assert candidates[..|candidates|] == candidates;
  }

  method GroupByDigest(w: World, paths: seq<Path>) returns (byDigest: map<Digest, seq<Path>>)
    ensures GroupsByDigest(w, paths, byDigest)
  {
    byDigest := map[];
    for i := 0 to |paths|
      invariant GroupsByDigest(w, paths[..i], byDigest)
    {
      assert paths[..i + 1][..i] == paths[..i];
      var digest := w.digestOf(paths[i]);
      if digest.None? { continue; }
      byDigest := Appended(byDigest, digest.value, paths[i]);
    }
    assert paths[..|paths|] == paths;
  }

  // ---------------------------------------------------------------- collecting clusters

  /** The sizes gone through, and the digests gone through for the size in hand. */
  datatype Progress = Progress(sizes: set<U64>, size: U64, digests: set<Digest>)

  ghost predicate Reached(at: Progress, size: U64, digest: Digest) {
    size in at.sizes || (size == at.size && digest in at.digests)
  }

  ghost predicate Collected(w: World, candidates: seq<Path>, at: Progress, clusters: seq<Cluster>) {
    && (forall i :: 0 <= i < |clusters| ==>
          && clusters[i] == ClusterOf(w, candidates, clusters[i].fileSize, clusters[i].digest)
          && |clusters[i].files| >= 2 && Reached(at, clusters[i].fileSize, clusters[i].digest))
    && (forall size: U64, digest: Digest :: Reached(at, size, digest) && |Class(w, candidates, size, digest)| >= 2 ==>
          Listed(clusters, size, digest))
    && (forall i, j :: 0 <= i < j < |clusters| ==> clusters[i] != clusters[j])
  }

  lemma CollectOne(w: World, candidates: seq<Path>, at: Progress, clusters: seq<Cluster>, digest: Digest)
    requires Collected(w, candidates, at, clusters) && at.size !in at.sizes && digest !in at.digests
    ensures var members := Class(w, candidates, at.size, digest);
      Collected(w, candidates, at.(digests := at.digests + {digest}),
                if |members| >= 2 then clusters + [ClusterOf(w, candidates, at.size, digest)] else clusters)
  {
    var after := at.(digests := at.digests + {digest});
    var members := Class(w, candidates, at.size, digest);
    var more := if |members| >= 2 then clusters + [ClusterOf(w, candidates, at.size, digest)] else clusters;
    hide Class;
    forall size: U64, d: Digest | Reached(after, size, d) && |Class(w, candidates, size, d)| >= 2
      ensures Listed(more, size, d)
    {
      if Reached(at, size, d) {
        var i :| 0 <= i < |clusters| && clusters[i].fileSize == size && clusters[i].digest == d;
        assert more[i] == clusters[i];
      } else {
        assert more[|clusters|].fileSize == size && more[|clusters|].digest == d;
      }
    }
  }

  lemma CollectSize(w: World, candidates: seq<Path>, at: Progress, clusters: seq<Cluster>, size: U64)
    requires Collected(w, candidates, at, clusters)
    requires forall digest: Digest :: digest !in at.digests ==> |Class(w, candidates, at.size, digest)| < 2
    ensures Collected(w, candidates, Progress(at.sizes + {at.size}, size, {}), clusters)
  {
  }

  method CollectDigests(w: World, ghost candidates: seq<Path>, ghost at: Progress, byDigest: map<Digest, seq<Path>>,
                        size: U64, before: seq<Cluster>) returns (clusters: seq<Cluster>)
    requires Collected(w, candidates, at, before) && at.size == size && size !in at.sizes && at.digests == {}
    requires GroupsByDigest(w, SizeGroup(w, candidates, size), byDigest)
    ensures Collected(w, candidates, at.(digests := byDigest.Keys), clusters)
  {
    clusters := before;
    var left := byDigest.Keys;
    while left != {}
      invariant left <= byDigest.Keys
      invariant Collected(w, candidates, at.(digests := byDigest.Keys - left), clusters)
      decreases left
    {
      var digest :| digest in left;
      var group := byDigest[digest];
      TwoStages(w, candidates, size, digest);
      CollectOne(w, candidates, at.(digests := byDigest.Keys - left), clusters, digest);
      left := left - {digest};
      hide Collected, Class;
      assert byDigest.Keys - left == byDigest.Keys - (left + {digest}) + {digest};
      if |group| < 2 { continue; }
      clusters := clusters + [Cluster(size, digest, FilesOf(group, size, digest))];
    }
  }

  method CollectSizes(w: World, candidates: seq<Path>, bySize: map<U64, seq<Path>>) returns (clusters: seq<Cluster>)
    requires GroupsBySize(w, candidates, bySize)
    ensures IsNaiveGrouping(w, candidates, clusters)
  {
    clusters := [];
    var left := bySize.Keys;
    ghost var done: set<U64> := {};
    while left != {}
      invariant left <= bySize.Keys && done == bySize.Keys - left
      invariant forall size: U64 :: Collected(w, candidates, Progress(done, size, {}), clusters)
      decreases left
    {
      var size :| size in left;
      var paths := bySize[size];
      ghost var at := Progress(done, size, {});
      left := left - {size};
      done := done + {size};
      hide Collected;
      if |paths| < 2 {
        forall next: U64 ensures Collected(w, candidates, Progress(done, next, {}), clusters) {
          CollectFewPaths(w, candidates, at, clusters, next);
        }
      } else {
        var byDigest := GroupByDigest(w, paths);
        clusters := CollectDigests(w, candidates, at, byDigest, size, clusters);
        forall next: U64 ensures Collected(w, candidates, Progress(done, next, {}), clusters) {
          CollectAllDigests(w, candidates, at, byDigest, clusters, next);
        }
      }
    }
    assert done == bySize.Keys && Collected(w, candidates, Progress(done, 0, {}), clusters);
    CollectedAll(w, candidates, bySize, clusters);
  }

  /** A size with fewer than two paths has no class of two. */
  lemma CollectFewPaths(w: World, candidates: seq<Path>, at: Progress, clusters: seq<Cluster>, next: U64)
    requires Collected(w, candidates, at, clusters) && |SizeGroup(w, candidates, at.size)| < 2
    ensures Collected(w, candidates, Progress(at.sizes + {at.size}, next, {}), clusters)
  {
    forall digest: Digest ensures |Class(w, candidates, at.size, digest)| < 2 {
      TwoStages(w, candidates, at.size, digest);
    }
    CollectSize(w, candidates, at, clusters, next);
  }

  lemma CollectAllDigests(w: World, candidates: seq<Path>, at: Progress, byDigest: map<Digest, seq<Path>>,
                          clusters: seq<Cluster>, next: U64)
    requires Collected(w, candidates, at.(digests := byDigest.Keys), clusters)
    requires GroupsByDigest(w, SizeGroup(w, candidates, at.size), byDigest)
    ensures Collected(w, candidates, Progress(at.sizes + {at.size}, next, {}), clusters)
  {
    forall digest: Digest | digest !in byDigest ensures |Class(w, candidates, at.size, digest)| < 2 {
      TwoStages(w, candidates, at.size, digest);
    }
    hide Collected, Class;
    CollectSize(w, candidates, at.(digests := byDigest.Keys), clusters, next);
  }

  lemma CollectedAll(w: World, candidates: seq<Path>, bySize: map<U64, seq<Path>>, clusters: seq<Cluster>)
    requires GroupsBySize(w, candidates, bySize)
    requires Collected(w, candidates, Progress(bySize.Keys, 0, {}), clusters)
    ensures IsNaiveGrouping(w, candidates, clusters)
  {
    forall size: U64, digest: Digest | |Class(w, candidates, size, digest)| >= 2
      ensures Listed(clusters, size, digest)
    {
      TwoStages(w, candidates, size, digest);
      assert size in bySize;
      assert Reached(Progress(bySize.Keys, 0, {}), size, digest);
    }
    hide Class, Listed, ClusterOf;
    forall i, j | 0 <= i < j < |clusters|
      ensures !(clusters[i].fileSize == clusters[j].fileSize && clusters[i].digest == clusters[j].digest)
    {
      assert clusters[i] != clusters[j];
    }
  }

  // ---------------------------------------------------------------- sorting

  /** `std::sort` by non-increasing recoverable bytes; the order of equal ones is left open. */
  method SortClusters(clusters: seq<Cluster>) returns (sorted: seq<Cluster>)
    ensures SortedByRecoverable(sorted) && multiset(sorted) == multiset(clusters)
  {
    sorted := [];
    for i := 0 to |clusters|
      invariant SortedByRecoverable(sorted) && multiset(sorted) == multiset(clusters[..i])
    {
      assert clusters[..i + 1] == clusters[..i] + [clusters[i]];
      sorted := Insert(sorted, clusters[i]);
    }
    assert clusters[..|clusters|] == clusters;
  }

  method Insert(sorted: seq<Cluster>, c: Cluster) returns (more: seq<Cluster>)
    requires SortedByRecoverable(sorted)
    ensures SortedByRecoverable(more) && multiset(more) == multiset(sorted) + multiset{c}
  {
    var at := 0;
    while at < |sorted| && RecoverableBytes(sorted[at]) > RecoverableBytes(c)
      invariant at <= |sorted|
      invariant forall i :: 0 <= i < at ==> RecoverableBytes(sorted[i]) > RecoverableBytes(c)
    {
      at := at + 1;
    }
    hide RecoverableBytes;
    assert sorted == sorted[..at] + sorted[at..];
    more := sorted[..at] + [c] + sorted[at..];
  }

  lemma AllInOf(a: seq<Cluster>, b: seq<Cluster>, c: Cluster)
    requires multiset(a) == multiset(b) && c in a
    ensures c in b
  {
    assert c in multiset(b);
  }

  lemma {:induction false} CountOfDistinct(a: seq<Cluster>, c: Cluster)
    requires forall i, j :: 0 <= i < j < |a| ==> a[i] != a[j]
    ensures multiset(a)[c] <= 1
  {
    if a != [] {
      var last := |a| - 1;
      CountOfDistinct(a[..last], c);
      assert a == a[..last] + [a[last]];
      assert a[last] !in a[..last];
    }
  }

  lemma TwicePresent(a: seq<Cluster>, i: nat, j: nat)
    requires i < j < |a| && a[i] == a[j]
    ensures multiset(a)[a[i]] >= 2
  {
    assert a == a[..j] + [a[j]] + a[j + 1..];
    assert a[..j][i] == a[i];
    assert a[i] in multiset(a[..j]);
  }

  lemma GroupingIsAnyOrder(w: World, candidates: seq<Path>, a: seq<Cluster>, b: seq<Cluster>)
    requires IsNaiveGrouping(w, candidates, a) && multiset(a) == multiset(b)
    ensures IsNaiveGrouping(w, candidates, b)
  {
    hide Class, ClusterOf;
    forall i | 0 <= i < |b|
      ensures b[i] == ClusterOf(w, candidates, b[i].fileSize, b[i].digest) && |b[i].files| >= 2
    {
      AllInOf(b, a, b[i]);
    }
    forall size: U64, digest: Digest | |Class(w, candidates, size, digest)| >= 2 ensures Listed(b, size, digest) {
      var i :| 0 <= i < |a| && a[i].fileSize == size && a[i].digest == digest;
      AllInOf(a, b, a[i]);
    }
    forall i, j | 0 <= i < j < |b| ensures !(b[i].fileSize == b[j].fileSize && b[i].digest == b[j].digest) {
      CountOfDistinct(a, b[i]);
      if b[i] == b[j] {
        TwicePresent(b, i, j);
      }
    }
  }

  /** `findDuplicates`. */
  method FindDuplicates(w: World, candidates: seq<Path>) returns (clusters: seq<Cluster>)
    ensures IsNaiveGrouping(w, candidates, clusters)
    ensures forall i, j :: 0 <= i < j < |clusters| ==> RecoverableBytes(clusters[i]) >= RecoverableBytes(clusters[j])
  {
    var bySize := GroupBySize(w, candidates);
    var collected := CollectSizes(w, candidates, bySize);
    clusters := SortClusters(collected);
    GroupingIsAnyOrder(w, candidates, collected, clusters);
  }

  // ---------------------------------------------------------------- what it says

  /** How often a file is listed in the clusters. */
  function Times(clusters: seq<Cluster>, p: Path): nat {
    if clusters == [] then 0
    else Times(clusters[..|clusters| - 1], p) + multiset(PathsOf(clusters[|clusters| - 1]))[p]
  }

  function PathsOf(c: Cluster): (paths: seq<Path>)
    ensures |paths| == |c.files|
  {
    seq(|c.files|, i requires 0 <= i < |c.files| => c.files[i].path)
  }

  /** Whether a file belongs to the class. */
  predicate Belongs(w: World, p: Path, size: U64, digest: Digest) {
    w.Eligible(p) && w.sizeOf(p) == Some(size) && w.digestOf(p) == Some(digest)
  }

  lemma {:induction false} TimesInClass(w: World, candidates: seq<Path>, size: U64, digest: Digest, p: Path)
    ensures multiset(Class(w, candidates, size, digest))[p] ==
            if Belongs(w, p, size, digest) then multiset(candidates)[p] else 0
  {
    if candidates != [] {
      var last := |candidates| - 1;
      TimesInClass(w, candidates[..last], size, digest, p);
      assert candidates == candidates[..last] + [candidates[last]];
    }
  }

  lemma TimesInCluster(w: World, candidates: seq<Path>, c: Cluster, p: Path)
    requires c == ClusterOf(w, candidates, c.fileSize, c.digest)
    ensures multiset(PathsOf(c))[p] == if Belongs(w, p, c.fileSize, c.digest) then multiset(candidates)[p] else 0
  {
    TimesInClass(w, candidates, c.fileSize, c.digest, p);
    assert PathsOf(c) == Class(w, candidates, c.fileSize, c.digest);
  }

  lemma {:induction false} TimesUpTo(w: World, candidates: seq<Path>, clusters: seq<Cluster>, p: Path, n: nat)
    requires IsNaiveGrouping(w, candidates, clusters) && n <= |clusters|
    ensures Times(clusters[..n], p) ==
            if exists i :: 0 <= i < n && Belongs(w, p, clusters[i].fileSize, clusters[i].digest)
            then multiset(candidates)[p] else 0
  {
    if n > 0 {
      TimesUpTo(w, candidates, clusters, p, n - 1);
      assert clusters[..n][..n - 1] == clusters[..n - 1];
      var c := clusters[n - 1];
      TimesInCluster(w, candidates, c, p);
      hide Class, ClusterOf, PathsOf;
      if Belongs(w, p, c.fileSize, c.digest) {
        assert forall i :: 0 <= i < n - 1 ==> !Belongs(w, p, clusters[i].fileSize, clusters[i].digest);
      }
    }
  }

  /** A candidate whose class has two members is listed as often as it was given, and any other file not at all. */
  lemma ListedAsOftenAsGiven(w: World, candidates: seq<Path>, clusters: seq<Cluster>, p: Path)
    requires IsNaiveGrouping(w, candidates, clusters)
    ensures Times(clusters, p) ==
            if w.Eligible(p) && w.digestOf(p).Some?
               && |Class(w, candidates, w.sizeOf(p).value, w.digestOf(p).value)| >= 2
            then multiset(candidates)[p] else 0
  {
    TimesUpTo(w, candidates, clusters, p, |clusters|);
    assert clusters[..|clusters|] == clusters;
    hide Class, ClusterOf, Times;
    if i :| 0 <= i < |clusters| && Belongs(w, p, clusters[i].fileSize, clusters[i].digest) {
      ClusterHolds(w, candidates, clusters[i]);
    } else if w.Eligible(p) && w.digestOf(p).Some? {
      assert !Listed(clusters, w.sizeOf(p).value, w.digestOf(p).value);
    }
  }

  lemma ClusterHolds(w: World, candidates: seq<Path>, c: Cluster)
    requires c == ClusterOf(w, candidates, c.fileSize, c.digest)
    ensures |Class(w, candidates, c.fileSize, c.digest)| == |c.files|
  {
  }

  function PositionsIn(w: World, candidates: seq<Path>, size: U64, digest: Digest): set<nat> {
    set i: nat | i < |candidates| && Belongs(w, candidates[i], size, digest)
  }

  lemma {:induction false} ClassCounts(w: World, candidates: seq<Path>, size: U64, digest: Digest)
    ensures |Class(w, candidates, size, digest)| == |PositionsIn(w, candidates, size, digest)|
  {
    if candidates != [] {
      var last := |candidates| - 1;
      ClassCounts(w, candidates[..last], size, digest);
      var before, all := PositionsIn(w, candidates[..last], size, digest), PositionsIn(w, candidates, size, digest);
      assert all == before + if Belongs(w, candidates[last], size, digest) then {last} else {};
    }
  }

  lemma TwoOf(positions: set<nat>, i: nat)
    requires i in positions
    ensures |positions| >= 2 <==> exists k :: k in positions && k != i
  {
    if k :| k in positions && k != i {
      assert |positions - {i}| == |positions| - 1;
      assert k in positions - {i};
    } else {
      assert positions == {i};
    }
  }

  /** Two candidates of one known size and digest, the size allowed by the options: at least the least one, and not 0
      unless empty files are asked for. */
  predicate Twins(w: World, p: Path, q: Path) {
    && w.sizeOf(p).Some? && w.sizeOf(q) == w.sizeOf(p) && w.digestOf(p).Some? && w.digestOf(q) == w.digestOf(p)
    && w.sizeOf(p).value >= w.options.minSize && (w.sizeOf(p).value > 0 || w.options.includeZeroByte)
  }

  /** The file stands at one position and a twin of it at another. */
  ghost predicate HasTwin(w: World, candidates: seq<Path>, p: Path) {
    exists i, k :: 0 <= i < |candidates| && 0 <= k < |candidates| && i != k
      && candidates[i] == p && Twins(w, p, candidates[k])
  }

  lemma TwinsMakeAClass(w: World, candidates: seq<Path>, p: Path, i: nat, k: nat)
    requires i < |candidates| && k < |candidates| && i != k && candidates[i] == p && Twins(w, p, candidates[k])
    ensures w.Eligible(p) && |Class(w, candidates, w.sizeOf(p).value, w.digestOf(p).value)| >= 2
  {
    hide Class;
    var size, digest := w.sizeOf(p).value, w.digestOf(p).value;
    ClassCounts(w, candidates, size, digest);
    assert k in PositionsIn(w, candidates, size, digest);
    TwoOf(PositionsIn(w, candidates, size, digest), i);
  }

  lemma AClassHasTwins(w: World, candidates: seq<Path>, p: Path)
    requires w.Eligible(p) && w.digestOf(p).Some? && p in candidates
    requires |Class(w, candidates, w.sizeOf(p).value, w.digestOf(p).value)| >= 2
    ensures HasTwin(w, candidates, p)
  {
    hide Class;
    var size, digest := w.sizeOf(p).value, w.digestOf(p).value;
    ClassCounts(w, candidates, size, digest);
    var i: nat :| i < |candidates| && candidates[i] == p;
    TwoOf(PositionsIn(w, candidates, size, digest), i);
    var k :| k in PositionsIn(w, candidates, size, digest) && k != i;
    assert Twins(w, p, candidates[k]);
  }

  /** A file is listed exactly when it has a twin among the candidates. */
  lemma ListedExactly(w: World, candidates: seq<Path>, clusters: seq<Cluster>, p: Path)
    requires IsNaiveGrouping(w, candidates, clusters)
    ensures Times(clusters, p) > 0 <==> HasTwin(w, candidates, p)
  {
    ListedAsOftenAsGiven(w, candidates, clusters, p);
    hide IsNaiveGrouping, Times, Class;
    if HasTwin(w, candidates, p) {
      var i, k :| 0 <= i < |candidates| && 0 <= k < |candidates| && i != k
        && candidates[i] == p && Twins(w, p, candidates[k]);
      TwinsMakeAClass(w, candidates, p, i, k);
      assert p in multiset(candidates);
    }
    hide HasTwin;
    if Times(clusters, p) > 0 {
      assert p in multiset(candidates);
      AClassHasTwins(w, candidates, p);
    }
  }

  /** The size and the digest of a cluster are those of each of its files. */
  lemma ClusterFilesAre(w: World, candidates: seq<Path>, clusters: seq<Cluster>, i: nat, k: nat)
    requires IsNaiveGrouping(w, candidates, clusters) && i < |clusters| && k < |clusters[i].files|
    ensures var file := clusters[i].files[k];
      && w.sizeOf(file.path) == Some(file.size) && file.size == clusters[i].fileSize
      && w.digestOf(file.path) == Some(file.contentDigest) && file.contentDigest == clusters[i].digest
  {
    var c := clusters[i];
    TimesInClass(w, candidates, c.fileSize, c.digest, c.files[k].path);
    assert c.files[k].path == Class(w, candidates, c.fileSize, c.digest)[k];
    assert multiset(Class(w, candidates, c.fileSize, c.digest))[c.files[k].path] > 0;
  }

  function TotalRecoverable(clusters: seq<Cluster>): nat {
    if clusters == [] then 0
    else TotalRecoverable(clusters[..|clusters| - 1]) + RecoverableBytes(clusters[|clusters| - 1])
  }

  /** The bytes of all clustered files, and of one file per cluster. */
  function TotalBytes(clusters: seq<Cluster>): nat {
    if clusters == [] then 0
    else TotalBytes(clusters[..|clusters| - 1]) + |clusters[|clusters| - 1].files| * clusters[|clusters| - 1].fileSize
  }

  function OneEach(clusters: seq<Cluster>): nat {
    if clusters == [] then 0
    else OneEach(clusters[..|clusters| - 1]) + clusters[|clusters| - 1].fileSize
  }

  /** What can be recovered is what the clustered files take less one file per cluster, modulo 2^64. */
  lemma {:induction false} RecoverableIsAllButOneEach(clusters: seq<Cluster>)
    requires forall i :: 0 <= i < |clusters| ==> |clusters[i].files| >= 2
    ensures (TotalRecoverable(clusters) + OneEach(clusters)) % TWO_TO_THE_64 == TotalBytes(clusters) % TWO_TO_THE_64
  {
    if clusters != [] {
      var last := |clusters| - 1;
      var c := clusters[last];
      RecoverableIsAllButOneEach(clusters[..last]);
      var product := c.fileSize * (|c.files| - 1);
      assert |c.files| * c.fileSize == product + c.fileSize;
      SumsAgree(TotalRecoverable(clusters[..last]) + OneEach(clusters[..last]), TotalBytes(clusters[..last]),
                product, c.fileSize);
    }
  }

  lemma SumsAgree(a: nat, b: nat, product: nat, one: nat)
    requires a % TWO_TO_THE_64 == b % TWO_TO_THE_64
    ensures (a + product % TWO_TO_THE_64 + one) % TWO_TO_THE_64 == (b + product + one) % TWO_TO_THE_64
  {
  }
}
