/**
 The part of a file system the quarantine uses: a map from absolute paths to what is there, with the
 effects of `create_directories`, `rename` and `remove_all` on it.
 */
module FileSystem {

  /** The components of an absolute path; `p <= q` says that `q` is `p` or lies below it. */
  type Path = seq<string>

  datatype Entry = File(content: string) | Directory

  type Disk = map<Path, Entry>

  predicate Apart(p: Path, q: Path) {
    !(p <= q) && !(q <= p)
  }

  ghost predicate SameBelow(p: Path, a: Disk, b: Disk) {
    forall q :: p <= q ==> (q in a <==> q in b) && (q in a ==> a[q] == b[q])
  }

  /** Nothing is at `p` or below it. */
  ghost predicate Free(d: Disk, p: Path) {
    forall q :: p <= q ==> q !in d
  }

  function Prefixes(p: Path): set<Path> {
    set i | 0 <= i <= |p| :: p[..i]
  }

  lemma PrefixesArePrefixes(p: Path, q: Path)
    ensures q in Prefixes(p) <==> q <= p
  {
    if q <= p { assert p[..|q|] == q; }
  }

  predicate CanCreateDirectories(d: Disk, p: Path) {
    forall q :: q in Prefixes(p) && q in d ==> d[q].Directory?
  }

  /** `create_directories`: `p` and whatever is missing above it. */
  function CreateDirectories(d: Disk, p: Path): (r: Disk)
    requires CanCreateDirectories(d, p)
    ensures forall q :: q in d ==> q in r && r[q] == d[q]
    ensures forall q :: q in r && q !in d ==> q <= p && r[q] == Directory
    ensures forall q :: q <= p ==> q in r && r[q] == Directory
  {
    assert forall q :: q in Prefixes(p) <==> q <= p by {
      forall q ensures q in Prefixes(p) <==> q <= p { PrefixesArePrefixes(p, q); }
    }
    d + (map q | q in Prefixes(p) && q !in d :: Directory)
  }

  /** `rename` has something to move and a place for it: free, or a file under a file. */
  predicate CanRename(d: Disk, from: Path, to: Path) {
    && from in d && to != [] && to[..|to| - 1] in d && d[to[..|to| - 1]].Directory?
    && Apart(from, to)
    && (to in d ==> d[to].File? && d[from].File?)
  }

  /** Where the entry that a rename puts at `q` comes from. */
  function Moved(from: Path, to: Path, q: Path): Path
    requires to <= q
  {
    from + q[|to|..]
  }

  /** What was at and below `from` in `before` is at and below `to` in `after`, entry by entry. */
  ghost predicate MovedBelow(from: Path, to: Path, before: Disk, after: Disk) {
    forall q :: to <= q ==>
      (q in after <==> Moved(from, to, q) in before) && (q in after ==> after[q] == before[Moved(from, to, q)])
  }

  /** Moved there, untouched, and moved back: as it was. */
  lemma ThereAndBack(home: Path, away: Path, d0: Disk, d1: Disk, d2: Disk, d3: Disk)
    requires MovedBelow(home, away, d0, d1) && SameBelow(away, d1, d2) && MovedBelow(away, home, d2, d3)
    ensures SameBelow(home, d0, d3)
  {
    forall q | home <= q ensures (q in d0 <==> q in d3) && (q in d0 ==> d0[q] == d3[q]) {
      var from := Moved(away, home, q);
      assert away <= from && from[|away|..] == q[|home|..];
      assert Moved(home, away, from) == q;
    }
  }

  function Arrivals(d: Disk, from: Path, to: Path): set<Path> {
    set q | q in d && from <= q :: to + q[|from|..]
  }

  lemma ArrivalsAreMoved(d: Disk, from: Path, to: Path, p: Path)
    ensures p in Arrivals(d, from, to) <==> to <= p && Moved(from, to, p) in d
  {
    if to <= p && Moved(from, to, p) in d {
      var q := Moved(from, to, p);
      assert from <= q && to + q[|from|..] == p;
    }
    if p in Arrivals(d, from, to) {
      var q :| q in d && from <= q && to + q[|from|..] == p;
      assert Moved(from, to, p) == q;
    }
  }

  /** `rename`: all that was at and below `from` is now at and below `to`, and no longer at `from`. */
  function Rename(d: Disk, from: Path, to: Path): (r: Disk)
    requires Apart(from, to)
    ensures MovedBelow(from, to, d, r)
    ensures Free(r, from)
    ensures forall q :: !(from <= q) && !(to <= q) ==> (q in r <==> q in d) && (q in d ==> r[q] == d[q])
  {
    assert forall p :: p in Arrivals(d, from, to) <==> to <= p && Moved(from, to, p) in d by {
      forall p ensures p in Arrivals(d, from, to) <==> to <= p && Moved(from, to, p) in d {
        ArrivalsAreMoved(d, from, to, p);
      }
    }
    var staying := map q | q in d && !(from <= q) && !(to <= q) :: d[q];
    staying + map p | p in Arrivals(d, from, to) :: d[Moved(from, to, p)]
  }

  /** `remove_all`, which may leave some of what it found (its error code is not looked at). */
  function RemoveAll(d: Disk, p: Path, leftover: set<Path>): (r: Disk)
    ensures forall q :: !(p <= q) ==> (q in r <==> q in d) && (q in d ==> r[q] == d[q])
    ensures forall q :: q in r ==> q in d && r[q] == d[q] && (p <= q ==> q in leftover)
    ensures leftover == {} ==> Free(r, p)
  {
    map q | q in d && (!(p <= q) || q in leftover) :: d[q]
  }

  // ---------------------------------------------------------------- places that an operation leaves alone

  lemma FirstNamesDiffer(p: Path, q: Path)
    requires p != [] && q != [] && p[0] != q[0]
    ensures Apart(p, q)
  {
  }

  lemma ApartBelow(p: Path, q: Path, x: Path)
    requires Apart(p, q) && p <= x
    ensures !(q <= x)
  {
  }

  lemma CreateKeeps(d: Disk, target: Path, place: Path)
    requires CanCreateDirectories(d, target) && !(place <= target)
    ensures SameBelow(place, d, CreateDirectories(d, target))
  {
  }

  lemma RemoveKeeps(d: Disk, target: Path, leftover: set<Path>, place: Path)
    requires Apart(place, target)
    ensures SameBelow(place, d, RemoveAll(d, target, leftover))
  {
    var r := RemoveAll(d, target, leftover);
    forall q | place <= q ensures (q in d <==> q in r) && (q in d ==> d[q] == r[q]) {
      ApartBelow(place, target, q);
    }
  }

  lemma RenameKeeps(d: Disk, from: Path, to: Path, place: Path)
    requires Apart(from, to) && Apart(place, from) && Apart(place, to)
    ensures SameBelow(place, d, Rename(d, from, to))
  {
    var r := Rename(d, from, to);
    forall q | place <= q ensures (q in d <==> q in r) && (q in d ==> d[q] == r[q]) {
      ApartBelow(place, from, q);
      ApartBelow(place, to, q);
    }
  }
}
