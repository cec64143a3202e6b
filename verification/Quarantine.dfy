/**
 The quarantine of src/core/quarantine/quarantine.cpp as a state over a file system.

 What the operating system decides is a parameter of each operation: whether a rename, a mkdir or a
 write works, what a removal leaves behind, the clock, the sizes measured, the random id.
 */
module Quarantine {
  import opened Wrappers
  import opened FileSystem
  import opened IndexCodec
  import opened Integers

  // ---------------------------------------------------------------- items and their records

  /** A tick of the Windows system clock is 100 nanoseconds. */
  const TICK_NS: int := 100

  /** The time points whose nanosecond count fits 64 signed bits. */
  type Ticks = t: int | IsTicks(t)

  predicate IsTicks(t: int) {
    -92233720368547758 <= t <= 92233720368547758
  }

  const TICKS_PER_HOUR: int := 36_000_000_000

  /** A tick more would not fit 64 signed bits of nanoseconds; an hour has 3.6 * 10^12 of them. */
  lemma TicksFitExactly(t: int)
    ensures IsTicks(t) <==> -TWO_TO_THE_63 <= t * TICK_NS < TWO_TO_THE_63
    ensures TICKS_PER_HOUR * TICK_NS == 60 * 60 * 1_000_000_000
  {
  }

  datatype Item = Item(
    id: string, originalPath: Path, storagePath: Path, originalSize: U64, storedSize: U64,
    capturedAt: Ticks, expiresAt: Ticks, compressed: bool, reason: string, correlation: string)

  /** `generic_string`: the components with '/' between them. */
  function PathText(p: Path): string {
    if p == [] then "" else if |p| == 1 then p[0] else p[0] + (['/'] + PathText(p[1..]))
  }

  /** The text up to the first '/'. */
  function FirstPart(s: string): (n: nat)
    ensures n <= |s| && (forall i :: 0 <= i < n ==> s[i] != '/') && (n < |s| ==> s[n] == '/')
  {
    if s == "" || s[0] == '/' then 0 else 1 + FirstPart(s[1..])
  }

  /** `std::filesystem::path` of a generic string. */
  function ParsePath(s: string): Path
    decreases |s|
  {
    var n := FirstPart(s);
    if n == |s| then [s] else [s[..n]] + ParsePath(s[n + 1..])
  }

  predicate ValidPath(p: Path) {
    p != [] && forall i :: 0 <= i < |p| ==> '/' !in p[i]
  }

  lemma FirstPartOf(c: string, rest: string)
    requires '/' !in c && (rest == "" || rest[0] == '/')
    ensures FirstPart(c + rest) == |c|
  {
    assert forall i :: 0 <= i < |c| ==> (c + rest)[i] == c[i] && c[i] in c;
    assert |c| < |c + rest| ==> (c + rest)[|c|] == rest[0];
  }

  lemma {:induction false} PathRoundTrips(p: Path)
    requires ValidPath(p)
    ensures ParsePath(PathText(p)) == p
    decreases |p|
  {
    assert '/' !in p[0];
    if |p| == 1 {
      assert p[0] + "" == p[0];
      FirstPartOf(p[0], "");
    } else {
      var rest := ['/'] + PathText(p[1..]);
      FirstPartOf(p[0], rest);
      assert (p[0] + rest)[..|p[0]|] == p[0];
      assert (p[0] + rest)[|p[0]| + 1..] == PathText(p[1..]);
      assert forall i :: 0 <= i < |p[1..]| ==> p[1..][i] == p[i + 1];
      PathRoundTrips(p[1..]);
      assert p == [p[0]] + p[1..];
    }
  }

  /** The separator is a slash. */
  lemma {:induction false} GenericForm(p: Path, name: string)
    requires p != []
    ensures PathText(p + [name]) == PathText(p) + "/" + name
  {
    if |p| == 1 {
      assert (p + [name])[1..] == [name];
    } else {
      assert (p + [name])[1..] == p[1..] + [name];
      GenericForm(p[1..], name);
      assert ['/'] + (PathText(p[1..]) + "/" + name) == (['/'] + PathText(p[1..])) + "/" + name;
    }
  }

  /** `duration_cast` to ticks rounds towards zero. */
  function ToTicks(ns: I64): Ticks {
    var n: int := ns;
    if n >= 0 then n / TICK_NS else 0 - ((0 - n) / TICK_NS)
  }

  lemma TicksTruncate(ns: I64)
    ensures ns >= 0 ==> 0 <= ns - ToTicks(ns) * TICK_NS < TICK_NS
    ensures ns <= 0 ==> 0 <= ToTicks(ns) * TICK_NS - ns < TICK_NS
  {
  }

  function ToRecord(e: Item): Record {
    Record(e.id, PathText(e.originalPath), PathText(e.storagePath), e.originalSize, e.storedSize,
           e.capturedAt * TICK_NS, e.expiresAt * TICK_NS, e.compressed, e.reason, e.correlation)
  }

  function FromRecord(r: Record): Item {
    Item(r.id, ParsePath(r.original), ParsePath(r.storage), r.originalSize, r.storedSize,
         ToTicks(r.capturedNs), ToTicks(r.expiresNs), r.compressed, r.reason, r.correlation)
  }

  lemma RecordRoundTrips(e: Item)
    requires ValidPath(e.originalPath) && ValidPath(e.storagePath)
    ensures FromRecord(ToRecord(e)) == e
  {
    PathRoundTrips(e.originalPath);
    PathRoundTrips(e.storagePath);
  }

  function Records(items: seq<Item>): seq<Record> {
    seq(|items|, i requires 0 <= i < |items| => ToRecord(items[i]))
  }

  function Items(records: seq<Record>): seq<Item> {
    seq(|records|, i requires 0 <= i < |records| => FromRecord(records[i]))
  }

  // ---------------------------------------------------------------- the state

  /** `Thrown` stands for an exception that leaves the operation. */
  datatype Error = NotFound | IoError | Thrown

  datatype State = State(root: Path, retentionHours: nat, items: seq<Item>, storedBytes: U64, disk: Disk)

  const INDEX_NAME: string := "index.json"

  function IndexPath(root: Path): Path {
    root + [INDEX_NAME]
  }

  function IndexText(items: seq<Item>): string {
    Print(Records(items))
  }

  /** `persistIndex` when the file can be opened; otherwise nothing is written. */
  function Persisted(s: State): State {
    s.(disk := s.disk[IndexPath(s.root) := File(IndexText(s.items))])
  }

  function Persist(s: State, writable: bool): State {
    if writable then Persisted(s) else s
  }

  function Sum(items: seq<Item>): nat {
    if items == [] then 0 else Sum(items[..|items| - 1]) + items[|items| - 1].storedSize
  }

  /** `storedBytes -= std::min(storedBytes, size)`. */
  function Minus(total: U64, size: U64): U64 {
    if size <= total then total - size else 0
  }

  function Plus(total: U64, size: U64): U64 {
    (total + size) % TWO_TO_THE_64
  }

  /** `std::find_if` by id: the first match, or the length. */
  function Find(items: seq<Item>, id: string): (i: nat)
    ensures i <= |items| && (i < |items| ==> items[i].id == id)
    ensures forall k :: 0 <= k < i ==> items[k].id != id
  {
    if items == [] || items[0].id == id then 0 else 1 + Find(items[1..], id)
  }

  function Without(items: seq<Item>, i: nat): seq<Item>
    requires i < |items|
  {
    items[..i] + items[i + 1..]
  }

  function Name(p: Path): string
    requires p != []
  {
    p[|p| - 1]
  }

  /** Where the contents of an item are kept. */
  function StoredAt(e: Item): Path
    requires e.originalPath != []
  {
    e.storagePath + [Name(e.originalPath)]
  }

  datatype CaptureEnv = CaptureEnv(
    id: string, size: U64, now: Ticks, later: Ticks, mkdirWorks: bool, renameWorks: bool, leftover: set<Path>,
    cleanupThrows: bool, writable: bool)

  /** The second reading of the clock plus the retention; a sum that overflows is undefined in the source. */
  function Expiry(s: State, env: CaptureEnv): int {
    env.later + s.retentionHours * TICKS_PER_HOUR
  }

  function NewItem(s: State, source: Path, reason: string, correlation: string, env: CaptureEnv): Item
    requires IsTicks(Expiry(s, env))
  {
    Item(env.id, source, s.root + [env.id], env.size, env.size, env.now, Expiry(s, env), false, reason, correlation)
  }

  /** The clean-up after a refused rename is the one removal whose failure is an exception. */
  function Capture(s: State, source: Path, reason: string, correlation: string, env: CaptureEnv)
    : (State, Result<Item, Error>)
    requires source != [] && IsTicks(Expiry(s, env))
  {
    var target := s.root + [env.id];
    if source !in s.disk then (s, Err(NotFound))
    else if !env.mkdirWorks || !CanCreateDirectories(s.disk, target) then (s, Err(IoError))
    else
      var made := CreateDirectories(s.disk, target);
      var stored := target + [Name(source)];
      if !env.renameWorks || !CanRename(made, source, stored) then
        (s.(disk := RemoveAll(made, target, env.leftover)), Err(if env.cleanupThrows then Thrown else IoError))
      else
        var item := NewItem(s, source, reason, correlation, env);
        var s' := s.(items := s.items + [item], storedBytes := Plus(s.storedBytes, item.storedSize),
                     disk := Rename(made, source, stored));
        (Persist(s', env.writable), if env.writable then Ok(item) else Err(IoError))
  }

  datatype ReleaseEnv = ReleaseEnv(mkdirWorks: bool, renameWorks: bool, leftover: set<Path>, writable: bool)

  function Forget(s: State, i: nat): State
    requires i < |s.items|
  {
    s.(items := Without(s.items, i), storedBytes := Minus(s.storedBytes, s.items[i].storedSize))
  }

  /** The disk once `restore` has tried to make the directory the item came from. */
  function WithParent(s: State, e: Item, mkdirWorks: bool): Disk
    requires e.originalPath != []
  {
    var parent := e.originalPath[..|e.originalPath| - 1];
    if mkdirWorks && CanCreateDirectories(s.disk, parent) then CreateDirectories(s.disk, parent) else s.disk
  }

  function MovedBack(made: Disk, e: Item, leftover: set<Path>): Disk
    requires e.originalPath != [] && Apart(StoredAt(e), e.originalPath)
  {
    RemoveAll(Rename(made, StoredAt(e), e.originalPath), e.storagePath, leftover)
  }

  function Restore(s: State, id: string, env: ReleaseEnv): (State, Result<(), Error>) {
    var i := Find(s.items, id);
    if i == |s.items| then (s, Err(NotFound))
    else
      var e := s.items[i];
      if e.originalPath == [] then (s, Err(IoError))
      else
        var made := WithParent(s, e, env.mkdirWorks);
        if !env.renameWorks || !CanRename(made, StoredAt(e), e.originalPath) then (s.(disk := made), Err(IoError))
        else
          var s' := Forget(s, i).(disk := MovedBack(made, e, env.leftover));
          (Persist(s', env.writable), if env.writable then Ok(()) else Err(IoError))
  }

  function Discard(s: State, id: string, env: ReleaseEnv): (State, Result<(), Error>) {
    var i := Find(s.items, id);
    if i == |s.items| then (s, Err(NotFound))
    else
      var s' := Forget(s, i).(disk := RemoveAll(s.disk, s.items[i].storagePath, env.leftover));
      (Persist(s', env.writable), if env.writable then Ok(()) else Err(IoError))
  }

  predicate Expired(e: Item, now: Ticks) {
    now >= e.expiresAt
  }

  /** The loop of `purgeExpired` from position `i` on. */
  function PurgeFrom(s: State, i: nat, now: Ticks, leftover: set<Path>): (State, nat)
    requires i <= |s.items|
    decreases |s.items| - i
  {
    if i == |s.items| then (s, 0)
    else if Expired(s.items[i], now) then
      var t := Forget(s, i).(disk := RemoveAll(s.disk, s.items[i].storagePath, leftover));
      var (s', n) := PurgeFrom(t, i, now, leftover);
      (s', n + 1)
    else PurgeFrom(s, i + 1, now, leftover)
  }

  function PurgeExpired(s: State, now: Ticks, env: ReleaseEnv): (State, Result<nat, Error>) {
    var (s', n) := PurgeFrom(s, 0, now, env.leftover);
    (Persist(s', env.writable), if env.writable then Ok(n) else Err(IoError))
  }

  function SumU64(items: seq<Item>): U64 {
    Sum(items) % TWO_TO_THE_64
  }

  /** `loadIndex` on what the disk holds. */
  function Reload(s: State): State {
    var index := IndexPath(s.root);
    var items := if index in s.disk && s.disk[index].File? then Items(Load(s.disk[index].content)) else [];
    s.(items := items, storedBytes := SumU64(items))
  }

  /** `loadIndex`, which empties the list first; an index that is there and cannot be opened is an error. */
  function Loaded(s: State, readable: bool): (State, Result<(), Error>) {
    var index := IndexPath(s.root);
    if index in s.disk && !(readable && s.disk[index].File?) then (s.(items := [], storedBytes := 0), Err(IoError))
    else (Reload(s), Ok(()))
  }

  // ---------------------------------------------------------------- runs

  datatype Action =
    | DoCapture(source: Path, reason: string, correlation: string, capture: CaptureEnv)
    | DoRestore(id: string, release: ReleaseEnv)
    | DoDiscard(id: string, release: ReleaseEnv)
    | DoPurge(now: Ticks, release: ReleaseEnv)
    | Restart
    | External(disk: Disk)

  /** A `capture` within its premises: the source is apart from the store, the random id is fresh. */
  ghost predicate MayCapture(s: State, source: Path, env: CaptureEnv) {
    && source != [] && Apart(s.root, source) && IsTicks(Expiry(s, env))
    && env.id != INDEX_NAME && Free(s.disk, s.root + [env.id]) && (forall e :: e in s.items ==> e.id != env.id)
    && Sum(s.items) + env.size < TWO_TO_THE_64
  }

  ghost predicate Synced(s: State) {
    IndexPath(s.root) in s.disk && s.disk[IndexPath(s.root)] == File(IndexText(s.items))
  }

  predicate ItemRoundTrips(e: Item) {
    RoundTrips(ToRecord(e)) && ValidPath(e.originalPath) && ValidPath(e.storagePath)
  }

  /** A restart is clean when the last write of the index went through and the index round trips. */
  ghost predicate CleanRestart(s: State) {
    Synced(s) && forall e :: e in s.items ==> ItemRoundTrips(e)
  }

  ghost predicate Admissible(s: State, a: Action) {
    match a
    case DoCapture(source, _, _, env) => MayCapture(s, source, env)
    case Restart => CleanRestart(s)
    case External(disk) => SameBelow(s.root, s.disk, disk)
    case _ => true
  }

  /** A source has a name, and the expiry can be expressed. */
  predicate Defined(s: State, a: Action) {
    a.DoCapture? ==> a.source != [] && IsTicks(Expiry(s, a.capture))
  }

  function After(s: State, a: Action): State
    requires Defined(s, a)
  {
    match a
    case DoCapture(source, reason, correlation, env) => Capture(s, source, reason, correlation, env).0
    case DoRestore(id, env) => Restore(s, id, env).0
    case DoDiscard(id, env) => Discard(s, id, env).0
    case DoPurge(now, env) => PurgeExpired(s, now, env).0
    case Restart => Reload(s)
    case External(disk) => s.(disk := disk)
  }

  /** `t` is the state after `actions` from `s`, all of them admissible where they happen. */
  ghost predicate Leads(s: State, actions: seq<Action>, t: State)
    decreases |actions|
  {
    if actions == [] then t == s
    else Admissible(s, actions[0]) && Leads(After(s, actions[0]), actions[1..], t)
  }

  /** The only ways an item may leave the index. */
  predicate Releases(a: Action, e: Item) {
    match a
    case DoRestore(id, _) => id == e.id
    case DoDiscard(id, _) => id == e.id
    case DoPurge(now, _) => Expired(e, now)
    case _ => false
  }

  // ---------------------------------------------------------------- the invariant

  ghost predicate ItemOk(s: State, e: Item) {
    && e.storagePath == s.root + [e.id] && e.id != INDEX_NAME
    && e.originalPath != [] && Apart(s.root, e.originalPath)
    && StoredAt(e) in s.disk
  }

  ghost predicate DistinctIds(items: seq<Item>) {
    forall i, k :: 0 <= i < k < |items| ==> items[i].id != items[k].id
  }

  ghost predicate Inv(s: State) {
    && (forall e :: e in s.items ==> ItemOk(s, e))
    && DistinctIds(s.items)
    && s.storedBytes == Sum(s.items)
  }

  lemma {:induction false} SumWithout(items: seq<Item>, i: nat)
    requires i < |items|
    ensures Sum(Without(items, i)) == Sum(items) - items[i].storedSize
    decreases |items|
  {
    var last := |items| - 1;
    if i == last {
      assert Without(items, i) == items[..last];
    } else {
      SumWithout(items[..last], i);
      assert Without(items, i)[..last - 1] == Without(items[..last], i);
    }
  }

  lemma WithoutKeeps(items: seq<Item>, i: nat, e: Item)
    requires i < |items| && DistinctIds(items)
    ensures e in Without(items, i) <==> e in items && e.id != items[i].id
  {
  }

  /** No truncation: an item's size never exceeds the total it is taken from. */
  lemma TheMinNeverBites(s: State, i: nat)
    requires Inv(s) && i < |s.items|
    ensures s.items[i].storedSize <= s.storedBytes
    ensures Forget(s, i).storedBytes == s.storedBytes - s.items[i].storedSize
  {
    SumWithout(s.items, i);
  }

  lemma SiblingsApart(root: Path, a: string, b: string)
    requires a != b
    ensures Apart(root + [a], root + [b])
  {
    assert (root + [a])[|root|] == a && (root + [b])[|root|] == b;
  }

  lemma BelowRoot(root: Path, a: string, q: Path)
    requires Apart(root, q)
    ensures Apart(root + [a], q)
  {
  }

  /** Removing one item, and what lies at its place in the store, keeps the rest. */
  lemma ForgetKeeps(s: State, i: nat, disk: Disk)
    requires Inv(s) && i < |s.items|
    requires forall q :: s.root <= q && !(s.items[i].storagePath <= q) ==>
               (q in disk <==> q in s.disk) && (q in disk ==> disk[q] == s.disk[q])
    ensures Inv(Forget(s, i).(disk := disk))
    ensures forall e :: e in s.items && e.id != s.items[i].id ==>
              e in Forget(s, i).items && SameBelow(e.storagePath, s.disk, disk)
  {
    var s' := Forget(s, i).(disk := disk);
    SumWithout(s.items, i);
    forall e ensures e in s'.items <==> e in s.items && e.id != s.items[i].id { WithoutKeeps(s.items, i, e); }
    forall e | e in s.items && e.id != s.items[i].id ensures SameBelow(e.storagePath, s.disk, disk) && ItemOk(s', e) {
      assert s.items[i] in s.items;
      SiblingsApart(s.root, e.id, s.items[i].id);
      forall q | e.storagePath <= q ensures (q in s.disk <==> q in disk) && (q in s.disk ==> s.disk[q] == disk[q]) {
        ApartBelow(e.storagePath, s.items[i].storagePath, q);
      }
      assert e.storagePath <= StoredAt(e);
    }
  }

  lemma PersistKeeps(s: State, writable: bool)
    requires Inv(s)
    ensures Inv(Persist(s, writable)) && (writable ==> Synced(Persist(s, writable)))
    ensures forall e :: e in s.items ==> SameBelow(e.storagePath, s.disk, Persist(s, writable).disk)
  {
    forall e | e in s.items
      ensures SameBelow(e.storagePath, s.disk, Persist(s, writable).disk) && StoredAt(e) in Persist(s, writable).disk
    {
      SiblingsApart(s.root, e.id, INDEX_NAME);
      assert StoredAt(e) in s.disk;
    }
  }

  // ---------------------------------------------------------------- every operation keeps it

  /** What an operation owes to an item it does not release: still indexed, contents untouched. */
  ghost predicate KeepsItem(s: State, s': State, e: Item) {
    e in s'.items && SameBelow(e.storagePath, s.disk, s'.disk)
  }

  lemma SameBelowAgain(p: Path, a: Disk, b: Disk, c: Disk)
    requires SameBelow(p, a, b) && SameBelow(p, b, c)
    ensures SameBelow(p, a, c)
  {
  }

  lemma DiskOnlyKeeps(s: State, disk: Disk)
    requires Inv(s) && forall e :: e in s.items ==> SameBelow(e.storagePath, s.disk, disk)
    ensures Inv(s.(disk := disk))
  {
  }

  /** The directory of a new item touches no other item. */
  lemma MakingTargetKeeps(s: State, id: string, e: Item)
    requires Inv(s) && e in s.items && e.id != id && CanCreateDirectories(s.disk, s.root + [id])
    ensures SameBelow(e.storagePath, s.disk, CreateDirectories(s.disk, s.root + [id]))
  {
    SiblingsApart(s.root, e.id, id);
  }

  lemma CaptureKeeps(s: State, source: Path, reason: string, correlation: string, env: CaptureEnv)
    requires Inv(s) && MayCapture(s, source, env)
    ensures Inv(Capture(s, source, reason, correlation, env).0)
    ensures forall e :: e in s.items ==> KeepsItem(s, Capture(s, source, reason, correlation, env).0, e)
  {
    if source in s.disk && env.mkdirWorks && CanCreateDirectories(s.disk, s.root + [env.id]) {
      var target := s.root + [env.id];
      var made := CreateDirectories(s.disk, target);
      var stored := target + [Name(source)];
      forall e | e in s.items ensures SameBelow(e.storagePath, s.disk, made) {
        MakingTargetKeeps(s, env.id, e);
      }
      if !env.renameWorks || !CanRename(made, source, stored) {
        var removed := RemoveAll(made, target, env.leftover);
        forall e | e in s.items ensures SameBelow(e.storagePath, s.disk, removed) {
          SiblingsApart(s.root, e.id, env.id);
          forall q | e.storagePath <= q && q in made ensures q in removed && removed[q] == made[q] {
            ApartBelow(e.storagePath, target, q);
          }
        }
        DiskOnlyKeeps(s, removed);
      } else {
        CaptureMoves(s, source, reason, correlation, env);
      }
    }
  }

  /** Moving a source from outside the store to the place of a new item touches no other item. */
  lemma MovingInKeeps(s: State, made: Disk, source: Path, id: string, e: Item)
    requires Inv(s) && e in s.items && e.id != id && source != [] && Apart(s.root, source)
    requires SameBelow(e.storagePath, s.disk, made) && Apart(source, s.root + [id] + [Name(source)])
    ensures SameBelow(e.storagePath, s.disk, Rename(made, source, s.root + [id] + [Name(source)]))
  {
    var target := s.root + [id];
    var stored := target + [Name(source)];
    var moved := Rename(made, source, stored);
    SiblingsApart(s.root, e.id, id);
    BelowRoot(s.root, e.id, source);
    forall q | e.storagePath <= q ensures (q in s.disk <==> q in moved) && (q in s.disk ==> s.disk[q] == moved[q]) {
      ApartBelow(e.storagePath, target, q);
      ApartBelow(e.storagePath, source, q);
      assert !(stored <= q) && !(source <= q);
    }
  }

  lemma AddItemKeeps(s: State, item: Item, disk: Disk)
    requires Inv(s) && Sum(s.items) + item.storedSize < TWO_TO_THE_64 && (forall e :: e in s.items ==> e.id != item.id)
    requires forall e :: e in s.items ==> SameBelow(e.storagePath, s.disk, disk)
    requires ItemOk(s.(disk := disk), item)
    ensures Inv(s.(items := s.items + [item], storedBytes := Plus(s.storedBytes, item.storedSize), disk := disk))
  {
  }

  lemma CaptureMoves(s: State, source: Path, reason: string, correlation: string, env: CaptureEnv)
    requires Inv(s) && MayCapture(s, source, env) && source in s.disk
    requires env.mkdirWorks && CanCreateDirectories(s.disk, s.root + [env.id]) && env.renameWorks
    requires CanRename(CreateDirectories(s.disk, s.root + [env.id]), source, s.root + [env.id] + [Name(source)])
    ensures Inv(Capture(s, source, reason, correlation, env).0)
    ensures forall e :: e in s.items ==> KeepsItem(s, Capture(s, source, reason, correlation, env).0, e)
  {
    var stored := s.root + [env.id] + [Name(source)];
    var made := CreateDirectories(s.disk, s.root + [env.id]);
    var moved := Rename(made, source, stored);
    var item := NewItem(s, source, reason, correlation, env);
    var s' := s.(items := s.items + [item], storedBytes := Plus(s.storedBytes, item.storedSize), disk := moved);
    forall e | e in s.items ensures SameBelow(e.storagePath, s.disk, moved) {
      MakingTargetKeeps(s, env.id, e);
      MovingInKeeps(s, made, source, env.id, e);
    }
    assert Moved(source, stored, stored) == source;
    AddItemKeeps(s, item, moved);
    hide Inv, ItemOk, SameBelow, Sum;
    PersistKeeps(s', env.writable);
    forall e | e in s.items ensures KeepsItem(s, Persist(s', env.writable), e) {
      assert e in s'.items;
      SameBelowAgain(e.storagePath, s.disk, moved, Persist(s', env.writable).disk);
    }
  }

  lemma WithParentKeeps(s: State, e: Item, mkdirWorks: bool)
    requires Inv(s) && e in s.items
    ensures e.originalPath != [] && SameBelow(s.root, s.disk, WithParent(s, e, mkdirWorks))
    ensures Inv(s.(disk := WithParent(s, e, mkdirWorks)))
    ensures forall o :: o in s.items ==> SameBelow(o.storagePath, s.disk, WithParent(s, e, mkdirWorks))
  {
  }

  lemma StoreApartFromOriginal(s: State, e: Item)
    requires ItemOk(s, e)
    ensures e.originalPath != [] && e.storagePath <= StoredAt(e)
    ensures Apart(e.storagePath, e.originalPath) && Apart(StoredAt(e), e.originalPath)
  {
  }

  /** Restoring works outside the store, and inside only at the place of its own item. */
  lemma MovedBackKeeps(s: State, made: Disk, e: Item, leftover: set<Path>)
    requires Inv(s) && e in s.items && SameBelow(s.root, s.disk, made)
    ensures e.originalPath != [] && Apart(StoredAt(e), e.originalPath)
    ensures var after := MovedBack(made, e, leftover);
      forall q :: s.root <= q && !(e.storagePath <= q) ==>
        (q in after <==> q in s.disk) && (q in after ==> after[q] == s.disk[q])
  {
  }

  lemma RestoreKeeps(s: State, id: string, env: ReleaseEnv)
    requires Inv(s)
    ensures Inv(Restore(s, id, env).0)
    ensures forall e :: e in s.items && e.id != id ==> KeepsItem(s, Restore(s, id, env).0, e)
  {
    var i := Find(s.items, id);
    if i < |s.items| {
      var e := s.items[i];
      assert e in s.items;
      WithParentKeeps(s, e, env.mkdirWorks);
      var made := WithParent(s, e, env.mkdirWorks);
      hide Inv, ItemOk, SameBelow, WithParent, MovedBack, CanRename;
      if env.renameWorks && CanRename(made, StoredAt(e), e.originalPath) {
        MovedBackKeeps(s, made, e, env.leftover);
        ForgetAndPersist(s, i, MovedBack(made, e, env.leftover), env.writable);
      }
    }
  }

  lemma ForgetAndPersist(s: State, i: nat, disk: Disk, writable: bool)
    requires Inv(s) && i < |s.items|
    requires forall q :: s.root <= q && !(s.items[i].storagePath <= q) ==>
               (q in disk <==> q in s.disk) && (q in disk ==> disk[q] == s.disk[q])
    ensures Inv(Persist(Forget(s, i).(disk := disk), writable))
    ensures forall e :: e in s.items && e.id != s.items[i].id ==>
              KeepsItem(s, Persist(Forget(s, i).(disk := disk), writable), e)
  {
    var s' := Forget(s, i).(disk := disk);
    ForgetKeeps(s, i, disk);
    PersistKeeps(s', writable);
    hide Inv, SameBelow;
    forall e | e in s.items && e.id != s.items[i].id ensures KeepsItem(s, Persist(s', writable), e) {
      SameBelowAgain(e.storagePath, s.disk, disk, Persist(s', writable).disk);
    }
  }

  lemma DiscardKeeps(s: State, id: string, env: ReleaseEnv)
    requires Inv(s)
    ensures Inv(Discard(s, id, env).0)
    ensures forall e :: e in s.items && e.id != id ==> KeepsItem(s, Discard(s, id, env).0, e)
  {
    var i := Find(s.items, id);
    if i < |s.items| {
      ForgetAndPersist(s, i, RemoveAll(s.disk, s.items[i].storagePath, env.leftover), env.writable);
    }
  }

  /** The items a purge at `now` leaves, in order. */
  function Survivors(items: seq<Item>, now: Ticks): seq<Item> {
    if items == [] then []
    else (if Expired(items[0], now) then [] else [items[0]]) + Survivors(items[1..], now)
  }

  lemma {:induction false} SurvivorsAre(items: seq<Item>, now: Ticks, e: Item)
    ensures e in Survivors(items, now) <==> e in items && !Expired(e, now)
    ensures |Survivors(items, now)| <= |items|
  {
    if items != [] {
      assert items == [items[0]] + items[1..];
      SurvivorsAre(items[1..], now, e);
    }
  }

  lemma {:induction false} PurgeFromItems(s: State, i: nat, now: Ticks, leftover: set<Path>)
    requires i <= |s.items|
    ensures PurgeFrom(s, i, now, leftover).0.items == s.items[..i] + Survivors(s.items[i..], now)
    ensures |PurgeFrom(s, i, now, leftover).0.items| + PurgeFrom(s, i, now, leftover).1 == |s.items|
    decreases |s.items| - i
  {
    if i < |s.items| {
      assert s.items[i..][1..] == s.items[i + 1..];
      if Expired(s.items[i], now) {
        var t := Forget(s, i).(disk := RemoveAll(s.disk, s.items[i].storagePath, leftover));
        PurgeFromItems(t, i, now, leftover);
        assert t.items[..i] == s.items[..i] && t.items[i..] == s.items[i + 1..];
      } else {
        PurgeFromItems(s, i + 1, now, leftover);
        assert s.items[..i + 1] == s.items[..i] + [s.items[i]];
      }
    }
  }

  lemma {:induction false} PurgeFromKeeps(s: State, i: nat, now: Ticks, leftover: set<Path>)
    requires Inv(s) && i <= |s.items|
    ensures var s' := PurgeFrom(s, i, now, leftover).0;
      && Inv(s') && s'.root == s.root
      && forall e :: e in s.items && !Expired(e, now) ==> SameBelow(e.storagePath, s.disk, s'.disk)
    decreases |s.items| - i
  {
    if i < |s.items| {
      if Expired(s.items[i], now) {
        var disk := RemoveAll(s.disk, s.items[i].storagePath, leftover);
        var t := Forget(s, i).(disk := disk);
        ForgetKeeps(s, i, disk);
        SameIdSameItem(s.items);
        assert s.items[i] in s.items;
        hide Inv, SameBelow;
        PurgeFromKeeps(t, i, now, leftover);
        forall e | e in s.items && !Expired(e, now)
          ensures SameBelow(e.storagePath, s.disk, PurgeFrom(t, i, now, leftover).0.disk)
        {
          SameBelowAgain(e.storagePath, s.disk, disk, PurgeFrom(t, i, now, leftover).0.disk);
        }
      } else {
        PurgeFromKeeps(s, i + 1, now, leftover);
      }
    }
  }

  lemma SameIdSameItem(items: seq<Item>)
    requires DistinctIds(items)
    ensures forall a, b :: a in items && b in items && a.id == b.id ==> a == b
  {
  }

  lemma PurgeKeeps(s: State, now: Ticks, env: ReleaseEnv)
    requires Inv(s)
    ensures Inv(PurgeExpired(s, now, env).0)
    ensures forall e :: e in s.items && !Expired(e, now) ==> KeepsItem(s, PurgeExpired(s, now, env).0, e)
  {
    var s' := PurgeFrom(s, 0, now, env.leftover).0;
    PurgeFromKeeps(s, 0, now, env.leftover);
    PurgeFromItems(s, 0, now, env.leftover);
    assert s.items[..0] + Survivors(s.items[0..], now) == Survivors(s.items, now) by { assert s.items[0..] == s.items; }
    PersistKeeps(s', env.writable);
    hide Inv, SameBelow, PurgeFrom;
    forall e | e in s.items && !Expired(e, now) ensures KeepsItem(s, Persist(s', env.writable), e) {
      SurvivorsAre(s.items, now, e);
      SameBelowAgain(e.storagePath, s.disk, s'.disk, Persist(s', env.writable).disk);
    }
  }

  // ---------------------------------------------------------------- coming back from disk

  lemma {:induction false} TextRoundTrips(t: string)
    ensures PathText(ParsePath(t)) == t && ParsePath(t) != []
    decreases |t|
  {
    var n := FirstPart(t);
    if n < |t| {
      var rest := t[n + 1..];
      TextRoundTrips(rest);
      var p := [t[..n]] + ParsePath(rest);
      assert p[1..] == ParsePath(rest);
      assert t == t[..n] + (['/'] + rest);
      hide ParsePath, FirstPart;
      assert PathText(p) == t[..n] + (['/'] + PathText(p[1..]));
    }
  }

  /** A record that was mangled on the way does not give the item back. */
  lemma MangledIsAnotherItem(e: Item)
    requires ValidPath(e.originalPath) && ValidPath(e.storagePath)
    ensures FromRecord(Mangled(ToRecord(e))) == e <==> Mangled(ToRecord(e)) == ToRecord(e)
  {
    var r := ToRecord(e);
    RecordRoundTrips(e);
    TextRoundTrips(Mangled(r).original);
    TextRoundTrips(Mangled(r).storage);
    hide ParsePath, PathText;
  }

  lemma {:induction false} KeptIsShorter(rs: seq<Record>)
    ensures |Kept(rs)| <= |rs|
    ensures |Kept(rs)| == |rs| <==> forall i :: 0 <= i < |rs| ==> Fits(rs[i])
    ensures forall i :: 0 <= i < |Kept(rs)| ==> Kept(rs)[i] == Mangled(rs[i])
  {
    if rs != [] {
      KeptIsShorter(rs[1..]);
      hide Fits, Mangled;
      assert forall i :: 0 <= i < |rs| - 1 ==> rs[1..][i] == rs[i + 1];
      assert (forall i :: 0 <= i < |rs| ==> Fits(rs[i])) <==>
             Fits(rs[0]) && forall i :: 0 <= i < |rs| - 1 ==> Fits(rs[1..][i])
      by {
        if forall i :: 0 <= i < |rs| - 1 ==> Fits(rs[1..][i]) {
          forall i | 1 <= i < |rs| ensures Fits(rs[i]) { assert rs[1..][i - 1] == rs[i]; }
        }
      }
    }
  }

  /** A reload of what was written for `items` gives them back exactly when each of them round trips. */
  lemma ReloadedItemsExactly(items: seq<Item>)
    requires forall e :: e in items ==> ValidPath(e.originalPath) && ValidPath(e.storagePath)
    ensures Items(Load(IndexText(items))) == items <==> forall e :: e in items ==> ItemRoundTrips(e)
  {
    var rs := Records(items);
    ReloadExactly(rs);
    KeptIsShorter(rs);
    var back := Items(Kept(rs));
    hide Load, Print, Kept;
    forall i | 0 <= i < |items|
      ensures ItemRoundTrips(items[i]) <==> Fits(rs[i]) && FromRecord(Mangled(rs[i])) == items[i]
    {
      assert items[i] in items;
      MangledIsAnotherItem(items[i]);
      MangledIsSame(rs[i]);
    }
    hide ItemRoundTrips, Fits, Mangled, FromRecord, ToRecord;
    if forall i :: 0 <= i < |items| ==> ItemRoundTrips(items[i]) {
      assert forall i :: 0 <= i < |items| ==> back[i] == items[i];
    }
    if back == items {
      forall i | 0 <= i < |items| ensures ItemRoundTrips(items[i]) {
        assert back[i] == items[i];
      }
    }
  }

  /** When the index on disk is what was last written, starting again from it changes nothing, exactly
      when the items round trip. */
  lemma RestartExactly(s: State)
    requires Inv(s) && Synced(s)
    requires forall e :: e in s.items ==> ValidPath(e.originalPath) && ValidPath(e.storagePath)
    ensures Reload(s) == s <==> forall e :: e in s.items ==> ItemRoundTrips(e)
  {
    ReloadedItemsExactly(s.items);
    SumFits(s);
  }

  lemma SumFits(s: State)
    requires Inv(s)
    ensures SumU64(s.items) == s.storedBytes
  {
  }

  /** If the write of the index was cut short, starting again finds the first of the items, in order. */
  lemma TornRestart(s: State, k: nat)
    requires k <= |IndexText(s.items)| && forall e :: e in s.items ==> ItemRoundTrips(e)
    ensures var torn := s.(disk := s.disk[IndexPath(s.root) := File(IndexText(s.items)[..k])]);
      Reload(torn).items <= s.items && Reload(torn).storedBytes == SumU64(Reload(torn).items)
  {
    var rs := Records(s.items);
    forall r | r in rs ensures RoundTrips(r) {
      var i :| 0 <= i < |rs| && rs[i] == r;
      assert s.items[i] in s.items;
    }
    TornWriteKeepsAPrefix(rs, k);
    var loaded := Load(Print(rs)[..k]);
    hide Load, Print, RoundTrips;
    forall i | 0 <= i < |loaded| ensures FromRecord(loaded[i]) == s.items[i] {
      assert loaded[i] == rs[i] && s.items[i] in s.items;
      RecordRoundTrips(s.items[i]);
    }
  }

  // ---------------------------------------------------------------- whole runs

  lemma StepKeeps(s: State, a: Action)
    requires Inv(s) && Admissible(s, a)
    ensures Inv(After(s, a))
    ensures forall e :: e in s.items && !Releases(a, e) ==> KeepsItem(s, After(s, a), e)
  {
    match a
    case DoCapture(source, reason, correlation, env) => CaptureKeeps(s, source, reason, correlation, env);
    case DoRestore(id, env) => RestoreKeeps(s, id, env);
    case DoDiscard(id, env) => DiscardKeeps(s, id, env);
    case DoPurge(now, env) => PurgeKeeps(s, now, env);
    case Restart =>
      RestartExactly(s);
    case External(disk) =>
      assert forall e :: e in s.items ==> s.root <= e.storagePath;
      DiskOnlyKeeps(s, disk);
  }

  /**
   Retention: whatever else happens, an item stays in the index with its contents untouched until a
   restore or a discard of it, or a purge not before its expiry.
   */
  lemma {:induction false} RetainedUntilReleased(s: State, actions: seq<Action>, t: State, e: Item)
    requires Inv(s) && e in s.items && Leads(s, actions, t)
    requires forall a :: a in actions ==> !Releases(a, e)
    ensures Inv(t) && t.root == s.root && e in t.items && SameBelow(e.storagePath, s.disk, t.disk)
    decreases |actions|
  {
    if actions != [] {
      var next := After(s, actions[0]);
      assert actions[0] in actions;
      StepKeeps(s, actions[0]);
      RootStays(s, actions[0]);
      hide Inv, Releases, SameBelow, After, Admissible;
      RetainedUntilReleased(next, actions[1..], t, e);
      SameBelowAgain(e.storagePath, s.disk, next.disk, t.disk);
    }
  }

  /** A captured item outlives every run of less than its retention in which nobody releases it by name. */
  lemma KeptForTheRetention(s: State, source: Path, reason: string, correlation: string, env: CaptureEnv,
                            s1: State, e: Item, actions: seq<Action>, t: State)
    requires Inv(s) && MayCapture(s, source, env) && Capture(s, source, reason, correlation, env) == (s1, Ok(e))
    requires Leads(s1, actions, t)
    requires forall a :: a in actions ==>
      && (a.DoRestore? || a.DoDiscard? ==> a.id != env.id)
      && (a.DoPurge? ==> a.now < env.later + s.retentionHours * TICKS_PER_HOUR)
    ensures e in t.items && e.originalPath == source
    ensures MovedBelow(source, StoredAt(e), s.disk, s1.disk) && SameBelow(StoredAt(e), s1.disk, t.disk)
  {
    hide Inv, Capture, Leads, MovedBelow, SameBelow, Persisted, Rename, CreateDirectories;
    assert e.id == env.id && e.expiresAt == Expiry(s, env) && e.originalPath == source by {
      CaptureShape(s, source, reason, correlation, env, s1, e);
    }
    assert forall a :: a in actions ==> !Releases(a, e);
    hide Releases, MayCapture, Expiry;
    HeldSinceCapture(s, source, reason, correlation, env, s1, e, actions, t);
  }

  lemma RootStays(s: State, a: Action)
    requires Inv(s) && Admissible(s, a)
    ensures After(s, a).root == s.root
  {
    hide Inv, Admissible, IsTicks;
    if a.DoPurge? { PurgeFromKeeps(s, 0, a.now, a.release.leftover); }
  }

  lemma {:induction false} RunKeepsInv(s: State, actions: seq<Action>, t: State)
    requires Inv(s) && Leads(s, actions, t)
    ensures Inv(t)
    decreases |actions|
  {
    if actions != [] {
      var next := After(s, actions[0]);
      StepKeeps(s, actions[0]);
      hide Inv, After, Admissible;
      RunKeepsInv(next, actions[1..], t);
    }
  }

  /** In every reachable state the total is the sum over the items, and ids are unique. */
  lemma TotalsAndIds(s: State, actions: seq<Action>, t: State)
    requires s.items == [] && s.storedBytes == 0 && Leads(s, actions, t)
    ensures t.storedBytes == Sum(t.items) && DistinctIds(t.items)
  {
    RunKeepsInv(s, actions, t);
  }

  // ---------------------------------------------------------------- files outside the store

  /** Whether the capture gets as far as moving the source. */
  predicate Moves(s: State, source: Path, env: CaptureEnv)
    requires source != []
  {
    var target := s.root + [env.id];
    && source in s.disk && env.mkdirWorks && CanCreateDirectories(s.disk, target)
    && env.renameWorks && CanRename(CreateDirectories(s.disk, target), source, target + [Name(source)])
  }

  /** Whether the restore gets as far as moving the contents back. */
  predicate MovesBack(s: State, e: Item, env: ReleaseEnv)
    requires e.originalPath != []
  {
    env.renameWorks && CanRename(WithParent(s, e, env.mkdirWorks), StoredAt(e), e.originalPath)
  }

  ghost predicate KeptAt(q: Path, a: Disk, b: Disk) {
    q in a ==> q in b && b[q] == a[q]
  }

  lemma CaptureKeepsOutside(s: State, source: Path, reason: string, correlation: string, env: CaptureEnv, q: Path)
    requires source != [] && IsTicks(Expiry(s, env)) && !(s.root <= q) && !(source <= q && Moves(s, source, env))
    ensures KeptAt(q, s.disk, Capture(s, source, reason, correlation, env).0.disk)
  {
    var target := s.root + [env.id];
    assert !(target <= q) && !(target + [Name(source)] <= q) && !(IndexPath(s.root) <= q);
  }

  lemma RestoreKeepsOutside(s: State, id: string, env: ReleaseEnv, q: Path)
    requires !(s.root <= q) && forall e :: e in s.items ==> s.root <= e.storagePath
    requires forall e :: e in s.items && e.id == id && e.originalPath <= q ==>
               e.originalPath != [] && !MovesBack(s, e, env)
    ensures KeptAt(q, s.disk, Restore(s, id, env).0.disk)
  {
    var i := Find(s.items, id);
    if i < |s.items| {
      var e := s.items[i];
      assert e in s.items && !(e.storagePath <= q) && !(StoredAt(e) <= q) && !(IndexPath(s.root) <= q);
    }
  }

  lemma DiscardKeepsOutside(s: State, id: string, env: ReleaseEnv, q: Path)
    requires Inv(s) && !(s.root <= q)
    ensures KeptAt(q, s.disk, Discard(s, id, env).0.disk)
  {
    var i := Find(s.items, id);
    if i < |s.items| {
      assert s.items[i] in s.items && !(s.items[i].storagePath <= q) && !(IndexPath(s.root) <= q);
    }
  }

  lemma {:induction false} PurgeFromKeepsOutside(s: State, i: nat, now: Ticks, leftover: set<Path>, q: Path)
    requires i <= |s.items| && forall e :: e in s.items ==> !(e.storagePath <= q)
    ensures KeptAt(q, s.disk, PurgeFrom(s, i, now, leftover).0.disk)
    decreases |s.items| - i
  {
    if i < |s.items| {
      if Expired(s.items[i], now) {
        var t := Forget(s, i).(disk := RemoveAll(s.disk, s.items[i].storagePath, leftover));
        assert s.items[i] in s.items;
        forall e | e in t.items ensures !(e.storagePath <= q) {
          assert e in s.items;
        }
        PurgeFromKeepsOutside(t, i, now, leftover, q);
      } else {
        PurgeFromKeepsOutside(s, i + 1, now, leftover, q);
      }
    }
  }

  /**
   The only steps that may change a file outside the store: a capture of it or of a directory above it that
   gets as far as its move, a restore to its place or above that does, and a change by others.
   */
  ghost predicate Touches(s: State, a: Action, q: Path)
    requires Inv(s)
  {
    match a
    case DoCapture(source, _, _, env) => source != [] && source <= q && Moves(s, source, env)
    case DoRestore(id, env) =>
      exists e :: e in s.items && e.id == id && e.originalPath <= q && ItemOk(s, e) && MovesBack(s, e, env)
    case External(disk) => !KeptAt(q, s.disk, disk)
    case _ => false
  }

  /**
   A file outside the store stays as it is under every operation that does not touch it: a discard and a
   purge never do, nor does a capture or a restore that is refused before its move.
   */
  lemma StepKeepsOutside(s: State, a: Action, q: Path)
    requires Inv(s) && Admissible(s, a) && !(s.root <= q) && !Touches(s, a, q)
    ensures KeptAt(q, s.disk, After(s, a).disk)
  {
    match a
    case DoCapture(source, reason, correlation, env) => CaptureKeepsOutside(s, source, reason, correlation, env, q);
    case DoRestore(id, env) => RestoreKeepsOutside(s, id, env, q);
    case DoDiscard(id, env) => DiscardKeepsOutside(s, id, env, q);
    case DoPurge(now, env) =>
      assert forall e :: e in s.items ==> !(e.storagePath <= q);
      PurgeFromKeepsOutside(s, 0, now, env.leftover, q);
      PurgeFromKeeps(s, 0, now, env.leftover);
      assert !(IndexPath(s.root) <= q);
    case _ =>
  }

  ghost predicate Undisturbed(s: State, actions: seq<Action>, q: Path)
    decreases |actions|
  {
    actions == [] ||
      (Inv(s) && Admissible(s, actions[0]) && !Touches(s, actions[0], q)
       && Undisturbed(After(s, actions[0]), actions[1..], q))
  }

  lemma {:induction false} RunKeepsOutside(s: State, actions: seq<Action>, t: State, q: Path)
    requires Inv(s) && Leads(s, actions, t) && Undisturbed(s, actions, q) && !(s.root <= q)
    ensures KeptAt(q, s.disk, t.disk)
    decreases |actions|
  {
    if actions != [] {
      StepKeeps(s, actions[0]);
      RootStays(s, actions[0]);
      StepKeepsOutside(s, actions[0], q);
      hide Inv, After, Admissible, Touches;
      RunKeepsOutside(After(s, actions[0]), actions[1..], t, q);
    }
  }

  /** Discards, purges and restarts, however many, disturb no file outside the store. */
  lemma {:induction false} QuietRun(s: State, actions: seq<Action>, t: State, q: Path)
    requires Inv(s) && Leads(s, actions, t)
    requires forall a :: a in actions ==> a.DoDiscard? || a.DoPurge? || a.Restart?
    ensures Undisturbed(s, actions, q)
    decreases |actions|
  {
    if actions != [] {
      assert actions[0] in actions;
      StepKeeps(s, actions[0]);
      hide After, Admissible, Inv;
      QuietRun(After(s, actions[0]), actions[1..], t, q);
    }
  }

  /**
   A refused capture has left the source in place exactly when it did not get as far as the move. If it did,
   only the write of the index was refused: the item is held, and the source is at its place in the store. If
   it did not, nothing is left at that place but what could not be removed.
   */
  lemma RefusedCapture(s: State, source: Path, reason: string, correlation: string, env: CaptureEnv)
    requires Inv(s) && MayCapture(s, source, env) && Capture(s, source, reason, correlation, env).1.Err?
    ensures var (s', out) := Capture(s, source, reason, correlation, env);
      && (SameBelow(source, s.disk, s'.disk) <==> !Moves(s, source, env))
      && (Moves(s, source, env) ==>
            && out == Err(IoError) && s'.items == s.items + [NewItem(s, source, reason, correlation, env)]
            && MovedBelow(source, s.root + [env.id] + [Name(source)], s.disk, s'.disk))
      && (!Moves(s, source, env) ==>
            s'.items == s.items && (env.leftover == {} ==> Free(s'.disk, s.root + [env.id])))
  {
    var target := s.root + [env.id];
    BelowRoot(s.root, env.id, source);
    BelowRoot(s.root, INDEX_NAME, source);
    if Moves(s, source, env) {
      MovedInDisk(s.disk, target, source);
      assert source in s.disk && source <= source;
    } else {
      forall q | source <= q ensures Apart(target, q) {
        ApartBelow(source, target, q);
      }
    }
  }

  // ---------------------------------------------------------------- what leaves the store

  lemma FindsIt(items: seq<Item>, e: Item)
    requires DistinctIds(items) && e in items
    ensures Find(items, e.id) < |items| && items[Find(items, e.id)] == e
  {
    var k :| 0 <= k < |items| && items[k] == e;
  }

  /** Of what was stored for the item, only what could not be removed is still there. */
  ghost predicate Emptied(e: Item, leftover: set<Path>, d: Disk) {
    forall q :: e.storagePath <= q && q in d ==> q in leftover
  }

  lemma PersistEmptied(s: State, writable: bool, e: Item, leftover: set<Path>)
    requires Emptied(e, leftover, s.disk) && e.storagePath == s.root + [e.id] && e.id != INDEX_NAME
    ensures Emptied(e, leftover, Persist(s, writable).disk)
  {
    SiblingsApart(s.root, e.id, INDEX_NAME);
  }

  /** A discard forgets the item and removes what is stored for it. */
  lemma DiscardRemoves(s: State, e: Item, env: ReleaseEnv)
    requires Inv(s) && e in s.items
    ensures e !in Discard(s, e.id, env).0.items
    ensures Emptied(e, env.leftover, Discard(s, e.id, env).0.disk)
    ensures env.leftover == {} ==> Free(Discard(s, e.id, env).0.disk, e.storagePath)
  {
    FindsIt(s.items, e);
    var i := Find(s.items, e.id);
    WithoutKeeps(s.items, i, e);
    var disk := RemoveAll(s.disk, e.storagePath, env.leftover);
    PersistEmptied(Forget(s, i).(disk := disk), env.writable, e, env.leftover);
  }

  /** So does a restore that has moved the contents back. */
  lemma RestoreRemoves(s: State, e: Item, env: ReleaseEnv)
    requires Inv(s) && e in s.items && e.originalPath != [] && MovesBack(s, e, env)
    ensures e !in Restore(s, e.id, env).0.items
    ensures Emptied(e, env.leftover, Restore(s, e.id, env).0.disk)
    ensures env.leftover == {} ==> Free(Restore(s, e.id, env).0.disk, e.storagePath)
  {
    FindsIt(s.items, e);
    StoreApartFromOriginal(s, e);
    var i := Find(s.items, e.id);
    WithoutKeeps(s.items, i, e);
    var disk := MovedBack(WithParent(s, e, env.mkdirWorks), e, env.leftover);
    hide Inv, WithParent, Rename;
    PersistEmptied(Forget(s, i).(disk := disk), env.writable, e, env.leftover);
  }

  /** And a purge, for every item that has expired. */
  lemma PurgeRemoves(s: State, now: Ticks, env: ReleaseEnv, e: Item)
    requires Inv(s) && e in s.items && now >= e.expiresAt
    ensures e !in PurgeExpired(s, now, env).0.items
    ensures Emptied(e, env.leftover, PurgeExpired(s, now, env).0.disk)
    ensures env.leftover == {} ==> Free(PurgeExpired(s, now, env).0.disk, e.storagePath)
  {
    var s' := PurgeFrom(s, 0, now, env.leftover).0;
    PurgeFromKeeps(s, 0, now, env.leftover);
    PurgeFromItems(s, 0, now, env.leftover);
    PurgeFromEmpties(s, 0, now, env.leftover, e);
    assert s.items[..0] + Survivors(s.items[0..], now) == Survivors(s.items, now) by { assert s.items[0..] == s.items; }
    SurvivorsAre(s.items, now, e);
    assert ItemOk(s, e);
    hide Inv, PurgeFrom, Survivors;
    PersistEmptied(s', env.writable, e, env.leftover);
  }

  lemma {:induction false} PurgeFromShrinks(s: State, i: nat, now: Ticks, leftover: set<Path>)
    requires i <= |s.items|
    ensures forall q :: q in PurgeFrom(s, i, now, leftover).0.disk ==> q in s.disk
    decreases |s.items| - i
  {
    if i < |s.items| {
      if Expired(s.items[i], now) {
        PurgeFromShrinks(Forget(s, i).(disk := RemoveAll(s.disk, s.items[i].storagePath, leftover)), i, now, leftover);
      } else {
        PurgeFromShrinks(s, i + 1, now, leftover);
      }
    }
  }

  lemma {:induction false} PurgeFromEmpties(s: State, i: nat, now: Ticks, leftover: set<Path>, e: Item)
    requires i <= |s.items| && e in s.items[i..] && now >= e.expiresAt
    ensures Emptied(e, leftover, PurgeFrom(s, i, now, leftover).0.disk)
    decreases |s.items| - i
  {
    if Expired(s.items[i], now) {
      var t := Forget(s, i).(disk := RemoveAll(s.disk, s.items[i].storagePath, leftover));
      if s.items[i] == e {
        PurgeFromShrinks(t, i, now, leftover);
      } else {
        assert t.items[i..] == s.items[i + 1..] && s.items[i..] == [s.items[i]] + s.items[i + 1..];
        PurgeFromEmpties(t, i, now, leftover, e);
      }
    } else {
      assert s.items[i..] == [s.items[i]] + s.items[i + 1..];
      PurgeFromEmpties(s, i + 1, now, leftover, e);
    }
  }

  // ---------------------------------------------------------------- answers

  /** When a capture answers what; every other failure is an IoError. */
  lemma CaptureAnswers(s: State, source: Path, reason: string, correlation: string, env: CaptureEnv)
    requires source != [] && IsTicks(Expiry(s, env))
    ensures var out := Capture(s, source, reason, correlation, env).1;
      && (out == Err(NotFound) <==> source !in s.disk)
      && (out.Ok? <==> Moves(s, source, env) && env.writable)
      && (out == Err(Thrown) <==>
            && source in s.disk && env.mkdirWorks && CanCreateDirectories(s.disk, s.root + [env.id])
            && !Moves(s, source, env) && env.cleanupThrows)
  {
    hide CanRename, CreateDirectories, Rename, RemoveAll, CanCreateDirectories;
  }

  /** An id that no item has is not found, and nothing happens. */
  lemma UnknownIdIsNotFound(s: State, id: string, env: ReleaseEnv)
    requires forall e :: e in s.items ==> e.id != id
    ensures Restore(s, id, env) == (s, Err(NotFound)) && Discard(s, id, env) == (s, Err(NotFound))
  {
    assert forall i :: 0 <= i < |s.items| ==> s.items[i] in s.items;
  }

  /** A discard of an item answers ok exactly when the index is written, a restore when it moved as well. */
  lemma ReleaseAnswers(s: State, e: Item, env: ReleaseEnv)
    requires Inv(s) && e in s.items && e.originalPath != []
    ensures Discard(s, e.id, env).1 == if env.writable then Ok(()) else Err(IoError)
    ensures Restore(s, e.id, env).1 == if MovesBack(s, e, env) && env.writable then Ok(()) else Err(IoError)
    ensures !MovesBack(s, e, env) ==> Restore(s, e.id, env).0.items == s.items
  {
    FindsIt(s.items, e);
    hide Inv, CanRename, WithParent, RemoveAll, Rename;
  }

  /** A purge answers how many items it dropped, unless the index cannot be written. */
  lemma PurgeAnswers(s: State, now: Ticks, env: ReleaseEnv)
    ensures var (s', out) := PurgeExpired(s, now, env);
      && s'.items == Survivors(s.items, now)
      && out == if env.writable then Ok(|s.items| - |Survivors(s.items, now)|) else Err(IoError)
  {
    PurgeFromItems(s, 0, now, env.leftover);
    assert s.items[..0] + Survivors(s.items[0..], now) == Survivors(s.items, now) by { assert s.items[0..] == s.items; }
  }

  /** A load answers an error, and leaves an empty list, exactly when there is an index that cannot be opened. */
  lemma LoadAnswers(s: State, readable: bool)
    ensures var (s', out) := Loaded(s, readable);
      && (out == Err(IoError) <==>
            IndexPath(s.root) in s.disk && (!readable || s.disk[IndexPath(s.root)].Directory?))
      && (out.Err? ==> out == Err(IoError) && s'.items == [] && s'.storedBytes == 0)
      && s'.disk == s.disk && s'.root == s.root && (IndexPath(s.root) !in s.disk ==> s'.items == [])
  {
    hide Load;
  }

  // ---------------------------------------------------------------- capture, then restore

  lemma PersistOutside(s: State, writable: bool, from: Path, to: Path, before: Disk)
    requires MovedBelow(from, to, before, s.disk) && !(to <= IndexPath(s.root))
    ensures MovedBelow(from, to, before, Persist(s, writable).disk)
  {
  }

  lemma MovedInDisk(d: Disk, target: Path, source: Path)
    requires CanCreateDirectories(d, target)
    requires source != [] && Apart(source, target) && Apart(source, target + [Name(source)])
    ensures var stored := target + [Name(source)];
      MovedBelow(source, stored, d, Rename(CreateDirectories(d, target), source, stored))
  {
  }

  lemma CaptureShape(s: State, source: Path, reason: string, correlation: string, env: CaptureEnv, s1: State, e: Item)
    requires source != [] && IsTicks(Expiry(s, env)) && Capture(s, source, reason, correlation, env) == (s1, Ok(e))
    ensures var stored := s.root + [env.id] + [Name(source)];
      && e == NewItem(s, source, reason, correlation, env) && Apart(source, stored) && source in s.disk
      && CanCreateDirectories(s.disk, s.root + [env.id])
      && s1 == Persisted(s.(items := s.items + [e], storedBytes := Plus(s.storedBytes, e.storedSize),
                            disk := Rename(CreateDirectories(s.disk, s.root + [env.id]), source, stored)))
  {
  }

  /**
   A capture that worked moved the source's whole subtree to the place of the new item, and left every other
   file outside the store as it was.
   */
  lemma CaptureStores(s: State, source: Path, reason: string, correlation: string, env: CaptureEnv, s1: State, e: Item)
    requires MayCapture(s, source, env) && Capture(s, source, reason, correlation, env) == (s1, Ok(e))
    ensures e in s1.items && e.originalPath == source && e.id == env.id
    ensures s1.root == s.root && e.storagePath == s.root + [e.id]
    ensures StoredAt(e) == s.root + [e.id] + [source[|source| - 1]]
    ensures e.originalSize == e.storedSize == env.size && !e.compressed
    ensures e.reason == reason && e.correlation == correlation
    ensures e.capturedAt == env.now && e.expiresAt == env.later + s.retentionHours * TICKS_PER_HOUR
    ensures MovedBelow(source, StoredAt(e), s.disk, s1.disk)
    ensures forall q :: q in s.disk && !(s.root <= q) && !(source <= q) ==> q in s1.disk && s1.disk[q] == s.disk[q]
  {
    forall q | q in s.disk && !(s.root <= q) && !(source <= q) ensures q in s1.disk && s1.disk[q] == s.disk[q] {
      CaptureKeepsOutside(s, source, reason, correlation, env, q);
    }
    var target := s.root + [env.id];
    var stored := target + [Name(source)];
    CaptureShape(s, source, reason, correlation, env, s1, e);
    assert s1.items[|s.items|] == e;
    BelowRoot(s.root, env.id, source);
    SiblingsApart(s.root, env.id, INDEX_NAME);
    assert !(stored <= IndexPath(s.root)) by { assert target <= stored; }
    hide Capture, MovedBelow, Rename, CreateDirectories;
    MovedInDisk(s.disk, target, source);
    var moved := s.(items := s.items + [e], storedBytes := Plus(s.storedBytes, e.storedSize),
                    disk := Rename(CreateDirectories(s.disk, target), source, stored));
    PersistOutside(moved, true, source, stored, s.disk);
  }

  /** The rename of a restore to a free path cannot be refused. */
  lemma FreePathCanBeRestored(s: State, e: Item)
    requires ItemOk(s, e) && Free(s.disk, e.originalPath)
    requires CanCreateDirectories(s.disk, e.originalPath[..|e.originalPath| - 1])
    ensures e.originalPath != [] && CanRename(WithParent(s, e, true), StoredAt(e), e.originalPath)
  {
    StoreApartFromOriginal(s, e);
    var parent := e.originalPath[..|e.originalPath| - 1];
    var made := WithParent(s, e, true);
    assert parent in made && (parent in s.disk ==> s.disk[parent].Directory?) by {
      PrefixesArePrefixes(parent, parent);
    }
    assert !(e.originalPath <= parent);
  }

  lemma ParentKeepsStore(s: State, e: Item, mkdirWorks: bool)
    requires e.originalPath != [] && Apart(s.root, e.originalPath)
    ensures SameBelow(s.root, s.disk, WithParent(s, e, mkdirWorks))
  {
  }

  lemma MovedBackDisk(s: State, e: Item, leftover: set<Path>)
    requires ItemOk(s, e)
    ensures e.originalPath != [] && Apart(StoredAt(e), e.originalPath)
    ensures var after := MovedBack(WithParent(s, e, true), e, leftover);
      MovedBelow(StoredAt(e), e.originalPath, s.disk, after)
  {
    StoreApartFromOriginal(s, e);
    ParentKeepsStore(s, e, true);
    var made := WithParent(s, e, true);
    var after := MovedBack(made, e, leftover);
    assert s.root <= e.storagePath && s.root <= StoredAt(e);
    assert forall q :: q in s.disk ==> q in made && made[q] == s.disk[q];
    hide WithParent;
    forall q | e.originalPath <= q
      ensures var from := Moved(StoredAt(e), e.originalPath, q);
        (q in after <==> from in s.disk) && (q in after ==> after[q] == s.disk[from])
    {
      ApartBelow(e.originalPath, e.storagePath, q);
      assert s.root <= Moved(StoredAt(e), e.originalPath, q);
    }
  }

  lemma RestoreShape(s: State, e: Item, env: ReleaseEnv)
    requires DistinctIds(s.items) && e in s.items && e.originalPath != [] && env.mkdirWorks && env.renameWorks
    requires CanRename(WithParent(s, e, true), StoredAt(e), e.originalPath)
    ensures var i := Find(s.items, e.id);
      && i < |s.items| && s.items[i] == e && Apart(StoredAt(e), e.originalPath)
      && Restore(s, e.id, env) ==
          (Persist(Forget(s, i).(disk := MovedBack(WithParent(s, e, true), e, env.leftover)), env.writable),
           if env.writable then Ok(()) else Err(IoError))
  {
  }

  /** A restore that worked moved the item's subtree back and left every file outside the store alone. */
  lemma RestorePutsBack(s: State, e: Item, env: ReleaseEnv)
    requires e in s.items && ItemOk(s, e) && DistinctIds(s.items) && Free(s.disk, e.originalPath)
    requires forall o :: o in s.items ==> s.root <= o.storagePath
    requires env.mkdirWorks && env.renameWorks && CanCreateDirectories(s.disk, e.originalPath[..|e.originalPath| - 1])
    ensures e.originalPath != []
    ensures var (s', out) := Restore(s, e.id, env);
      && out.Ok? == env.writable && e !in s'.items
      && MovedBelow(StoredAt(e), e.originalPath, s.disk, s'.disk)
      && (forall q :: q in s.disk && !(s.root <= q) ==> q in s'.disk && s'.disk[q] == s.disk[q])
  {
    FreePathCanBeRestored(s, e);
    MovedBackDisk(s, e, env.leftover);
    RestoreShape(s, e, env);
    var i := Find(s.items, e.id);
    WithoutKeeps(s.items, i, e);
    BelowRoot(s.root, INDEX_NAME, e.originalPath);
    SameIdSameItem(s.items);
    forall q | q in s.disk && !(s.root <= q) ensures KeptAt(q, s.disk, Restore(s, e.id, env).0.disk) {
      RestoreKeepsOutside(s, e.id, env, q);
    }
    hide MovedBack, WithParent, CanRename, StoredAt, Restore, MovedBelow;
    var moved := Forget(s, i).(disk := MovedBack(WithParent(s, e, true), e, env.leftover));
    PersistOutside(moved, env.writable, StoredAt(e), e.originalPath, s.disk);
  }

  /** What stands at `q` is what the restore of the item would put there. */
  predicate SameInStore(s: State, e: Item, q: Path)
    requires e.originalPath != [] && e.originalPath <= q && q in s.disk
  {
    var from := Moved(StoredAt(e), e.originalPath, q);
    from in s.disk && s.disk[from] == s.disk[q]
  }

  /**
   A restore loses no file outside the store exactly when nothing stands at the original path, or only what
   the restore puts there anyway: as the source's rename does, it replaces a file without asking.
   */
  lemma RestoreLosesNothingExactly(s: State, e: Item, env: ReleaseEnv)
    requires Inv(s) && e in s.items && e.originalPath != [] && MovesBack(s, e, env)
    ensures (forall q :: q in s.disk && !(s.root <= q) ==> KeptAt(q, s.disk, Restore(s, e.id, env).0.disk))
            <==> forall q :: q in s.disk && e.originalPath <= q ==> SameInStore(s, e, q)
  {
    FindsIt(s.items, e);
    forall q | q in s.disk && !(s.root <= q)
      ensures KeptAt(q, s.disk, Restore(s, e.id, env).0.disk) <==> (e.originalPath <= q ==> SameInStore(s, e, q))
    {
      RestoredAt(s, e, env, q);
    }
    forall q | q in s.disk && e.originalPath <= q ensures !(s.root <= q) {
      ApartBelow(e.originalPath, s.root, q);
    }
    hide Inv, Restore, MovesBack, SameInStore, KeptAt;
  }

  /** A folder at the original path is never replaced, nor a file by a folder: the restore is refused. */
  lemma FoldersAreNotReplaced(s: State, e: Item, env: ReleaseEnv)
    requires Inv(s) && e in s.items && e.originalPath != [] && e.originalPath in s.disk
    requires s.disk[e.originalPath].Directory? || s.disk[StoredAt(e)].Directory?
    ensures !MovesBack(s, e, env) && Restore(s, e.id, env).1.Err? && Restore(s, e.id, env).0.items == s.items
  {
    ReleaseAnswers(s, e, env);
    WithParentKeeps(s, e, env.mkdirWorks);
    assert s.root <= StoredAt(e);
    hide Restore, Inv;
  }

  const HELD: Item := Item("i", ["b"], ["q", "i"], 1, 1, 0, 0, false, "", "")
  const REPLACED: State := State(
    ["q"], 1, [HELD], 1,
    map[[] := Directory, ["q"] := Directory, ["q", "i"] := Directory,
        ["q", "i", "b"] := File("held"), ["b"] := File("new")])
  const RELEASE: ReleaseEnv := ReleaseEnv(true, true, {}, true)

  lemma HeldCanMoveBack()
    ensures Inv(REPLACED) && MovesBack(REPLACED, HELD, RELEASE)
  {
    assert "b"[0] == 'b' && "q"[0] == 'q';
    FirstNamesDiffer(["q"], ["b"]);
    FirstNamesDiffer(["q", "i", "b"], ["b"]);
    assert StoredAt(HELD) == ["q", "i", "b"] && Sum([HELD]) == 1;
    assert CanCreateDirectories(REPLACED.disk, []) by {
      forall q ensures q in Prefixes([]) <==> q == [] { PrefixesArePrefixes([], q); }
    }
  }

  /** Such a loss: a restore answers ok, and the new file at the original path is replaced. */
  lemma RestoreReplacesAFile()
    ensures Inv(REPLACED) && REPLACED.disk[["b"]] == File("new")
    ensures var (t, out) := Restore(REPLACED, "i", RELEASE);
      out == Ok(()) && ["b"] in t.disk && t.disk[["b"]] == File("held")
  {
    hide Inv, Restore, MovedBack, CanRename, RemoveAll, Rename, CreateDirectories;
    HeldCanMoveBack();
    RestoreShape(REPLACED, HELD, RELEASE);
    MovedBackDisk(REPLACED, HELD, RELEASE.leftover);
    assert Moved(StoredAt(HELD), ["b"], ["b"]) == StoredAt(HELD) == ["q", "i", "b"];
    assert ["b"] != IndexPath(["q"]);
  }

  lemma RestoredAt(s: State, e: Item, env: ReleaseEnv, q: Path)
    requires Inv(s) && e in s.items && e.originalPath != [] && MovesBack(s, e, env) && q in s.disk && !(s.root <= q)
    ensures KeptAt(q, s.disk, Restore(s, e.id, env).0.disk) <==> (e.originalPath <= q ==> SameInStore(s, e, q))
  {
    FindsIt(s.items, e);
    if e.originalPath <= q {
      var made := WithParent(s, e, env.mkdirWorks);
      WithParentKeeps(s, e, env.mkdirWorks);
      StoreApartFromOriginal(s, e);
      var from := Moved(StoredAt(e), e.originalPath, q);
      assert s.root <= StoredAt(e) <= from;
      assert from in made <==> from in s.disk;
      assert !(e.storagePath <= q) && !(IndexPath(s.root) <= q);
    } else {
      SameIdSameItem(s.items);
      RestoreKeepsOutside(s, e.id, env, q);
    }
  }

  lemma InvForRestore(t: State, e: Item)
    requires Inv(t) && e in t.items
    ensures ItemOk(t, e) && DistinctIds(t.items) && forall o :: o in t.items ==> t.root <= o.storagePath
  {
  }

  /**
   A capture, any run that does not release the item, and a restore while the original path is free: the
   source is back as it was; every other file that stood outside the store before the capture, and that the
   run between did not touch, is as it was; and the restore itself changes no file outside the store.
   */
  lemma CaptureThenRestore(s: State, source: Path, reason: string, correlation: string, env: CaptureEnv,
                           s1: State, e: Item, actions: seq<Action>, t: State, release: ReleaseEnv)
    requires Inv(s) && MayCapture(s, source, env) && Capture(s, source, reason, correlation, env) == (s1, Ok(e))
    requires Leads(s1, actions, t) && forall a :: a in actions ==> !Releases(a, e)
    requires Free(t.disk, source) && CanCreateDirectories(t.disk, source[..|source| - 1])
    requires release.mkdirWorks && release.renameWorks
    ensures var (t', out) := Restore(t, e.id, release);
      && out.Ok? == release.writable
      && SameBelow(source, s.disk, t'.disk)
      && (forall q :: q in s.disk && !(s.root <= q) && !(source <= q) && Undisturbed(s1, actions, q) ==>
            q in t'.disk && t'.disk[q] == s.disk[q])
      && (forall q :: q in t.disk && !(t.root <= q) ==> q in t'.disk && t'.disk[q] == t.disk[q])
  {
    hide Inv, Capture, Restore, MovedBelow, Free, Leads, Releases, MayCapture;
    HeldSinceCapture(s, source, reason, correlation, env, s1, e, actions, t);
    InvForRestore(t, e);
    RestorePutsBack(t, e, release);
    hide SameBelow, StoredAt;
    ThereAndBack(source, StoredAt(e), s.disk, s1.disk, t.disk, Restore(t, e.id, release).0.disk);
    forall q | q in s.disk && !(s.root <= q) && !(source <= q) && Undisturbed(s1, actions, q)
      ensures q in t.disk && t.disk[q] == s.disk[q]
    {
      OutsideSinceCapture(s, source, reason, correlation, env, s1, e, actions, t, q);
    }
    hide Undisturbed;
  }

  lemma OutsideSinceCapture(s: State, source: Path, reason: string, correlation: string, env: CaptureEnv,
                            s1: State, e: Item, actions: seq<Action>, t: State, q: Path)
    requires Inv(s) && MayCapture(s, source, env) && Capture(s, source, reason, correlation, env) == (s1, Ok(e))
    requires Leads(s1, actions, t) && Undisturbed(s1, actions, q)
    requires q in s.disk && !(s.root <= q) && !(source <= q)
    ensures q in t.disk && t.disk[q] == s.disk[q]
  {
    CaptureStores(s, source, reason, correlation, env, s1, e);
    CaptureKeeps(s, source, reason, correlation, env);
    hide Inv, Capture, MovedBelow, Leads, Undisturbed, MayCapture;
    RunKeepsOutside(s1, actions, t, q);
  }

  lemma HeldSinceCapture(s: State, source: Path, reason: string, correlation: string, env: CaptureEnv,
                         s1: State, e: Item, actions: seq<Action>, t: State)
    requires Inv(s) && MayCapture(s, source, env) && Capture(s, source, reason, correlation, env) == (s1, Ok(e))
    requires Leads(s1, actions, t) && forall a :: a in actions ==> !Releases(a, e)
    ensures Inv(t) && e in t.items && e.originalPath == source && source != [] && t.root == s.root
    ensures MovedBelow(source, StoredAt(e), s.disk, s1.disk) && SameBelow(StoredAt(e), s1.disk, t.disk)
  {
    CaptureStores(s, source, reason, correlation, env, s1, e);
    CaptureKeeps(s, source, reason, correlation, env);
    hide Inv, Capture, MovedBelow, Leads, Releases;
    RetainedUntilReleased(s1, actions, t, e);
    assert e.storagePath <= StoredAt(e);
  }

  // ---------------------------------------------------------------- what ok means for the disk

  predicate AnswersOk(s: State, a: Action)
    requires Defined(s, a)
  {
    match a
    case DoCapture(source, reason, correlation, env) => Capture(s, source, reason, correlation, env).1.Ok?
    case DoRestore(id, env) => Restore(s, id, env).1.Ok?
    case DoDiscard(id, env) => Discard(s, id, env).1.Ok?
    case DoPurge(now, env) => PurgeExpired(s, now, env).1.Ok?
    case Restart => true
    case External(_) => false
  }

  /** After an operation that answers ok, a restart from disk gives the same items and the same total. */
  lemma OkSurvivesRestart(s: State, a: Action)
    requires Inv(s) && Admissible(s, a)
    requires AnswersOk(s, a)
    requires forall e :: e in After(s, a).items ==> ItemRoundTrips(e)
    ensures Synced(After(s, a)) && Loaded(After(s, a), true) == (After(s, a), Ok(()))
  {
    StepKeeps(s, a);
    OkIsSynced(s, a);
    RestartExactly(After(s, a));
  }

  /** An operation that answers ok leaves an index file with the items in memory. */
  lemma OkIsSynced(s: State, a: Action)
    requires Inv(s) && Admissible(s, a)
    requires AnswersOk(s, a)
    ensures Synced(After(s, a))
    ensures s.root + ["index.json"] in After(s, a).disk
    ensures After(s, a).disk[s.root + ["index.json"]] == File(Print(Records(After(s, a).items)))
  {
    hide After, AnswersOk, Admissible, Inv;
    OkSyncs(s, a);
    RootStays(s, a);
  }

  lemma OkSyncs(s: State, a: Action)
    requires Inv(s) && Admissible(s, a)
    requires AnswersOk(s, a)
    ensures Synced(After(s, a))
  {
    if a.Restart? { RestartExactly(s); }
  }
}
