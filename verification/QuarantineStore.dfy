/**
 The `Quarantine` object: its methods update `items` and `storedBytes` in place, and each is proved to
 do exactly what module Quarantine's functions say. `disk` is the file system they act on.
 */
module QuarantineStore {
  import opened Wrappers
  import opened FileSystem
  import opened IndexCodec
  import opened Integers
  import opened Quarantine
  import IndexFile

  lemma NoItems()
    ensures Items([]) == [] && SumU64([]) == 0
  {
  }

  lemma OneMoreItem(records: seq<Record>, i: nat)
    requires i < |records|
    ensures var before, item := Items(records[..i]), FromRecord(records[i]);
      && Items(records[..i + 1]) == before + [item]
      && SumU64(before + [item]) == Plus(SumU64(before), item.storedSize)
  {
  }

  lemma PurgeStep(s: State, i: nat, now: Ticks, leftover: set<Path>)
    requires i < |s.items|
    ensures PurgeFrom(s, i, now, leftover) ==
      if Expired(s.items[i], now) then
        var t := Forget(s, i).(disk := RemoveAll(s.disk, s.items[i].storagePath, leftover));
        var (s', n) := PurgeFrom(t, i, now, leftover);
        (s', n + 1)
      else PurgeFrom(s, i + 1, now, leftover)
  {
  }

  class Store {
    var root: Path
    var retentionHours: nat
    var storedBytes: U64
    var items: seq<Item>
    var disk: Disk

    ghost function Snapshot(): State
      reads this
    {
      State(root, retentionHours, items, storedBytes, disk)
    }

    constructor (disk: Disk)
      ensures items == [] && storedBytes == 0 && this.disk == disk && retentionHours == 720
    {
      root, retentionHours, storedBytes, items := [], 24 * 30, 0, [];
      this.disk := disk;
    }

    /** `initialize`: the store's directory is made, and what the disk holds is loaded. */
    method Initialize(storageRoot: Path, hours: nat, mkdirWorks: bool, readable: bool) returns (out: Result<(), Error>)
      modifies this
      ensures root == storageRoot && retentionHours == hours
      ensures var made := mkdirWorks && CanCreateDirectories(old(disk), storageRoot);
        if made then
          var disk' := CreateDirectories(old(disk), storageRoot);
          (Snapshot(), out) == Loaded(State(storageRoot, hours, old(items), old(storedBytes), disk'), readable)
        else
          out == Err(IoError) && items == old(items) && storedBytes == old(storedBytes) && disk == old(disk)
    {
      root := storageRoot;
      retentionHours := hours;
      if !mkdirWorks || !CanCreateDirectories(disk, root) { return Err(IoError); }
      disk := CreateDirectories(disk, root);
      out := LoadIndex(readable);
    }

    /** `loadIndex`. */
    method LoadIndex(readable: bool) returns (out: Result<(), Error>)
      modifies this`items, this`storedBytes
      ensures (Snapshot(), out) == Loaded(old(Snapshot()), readable)
    {
      items := [];
      storedBytes := 0;
      var index := IndexPath(root);
      hide Load, FromRecord, Items, SumU64, Plus;
      NoItems();
      if index !in disk { return Ok(()); }
      if !readable || !disk[index].File? { return Err(IoError); }
      var records := IndexFile.LoadIndex(disk[index].content);
      assert records[..0] == [];
      for i := 0 to |records|
        invariant items == Items(records[..i]) && storedBytes == SumU64(items)
      {
        var item := FromRecord(records[i]);
        OneMoreItem(records, i);
        storedBytes := Plus(storedBytes, item.storedSize);
        items := items + [item];
      }
      assert records[..|records|] == records;
      out := Ok(());
    }

    /** `persistIndex`. */
    method PersistIndex(writable: bool) returns (out: Result<(), Error>)
      modifies this`disk
      ensures Snapshot() == Persist(old(Snapshot()), writable)
      ensures out == if writable then Ok(()) else Err(IoError)
    {
      if !writable { return Err(IoError); }
      var text := IndexFile.PersistIndex(Records(items));
      disk := disk[IndexPath(root) := File(text)];
      out := Ok(());
    }

    /** The search by id that `restore` and `discard` start with. */
    method FindItem(id: string) returns (i: nat)
      ensures i == Find(items, id)
    {
      i := 0;
      while i < |items| && items[i].id != id
        invariant i <= |items|
        invariant Find(items, id) == i + Find(items[i..], id)
      {
        assert items[i..][1..] == items[i + 1..];
        i := i + 1;
      }
    }

    method CaptureItem(source: Path, reason: string, correlation: string, env: CaptureEnv)
      returns (out: Result<Item, Error>)
      requires source != [] && IsTicks(Expiry(Snapshot(), env))
      modifies this
      ensures (Snapshot(), out) == Capture(old(Snapshot()), source, reason, correlation, env)
    {
      hide Rename, CreateDirectories, RemoveAll, CanCreateDirectories, Persist, Plus, IsTicks, PathText, Records;
      if source !in disk { return Err(NotFound); }
      var target := root + [env.id];
      if !env.mkdirWorks || !CanCreateDirectories(disk, target) { return Err(IoError); }
      disk := CreateDirectories(disk, target);
      var stored := target + [Name(source)];
      if !env.renameWorks || !CanRename(disk, source, stored) {
        disk := RemoveAll(disk, target, env.leftover);
        return Err(if env.cleanupThrows then Thrown else IoError);
      }
      disk := Rename(disk, source, stored);
      var item := Item(env.id, source, target, env.size, env.size, env.now,
                       env.later + retentionHours * TICKS_PER_HOUR, false, reason, correlation);
      var persisted := Append(item, env.writable);
      out := if persisted.Ok? then Ok(item) else Err(IoError);
    }

    method Append(item: Item, writable: bool) returns (persisted: Result<(), Error>)
      modifies this`items, this`storedBytes, this`disk
      ensures var more := old(Snapshot()).(items := old(items) + [item],
                                           storedBytes := Plus(old(storedBytes), item.storedSize));
        Snapshot() == Persist(more, writable)
      ensures persisted == if writable then Ok(()) else Err(IoError)
    {
      items := items + [item];
      storedBytes := Plus(storedBytes, item.storedSize);
      persisted := PersistIndex(writable);
    }

    method RestoreItem(id: string, env: ReleaseEnv) returns (out: Result<(), Error>)
      modifies this
      ensures (Snapshot(), out) == Restore(old(Snapshot()), id, env)
    {
      var i := FindItem(id);
      if i == |items| { return Err(NotFound); }
      var e := items[i];
      if e.originalPath == [] { return Err(IoError); }
      var parent := e.originalPath[..|e.originalPath| - 1];
      if env.mkdirWorks && CanCreateDirectories(disk, parent) { disk := CreateDirectories(disk, parent); }
      if !env.renameWorks || !CanRename(disk, StoredAt(e), e.originalPath) { return Err(IoError); }
      disk := Rename(disk, StoredAt(e), e.originalPath);
      disk := RemoveAll(disk, e.storagePath, env.leftover);
      storedBytes := Minus(storedBytes, e.storedSize);
      items := Without(items, i);
      out := PersistIndex(env.writable);
    }

    method DiscardItem(id: string, env: ReleaseEnv) returns (out: Result<(), Error>)
      modifies this
      ensures (Snapshot(), out) == Discard(old(Snapshot()), id, env)
    {
      var i := FindItem(id);
      if i == |items| { return Err(NotFound); }
      disk := RemoveAll(disk, items[i].storagePath, env.leftover);
      storedBytes := Minus(storedBytes, items[i].storedSize);
      items := Without(items, i);
      out := PersistIndex(env.writable);
    }

    /** One expired item of the purge. */
    method DropItem(i: nat, leftover: set<Path>)
      requires i < |items|
      modifies this`items, this`storedBytes, this`disk
      ensures Snapshot() ==
        Forget(old(Snapshot()), i).(disk := RemoveAll(old(disk), old(items)[i].storagePath, leftover))
      ensures |items| == |old(items)| - 1
    {
      disk := RemoveAll(disk, items[i].storagePath, leftover);
      storedBytes := Minus(storedBytes, items[i].storedSize);
      items := Without(items, i);
    }

    /** The loop of `purgeExpired`. */
    method PurgeLoop(now: Ticks, leftover: set<Path>) returns (removed: nat)
      modifies this`items, this`storedBytes, this`disk
      ensures (Snapshot(), removed) == PurgeFrom(old(Snapshot()), 0, now, leftover)
    {
      hide RemoveAll, Forget;
      removed := 0;
      var i := 0;
      while i < |items|
        invariant i <= |items|
        invariant PurgeFrom(old(Snapshot()), 0, now, leftover) ==
          (PurgeFrom(Snapshot(), i, now, leftover).0, PurgeFrom(Snapshot(), i, now, leftover).1 + removed)
        decreases |items| - i
      {
        PurgeStep(Snapshot(), i, now, leftover);
        hide PurgeFrom;
        if Expired(items[i], now) {
          DropItem(i, leftover);
          removed := removed + 1;
        } else {
          i := i + 1;
        }
      }
    }

    method Purge(now: Ticks, env: ReleaseEnv) returns (out: Result<nat, Error>)
      modifies this
      ensures (Snapshot(), out) == PurgeExpired(old(Snapshot()), now, env)
      ensures items == Survivors(old(items), now)
      ensures out.Ok? ==> out.value == |old(items)| - |items|
    {
      ghost var before := Snapshot();
      var removed := PurgeLoop(now, env.leftover);
      PurgeFromItems(before, 0, now, env.leftover);
      assert before.items[0..] == before.items;
      assert before.items[..0] + Survivors(before.items, now) == Survivors(before.items, now);
      var persisted := PersistIndex(env.writable);
      out := if persisted.Ok? then Ok(removed) else Err(IoError);
    }
  }
}
