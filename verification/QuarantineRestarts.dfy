/**
 Runs of the quarantine in which a restart may come at any time, also when the index on disk is behind.
 The list last written to the index is carried along; it alone decides what a restart brings back.
 */
module QuarantineRestarts {
  import opened FileSystem
  import opened IndexCodec
  import opened Integers
  import opened Quarantine
  import opened Wrappers

  // ---------------------------------------------------------------- the invariant

  /** What holds of the items in memory and of those last written alike, whatever is on disk. */
  ghost predicate ListOk(root: Path, items: seq<Item>) {
    && (forall e :: e in items ==>
          && e.storagePath == root + [e.id] && e.id != INDEX_NAME
          && e.originalPath != [] && Apart(root, e.originalPath))
    && DistinctIds(items)
    && Sum(items) < TWO_TO_THE_64
  }

  /** The index on disk is the text of `last`; before the first write there is none. */
  ghost predicate Recorded(s: State, last: seq<Item>) {
    if IndexPath(s.root) in s.disk then s.disk[IndexPath(s.root)] == File(IndexText(last)) else last == []
  }

  ghost predicate SameNames(a: seq<Item>, b: seq<Item>) {
    forall x, y :: x in a && y in b && x.id == y.id ==> x == y
  }

  ghost predicate MemoryOk(s: State) {
    ListOk(s.root, s.items) && s.storedBytes == Sum(s.items)
  }

  ghost predicate Good(s: State, last: seq<Item>) {
    && MemoryOk(s) && ListOk(s.root, last) && SameNames(s.items, last) && Recorded(s, last)
  }

  // ---------------------------------------------------------------- steps

  /** The premises of a step: ids never used again, and a restart that finds only items that round trip. */
  ghost predicate Allowed(s: State, last: seq<Item>, a: Action) {
    match a
    case DoCapture(source, _, _, env) => MayCapture(s, source, env) && forall e :: e in last ==> e.id != env.id
    case Restart => forall e :: e in last ==> ItemRoundTrips(e)
    case External(disk) => SameBelow(s.root, s.disk, disk)
    case _ => true
  }

  /** Whether the operation writes the index. */
  predicate Writes(s: State, a: Action)
    requires Defined(s, a)
  {
    match a
    case DoCapture(source, _, _, env) => Moves(s, source, env) && env.writable
    case DoRestore(id, env) =>
      var i := Find(s.items, id);
      i < |s.items| && s.items[i].originalPath != [] && MovesBack(s, s.items[i], env) && env.writable
    case DoDiscard(id, env) => Find(s.items, id) < |s.items| && env.writable
    case DoPurge(_, env) => env.writable
    case _ => false
  }

  function LastAfter(s: State, last: seq<Item>, a: Action): seq<Item>
    requires Defined(s, a)
  {
    if Writes(s, a) then After(s, a).items else last
  }

  /** What a restart brings back of a recorded list, whether or not its items round trip. */
  lemma RestartBringsBack(s: State, last: seq<Item>)
    requires Recorded(s, last)
    ensures Reload(s).items == Items(Kept(Records(last)))
  {
    if IndexPath(s.root) in s.disk {
      ReloadExactly(Records(last));
    } else {
      assert Records(last) == [];
    }
    hide Load, Print;
  }

  /** When all of them round trip, an item survives a restart if and only if it was in the list last written. */
  lemma SurvivesRestartExactly(s: State, last: seq<Item>)
    requires Good(s, last) && forall x :: x in last ==> ItemRoundTrips(x)
    ensures Reload(s).items == last && Reload(s).storedBytes == Sum(last)
  {
    hide Load, Print, Kept, ItemRoundTrips, Recorded, Items, Records, SameNames, DistinctIds;
    RestartBringsBack(s, last);
    RoundTripsLoad(last);
    assert Sum(last) % TWO_TO_THE_64 == Sum(last);
  }

  lemma RoundTripsLoad(items: seq<Item>)
    requires forall x :: x in items ==> ItemRoundTrips(x)
    ensures Items(Kept(Records(items))) == items
  {
    ReloadedItemsExactly(items);
    ReloadExactly(Records(items));
    hide Load, Print, Kept, ItemRoundTrips;
  }

  // ---------------------------------------------------------------- places in the store

  /** Nothing at or below this place of the store has changed. */
  ghost predicate PlaceKept(s: State, t: State, k: string) {
    SameBelow(s.root + [k], s.disk, t.disk)
  }

  lemma PlacesApart(root: Path, k: string, other: string)
    requires k != other
    ensures Apart(root + [k], root + [other])
    ensures forall name: string :: Apart(root + [k], root + [other] + [name])
  {
    SiblingsApart(root, k, other);
    forall name: string ensures Apart(root + [k], root + [other] + [name]) {
      assert (root + [other] + [name])[|root|] == other && (root + [k])[|root|] == k;
    }
  }

  lemma PersistKeepsPlace(s: State, writable: bool, k: string)
    requires k != INDEX_NAME || !writable
    ensures PlaceKept(s, Persist(s, writable), k)
  {
    if writable { PlacesApart(s.root, k, INDEX_NAME); }
  }

  lemma CaptureKeepsPlace(s: State, a: Action, k: string)
    requires a.DoCapture? && MayCapture(s, a.source, a.capture) && a.capture.id != k
    requires k != INDEX_NAME || !Writes(s, a)
    ensures PlaceKept(s, After(s, a), k)
  {
    var target, place, source := s.root + [a.capture.id], s.root + [k], a.source;
    var stored := target + [Name(source)];
    PlacesApart(s.root, k, a.capture.id);
    BelowRoot(s.root, k, source);
    if source in s.disk && a.capture.mkdirWorks && CanCreateDirectories(s.disk, target) {
      var made := CreateDirectories(s.disk, target);
      CreateKeeps(s.disk, target, place);
      if Moves(s, source, a.capture) {
        var moved := After(s, a).(disk := Rename(made, source, stored));
        RenameKeeps(made, source, stored, place);
        PersistKeepsPlace(moved, a.capture.writable, k);
        assert After(s, a).disk == Persist(moved, a.capture.writable).disk;
        hide Capture, Rename, CreateDirectories, Persist, SameBelow, CanRename, Moves, Writes;
        SameBelowAgain(place, s.disk, made, moved.disk);
        SameBelowAgain(place, s.disk, moved.disk, After(s, a).disk);
      } else {
        RemoveKeeps(made, target, a.capture.leftover, place);
        SameBelowAgain(place, s.disk, made, RemoveAll(made, target, a.capture.leftover));
        hide Rename, CreateDirectories, RemoveAll, SameBelow;
      }
    }
  }

  lemma MovedBackKeepsPlace(s: State, e: Item, made: Disk, leftover: set<Path>, k: string)
    requires e.storagePath == s.root + [e.id] && e.originalPath != [] && Apart(s.root, e.originalPath) && e.id != k
    requires Apart(StoredAt(e), e.originalPath)
    ensures SameBelow(s.root + [k], made, MovedBack(made, e, leftover))
  {
    var place, renamed := s.root + [k], Rename(made, StoredAt(e), e.originalPath);
    PlacesApart(s.root, k, e.id);
    BelowRoot(s.root, k, e.originalPath);
    RenameKeeps(made, StoredAt(e), e.originalPath, place);
    RemoveKeeps(renamed, e.storagePath, leftover, place);
    SameBelowAgain(place, made, renamed, MovedBack(made, e, leftover));
  }

  lemma WithParentKeepsPlace(s: State, e: Item, mkdirWorks: bool, k: string)
    requires e.originalPath != [] && Apart(s.root, e.originalPath)
    ensures SameBelow(s.root + [k], s.disk, WithParent(s, e, mkdirWorks))
  {
    var place, parent := s.root + [k], e.originalPath[..|e.originalPath| - 1];
    assert !(place <= parent) by {
      assert e.originalPath == parent + [Name(e.originalPath)];
      assert s.root <= place;
    }
    if CanCreateDirectories(s.disk, parent) { CreateKeeps(s.disk, parent, place); }
  }

  lemma RestoreKeepsPlace(s: State, a: Action, k: string)
    requires a.DoRestore? && ListOk(s.root, s.items) && a.id != k
    requires k != INDEX_NAME || !Writes(s, a)
    ensures PlaceKept(s, After(s, a), k)
  {
    hide WithParent, Rename, RemoveAll, SameBelow, CanRename, MovedBack, StoredAt;
    var place, i := s.root + [k], Find(s.items, a.id);
    if i < |s.items| {
      var e := s.items[i];
      assert e in s.items;
      var made := WithParent(s, e, a.release.mkdirWorks);
      WithParentKeepsPlace(s, e, a.release.mkdirWorks, k);
      if MovesBack(s, e, a.release) {
        StoredApart(s.root, e);
        MovedBackKeepsPlace(s, e, made, a.release.leftover, k);
        var moved := Forget(s, i).(disk := MovedBack(made, e, a.release.leftover));
        PersistKeepsPlace(moved, a.release.writable, k);
        SameBelowAgain(place, s.disk, made, moved.disk);
        SameBelowAgain(place, s.disk, moved.disk, Persist(moved, a.release.writable).disk);
      }
    } else {
      assert PlaceKept(s, s, k) by { SameAsItself(place, s.disk); }
    }
  }

  lemma StoredApart(root: Path, e: Item)
    requires e.storagePath == root + [e.id] && e.originalPath != [] && Apart(root, e.originalPath)
    ensures Apart(StoredAt(e), e.originalPath)
  {
    assert root <= StoredAt(e);
  }

  lemma SameAsItself(p: Path, d: Disk)
    ensures SameBelow(p, d, d)
  {
  }

  lemma DiscardKeepsPlace(s: State, a: Action, k: string)
    requires a.DoDiscard? && ListOk(s.root, s.items) && a.id != k
    requires k != INDEX_NAME || !Writes(s, a)
    ensures PlaceKept(s, After(s, a), k)
  {
    var i := Find(s.items, a.id);
    if i < |s.items| {
      var e, place := s.items[i], s.root + [k];
      assert e in s.items;
      PlacesApart(s.root, k, e.id);
      RemoveKeeps(s.disk, e.storagePath, a.release.leftover, place);
      var removed := Forget(s, i).(disk := RemoveAll(s.disk, e.storagePath, a.release.leftover));
      PersistKeepsPlace(removed, a.release.writable, k);
      hide RemoveAll, SameBelow, Persist, ListOk;
      SameBelowAgain(place, s.disk, removed.disk, After(s, a).disk);
    }
  }

  lemma {:induction false} PurgeFromKeepsPlace(s: State, i: nat, now: Ticks, leftover: set<Path>, k: string)
    requires ListOk(s.root, s.items) && i <= |s.items| && forall e :: e in s.items && Expired(e, now) ==> e.id != k
    ensures PlaceKept(s, PurgeFrom(s, i, now, leftover).0, k)
    decreases |s.items| - i
  {
    if i < |s.items| {
      var e := s.items[i];
      if Expired(e, now) {
        var t := Forget(s, i).(disk := RemoveAll(s.disk, e.storagePath, leftover));
        assert e in s.items;
        PlacesApart(s.root, k, e.id);
        RemoveKeeps(s.disk, e.storagePath, leftover, s.root + [k]);
        WithoutIsOk(s.root, s.items, i);
        hide ListOk;
        PurgeFromKeepsPlace(t, i, now, leftover, k);
        SameBelowAgain(s.root + [k], s.disk, t.disk, PurgeFrom(t, i, now, leftover).0.disk);
      } else {
        PurgeFromKeepsPlace(s, i + 1, now, leftover, k);
      }
    }
  }

  /** Fewer items: layout, ids and the sum stay in order. */
  lemma WithoutIsOk(root: Path, items: seq<Item>, i: nat)
    requires ListOk(root, items) && i < |items|
    ensures ListOk(root, Without(items, i)) && forall e :: e in Without(items, i) <==> e in items && e.id != items[i].id
  {
    SumWithout(items, i);
    forall e ensures e in Without(items, i) <==> e in items && e.id != items[i].id {
      WithoutKeeps(items, i, e);
    }
  }

  /** The step does nothing to the item with this id: it does not capture, restore, discard or purge it. */
  ghost predicate LeavesAlone(s: State, a: Action, k: string) {
    match a
    case DoCapture(_, _, _, env) => env.id != k
    case DoRestore(id, _) => id != k
    case DoDiscard(id, _) => id != k
    case DoPurge(now, _) => forall e :: e in s.items && Expired(e, now) ==> e.id != k
    case _ => true
  }

  lemma StepKeepsPlace(s: State, last: seq<Item>, a: Action, k: string)
    requires Good(s, last) && Allowed(s, last, a) && LeavesAlone(s, a, k)
    requires k != INDEX_NAME || !Writes(s, a)
    ensures PlaceKept(s, After(s, a), k)
  {
    match a
    case DoCapture(_, _, _, _) => CaptureKeepsPlace(s, a, k);
    case DoRestore(_, _) => RestoreKeepsPlace(s, a, k);
    case DoDiscard(_, _) => DiscardKeepsPlace(s, a, k);
    case DoPurge(now, env) =>
      var purged := PurgeFrom(s, 0, now, env.leftover).0;
      PurgeFromKeepsPlace(s, 0, now, env.leftover, k);
      PurgeFromRoot(s, 0, now, env.leftover);
      PersistKeepsPlace(purged, env.writable, k);
      hide PurgeFrom, SameBelow, Persist;
      SameBelowAgain(s.root + [k], s.disk, purged.disk, After(s, a).disk);
    case Restart =>
    case External(disk) => assert s.root <= s.root + [k];
  }

  lemma {:induction false} PurgeFromRoot(s: State, i: nat, now: Ticks, leftover: set<Path>)
    requires i <= |s.items|
    ensures PurgeFrom(s, i, now, leftover).0.root == s.root
    decreases |s.items| - i
  {
    if i < |s.items| {
      if Expired(s.items[i], now) {
        PurgeFromRoot(Forget(s, i).(disk := RemoveAll(s.disk, s.items[i].storagePath, leftover)), i, now, leftover);
      } else {
        PurgeFromRoot(s, i + 1, now, leftover);
      }
    }
  }

  // ---------------------------------------------------------------- every step keeps the invariant

  lemma SameMemory(s: State, t: State)
    requires MemoryOk(s) && t.root == s.root && t.items == s.items && t.storedBytes == s.storedBytes
    ensures MemoryOk(t)
  {
  }

  lemma SumOfOneMore(items: seq<Item>, e: Item)
    ensures Sum(items + [e]) == Sum(items) + e.storedSize
  {
    assert (items + [e])[..|items|] == items;
  }

  lemma AddedIsOk(s: State, e: Item, t: State)
    requires MemoryOk(s) && Sum(s.items) + e.storedSize < TWO_TO_THE_64 && forall x :: x in s.items ==> x.id != e.id
    requires e.storagePath == s.root + [e.id] && e.id != INDEX_NAME
    requires e.originalPath != [] && Apart(s.root, e.originalPath)
    requires t.root == s.root && t.items == s.items + [e] && t.storedBytes == Plus(s.storedBytes, e.storedSize)
    ensures MemoryOk(t)
  {
    hide Apart, Sum;
    SumOfOneMore(s.items, e);
  }

  lemma CaptureItems(s: State, a: Action)
    requires a.DoCapture? && Defined(s, a)
    ensures After(s, a).root == s.root
    ensures Moves(s, a.source, a.capture) ==> var item := NewItem(s, a.source, a.reason, a.correlation, a.capture);
      After(s, a).items == s.items + [item] && After(s, a).storedBytes == Plus(s.storedBytes, item.storedSize)
    ensures !Moves(s, a.source, a.capture) ==>
      After(s, a).items == s.items && After(s, a).storedBytes == s.storedBytes
  {
    hide CanRename, Rename, CreateDirectories, RemoveAll, CanCreateDirectories, Print;
  }

  lemma CaptureKeepsMemory(s: State, a: Action)
    requires a.DoCapture? && MayCapture(s, a.source, a.capture) && MemoryOk(s)
    ensures MemoryOk(After(s, a)) && After(s, a).root == s.root && s.items <= After(s, a).items
    ensures forall e :: e in After(s, a).items ==> e in s.items || e.id == a.capture.id
  {
    CaptureItems(s, a);
    hide Capture, Moves, MemoryOk, Sum, Free;
    if Moves(s, a.source, a.capture) {
      AddedIsOk(s, NewItem(s, a.source, a.reason, a.correlation, a.capture), After(s, a));
    } else {
      SameMemory(s, After(s, a));
    }
  }

  lemma ForgetKeepsMemory(s: State, i: nat, disk: Disk, writable: bool)
    requires MemoryOk(s) && i < |s.items|
    ensures var t := Persist(Forget(s, i).(disk := disk), writable);
      MemoryOk(t) && t.root == s.root && forall e :: e in t.items <==> e in s.items && e.id != s.items[i].id
  {
    SumWithout(s.items, i);
    WithoutIsOk(s.root, s.items, i);
  }

  lemma ReleaseKeepsMemory(s: State, a: Action)
    requires MemoryOk(s) && (a.DoRestore? || a.DoDiscard?)
    ensures MemoryOk(After(s, a)) && After(s, a).root == s.root
    ensures forall e :: e in After(s, a).items ==> e in s.items
    ensures forall e :: e in s.items && e.id != a.id ==> e in After(s, a).items
  {
    var i := Find(s.items, a.id);
    if i < |s.items| {
      var e, env := s.items[i], a.release;
      hide MemoryOk, WithParent, MovedBack, CanRename, RemoveAll, Persist, Forget;
      if a.DoDiscard? {
        ForgetKeepsMemory(s, i, RemoveAll(s.disk, e.storagePath, env.leftover), env.writable);
      } else if e.originalPath != [] && MovesBack(s, e, env) {
        ForgetKeepsMemory(s, i, MovedBack(WithParent(s, e, env.mkdirWorks), e, env.leftover), env.writable);
      }
    }
  }

  lemma {:induction false} PurgeFromKeepsMemory(s: State, i: nat, now: Ticks, leftover: set<Path>)
    requires MemoryOk(s) && i <= |s.items|
    ensures MemoryOk(PurgeFrom(s, i, now, leftover).0) && PurgeFrom(s, i, now, leftover).0.root == s.root
    decreases |s.items| - i
  {
    if i < |s.items| {
      if Expired(s.items[i], now) {
        var disk := RemoveAll(s.disk, s.items[i].storagePath, leftover);
        ForgetKeepsMemory(s, i, disk, false);
        hide MemoryOk;
        PurgeFromKeepsMemory(Forget(s, i).(disk := disk), i, now, leftover);
      } else {
        PurgeFromKeepsMemory(s, i + 1, now, leftover);
      }
    }
  }

  lemma PurgeKeepsMemory(s: State, a: Action)
    requires MemoryOk(s) && a.DoPurge?
    ensures MemoryOk(After(s, a)) && After(s, a).root == s.root
    ensures forall e :: e in After(s, a).items <==> e in s.items && !Expired(e, a.now)
  {
    PurgeFromKeepsMemory(s, 0, a.now, a.release.leftover);
    PurgeFromItems(s, 0, a.now, a.release.leftover);
    assert s.items[..0] + Survivors(s.items[0..], a.now) == Survivors(s.items, a.now) by {
      assert s.items[0..] == s.items;
    }
    hide PurgeFrom;
    forall e ensures e in After(s, a).items <==> e in s.items && !Expired(e, a.now) { SurvivorsAre(s.items, a.now, e); }
  }

  /** What a step that is no restart does to the list in memory. */
  lemma StepKeepsMemory(s: State, last: seq<Item>, a: Action)
    requires MemoryOk(s) && Allowed(s, last, a) && !a.Restart?
    ensures MemoryOk(After(s, a)) && After(s, a).root == s.root
    ensures forall e :: e in After(s, a).items ==> e in s.items || (a.DoCapture? && e.id == a.capture.id)
    ensures forall e :: e in s.items && !Releases(a, e) ==> e in After(s, a).items
  {
    hide MemoryOk, Capture, Restore, Discard, PurgeExpired;
    match a
    case DoCapture(_, _, _, _) => CaptureKeepsMemory(s, a);
    case DoPurge(_, _) => PurgeKeepsMemory(s, a);
    case External(disk) => SameMemory(s, After(s, a));
    case _ => ReleaseKeepsMemory(s, a);
  }

  lemma WrittenIsRecorded(s: State, a: Action)
    requires Defined(s, a) && Writes(s, a)
    ensures Recorded(After(s, a), After(s, a).items)
  {
    hide Print, CanRename, Rename, CreateDirectories, RemoveAll, PurgeFrom;
  }

  lemma SubsetSameNames(items: seq<Item>, some: seq<Item>, last: seq<Item>)
    requires SameNames(items, last) && forall e :: e in some ==> e in items || forall x :: x in last ==> x.id != e.id
    ensures SameNames(some, last)
  {
  }

  /** A step that does not write the index leaves the file alone. */
  lemma UnwrittenStaysRecorded(s: State, last: seq<Item>, a: Action)
    requires Good(s, last) && Allowed(s, last, a) && !Writes(s, a) && After(s, a).root == s.root
    ensures Recorded(After(s, a), last)
  {
    assert forall e :: e in s.items ==> e.id != INDEX_NAME;
    if a.DoRestore? || a.DoDiscard? {
      if Find(s.items, a.id) < |s.items| {
        assert s.items[Find(s.items, a.id)] in s.items;
        assert LeavesAlone(s, a, INDEX_NAME);
        StepKeepsPlace(s, last, a, INDEX_NAME);
      }
    } else {
      StepKeepsPlace(s, last, a, INDEX_NAME);
    }
  }

  lemma WrittenKeepsGood(s: State, last: seq<Item>, a: Action)
    requires Good(s, last) && Allowed(s, last, a) && Writes(s, a)
    ensures Good(After(s, a), After(s, a).items) && After(s, a).root == s.root
  {
    StepKeepsMemory(s, last, a);
    WrittenIsRecorded(s, a);
    hide After, Recorded, Writes;
    SameIdSameItem(After(s, a).items);
  }

  lemma UnwrittenKeepsGood(s: State, last: seq<Item>, a: Action)
    requires Good(s, last) && Allowed(s, last, a) && !Writes(s, a) && !a.Restart?
    ensures Good(After(s, a), last) && After(s, a).root == s.root
  {
    StepKeepsMemory(s, last, a);
    UnwrittenStaysRecorded(s, last, a);
    hide After, Recorded, Writes, ListOk;
    SubsetSameNames(s.items, After(s, a).items, last);
  }

  lemma RestartKeepsGood(s: State, last: seq<Item>)
    requires Good(s, last) && forall e :: e in last ==> ItemRoundTrips(e)
    ensures Good(Reload(s), last) && Reload(s).root == s.root
  {
    SurvivesRestartExactly(s, last);
    hide Load, Print, ItemRoundTrips;
    SameIdSameItem(last);
  }

  /** Every step keeps the invariant, whether it writes the index or not. */
  lemma StepKeepsGood(s: State, last: seq<Item>, a: Action)
    requires Good(s, last) && Allowed(s, last, a)
    ensures Good(After(s, a), LastAfter(s, last, a)) && After(s, a).root == s.root
  {
    hide Good, Reload, ItemRoundTrips, Capture, Restore, Discard, PurgeExpired;
    if a.Restart? {
      RestartKeepsGood(s, last);
    } else if Writes(s, a) {
      WrittenKeepsGood(s, last, a);
    } else {
      UnwrittenKeepsGood(s, last, a);
    }
  }

  // ---------------------------------------------------------------- whole runs, with any restarts

  /** `t`, with `latest` in the index, is the state after `actions` from `s`, with `last` in the index. */
  ghost predicate Runs(s: State, last: seq<Item>, actions: seq<Action>, t: State, latest: seq<Item>)
    decreases |actions|
  {
    if actions == [] then t == s && latest == last
    else
      && Allowed(s, last, actions[0])
      && Runs(After(s, actions[0]), LastAfter(s, last, actions[0]), actions[1..], t, latest)
  }

  lemma {:induction false} RunKeepsGood(s: State, last: seq<Item>, actions: seq<Action>, t: State, latest: seq<Item>)
    requires Good(s, last) && Runs(s, last, actions, t, latest)
    ensures Good(t, latest) && t.root == s.root
    decreases |actions|
  {
    if actions != [] {
      StepKeepsGood(s, last, actions[0]);
      hide Good, After, LastAfter;
      RunKeepsGood(After(s, actions[0]), LastAfter(s, last, actions[0]), actions[1..], t, latest);
    }
  }

  ghost predicate OnlyOneOf(e: Item, items: seq<Item>) {
    forall x :: x in items && x.id == e.id ==> x == e
  }

  /** The contents of the item are at its place, and no other item has its id; it need not be listed. */
  ghost predicate Held(s: State, last: seq<Item>, e: Item) {
    && e.storagePath == s.root + [e.id] && e.id != INDEX_NAME && e.originalPath != [] && StoredAt(e) in s.disk
    && OnlyOneOf(e, s.items) && OnlyOneOf(e, last)
  }

  lemma ListedIsHeld(s: State, last: seq<Item>, e: Item)
    requires Good(s, last) && e in s.items && StoredAt(e) in s.disk
    ensures Held(s, last, e)
  {
    SameIdSameItem(s.items);
  }

  lemma StepLeavesAlone(s: State, last: seq<Item>, a: Action, e: Item)
    requires Allowed(s, last, a) && Held(s, last, e) && !Releases(a, e)
    ensures LeavesAlone(s, a, e.id)
  {
    assert e.storagePath <= StoredAt(e);
  }

  /** A step that does not release the item leaves its contents alone, and lists it where it was listed. */
  lemma StepOnItem(s: State, last: seq<Item>, a: Action, e: Item)
    requires Good(s, last) && Allowed(s, last, a) && Held(s, last, e) && !Releases(a, e)
    ensures Held(After(s, a), LastAfter(s, last, a), e) && SameBelow(e.storagePath, s.disk, After(s, a).disk)
    ensures e in After(s, a).items <==> e in if a.Restart? then last else s.items
  {
    StepLeavesAlone(s, last, a, e);
    StepKeepsPlace(s, last, a, e.id);
    assert e.storagePath <= StoredAt(e);
    if a.Restart? {
      SurvivesRestartExactly(s, last);
    } else {
      StepKeepsMemory(s, last, a);
    }
    hide After, Good, Allowed, Releases, Writes;
  }

  /** An item that the index names stays in it and in memory, over every run, until it is released. */
  lemma {:induction false} RecordedIsRetained(s: State, last: seq<Item>, actions: seq<Action>, t: State,
                                              latest: seq<Item>, e: Item)
    requires Good(s, last) && Runs(s, last, actions, t, latest) && Held(s, last, e)
    requires e in s.items && e in last && forall a :: a in actions ==> !Releases(a, e)
    ensures e in t.items && e in latest && SameBelow(e.storagePath, s.disk, t.disk)
    decreases |actions|
  {
    if actions != [] {
      var next := After(s, actions[0]);
      assert actions[0] in actions;
      StepOnItem(s, last, actions[0], e);
      StepKeepsGood(s, last, actions[0]);
      hide Good, After, Allowed, Writes, Held, Releases, SameBelow;
      RecordedIsRetained(next, LastAfter(s, last, actions[0]), actions[1..], t, latest, e);
      SameBelowAgain(e.storagePath, s.disk, next.disk, t.disk);
    }
  }

  /** An item that a restart has lost is never listed again, though its contents stay in the store. */
  lemma {:induction false} LostStaysLost(s: State, last: seq<Item>, actions: seq<Action>, t: State,
                                         latest: seq<Item>, e: Item)
    requires Good(s, last) && Runs(s, last, actions, t, latest) && Held(s, last, e)
    requires e !in s.items && e !in last && forall a :: a in actions ==> !Releases(a, e)
    ensures e !in t.items && e !in latest && SameBelow(e.storagePath, s.disk, t.disk)
    decreases |actions|
  {
    if actions != [] {
      var next := After(s, actions[0]);
      assert actions[0] in actions;
      StepOnItem(s, last, actions[0], e);
      StepKeepsGood(s, last, actions[0]);
      hide Good, After, Allowed, Writes, Held, Releases, SameBelow;
      LostStaysLost(next, LastAfter(s, last, actions[0]), actions[1..], t, latest, e);
      SameBelowAgain(e.storagePath, s.disk, next.disk, t.disk);
    }
  }

  /** No restart comes before the first write of the index. */
  predicate WrittenInTime(s: State, actions: seq<Action>)
    decreases |actions|
  {
    actions == [] ||
      (Defined(s, actions[0]) && !actions[0].Restart?
       && (Writes(s, actions[0]) || WrittenInTime(After(s, actions[0]), actions[1..])))
  }

  /**
   Retention with restarts at any time. The contents of an item stay untouched until it is released; and the
   item is still listed if and only if the index named it at the start or was written before the first restart.
   */
  lemma {:induction false} RetainedExactly(s: State, last: seq<Item>, actions: seq<Action>, t: State,
                                           latest: seq<Item>, e: Item)
    requires Good(s, last) && Runs(s, last, actions, t, latest) && e in s.items && StoredAt(e) in s.disk
    requires forall a :: a in actions ==> !Releases(a, e)
    ensures SameBelow(e.storagePath, s.disk, t.disk)
    ensures e in t.items <==> e in last || WrittenInTime(s, actions)
    decreases |actions|
  {
    ListedIsHeld(s, last, e);
    if e in last {
      RecordedIsRetained(s, last, actions, t, latest, e);
    } else if actions != [] {
      var next, written := After(s, actions[0]), LastAfter(s, last, actions[0]);
      assert actions[0] in actions;
      StepOnItem(s, last, actions[0], e);
      StepKeepsGood(s, last, actions[0]);
      hide Good, After, Allowed, Releases, Writes, SameBelow;
      if actions[0].Restart? {
        LostStaysLost(next, written, actions[1..], t, latest, e);
      } else if Writes(s, actions[0]) {
        RecordedIsRetained(next, written, actions[1..], t, latest, e);
      } else {
        RetainedExactly(next, written, actions[1..], t, latest, e);
      }
      SameBelowAgain(e.storagePath, s.disk, next.disk, t.disk);
    }
  }

  /** An operation that answers ok has written the index. */
  lemma OkHasWritten(s: State, a: Action)
    requires Defined(s, a) && AnswersOk(s, a) && !a.Restart?
    ensures Writes(s, a)
  {
    hide CanRename, CreateDirectories, Rename, RemoveAll, PurgeFrom, Print;
  }

  lemma CapturedIsHeld(s: State, source: Path, reason: string, correlation: string, env: CaptureEnv, s1: State, e: Item)
    requires MayCapture(s, source, env) && Capture(s, source, reason, correlation, env) == (s1, Ok(e))
    ensures e in s1.items && e.originalPath == source && e.id == env.id && e.expiresAt == Expiry(s, env)
    ensures StoredAt(e) in s1.disk && MovedBelow(source, StoredAt(e), s.disk, s1.disk)
  {
    hide Capture, Rename, CreateDirectories, Free, Persisted, MovedBelow;
    CaptureShape(s, source, reason, correlation, env, s1, e);
    CaptureStores(s, source, reason, correlation, env, s1, e);
    MovedIsThere(source, StoredAt(e), s.disk, s1.disk);
  }

  lemma MovedIsThere(from: Path, to: Path, before: Disk, after: Disk)
    requires MovedBelow(from, to, before, after) && from in before
    ensures to in after
  {
    assert Moved(from, to, to) == from;
  }

  lemma WrittenByCapture(s: State, last: seq<Item>, a: Action, e: Item)
    requires a.DoCapture? && Allowed(s, last, a)
    requires Capture(s, a.source, a.reason, a.correlation, a.capture) == (After(s, a), Ok(e))
    ensures LastAfter(s, last, a) == After(s, a).items
  {
    OkHasWritten(s, a);
  }

  lemma KeptSinceCapture(s: State, e: Item, actions: seq<Action>, t: State, latest: seq<Item>)
    requires Good(s, s.items) && Runs(s, s.items, actions, t, latest) && e in s.items
    requires e.originalPath != [] && StoredAt(e) in s.disk && forall b :: b in actions ==> !Releases(b, e)
    ensures e in t.items && SameBelow(StoredAt(e), s.disk, t.disk) && StoredAt(e) in t.disk
  {
    ListedIsHeld(s, s.items, e);
    assert e.storagePath <= StoredAt(e);
    hide Good, Releases, Runs, Held;
    RecordedIsRetained(s, s.items, actions, t, latest, e);
  }

  lemma HeldAcrossRestarts(s: State, last: seq<Item>, a: Action, e: Item, actions: seq<Action>, t: State,
                           latest: seq<Item>)
    requires Good(s, last) && a.DoCapture? && Allowed(s, last, a)
    requires Capture(s, a.source, a.reason, a.correlation, a.capture) == (After(s, a), Ok(e))
    requires Runs(After(s, a), LastAfter(s, last, a), actions, t, latest)
    requires forall b :: b in actions ==> !Releases(b, e)
    ensures e in t.items && e.originalPath == a.source && a.source != []
    ensures MovedBelow(a.source, StoredAt(e), s.disk, After(s, a).disk)
    ensures SameBelow(StoredAt(e), After(s, a).disk, t.disk) && StoredAt(e) in t.disk
    ensures Good(t, latest) && t.root == s.root
  {
    hide Good, Capture, Moves, MovedBelow, SameBelow, Runs, Writes, LastAfter, Free, Releases;
    StepKeepsGood(s, last, a);
    RunKeepsGood(After(s, a), LastAfter(s, last, a), actions, t, latest);
    WrittenByCapture(s, last, a, e);
    CapturedIsHeld(s, a.source, a.reason, a.correlation, a.capture, After(s, a), e);
    KeptSinceCapture(After(s, a), e, actions, t, latest);
  }

  /**
   A capture that answered ok outlives every run of less than its retention in which nobody releases it by
   name, wherever the restarts fall.
   */
  lemma CapturedIsKept(s: State, last: seq<Item>, a: Action, e: Item, actions: seq<Action>, t: State, latest: seq<Item>)
    requires Good(s, last) && a.DoCapture? && Allowed(s, last, a)
    requires Capture(s, a.source, a.reason, a.correlation, a.capture) == (After(s, a), Ok(e))
    requires Runs(After(s, a), LastAfter(s, last, a), actions, t, latest)
    requires forall b :: b in actions ==>
      && (b.DoRestore? || b.DoDiscard? ==> b.id != a.capture.id)
      && (b.DoPurge? ==> b.now < a.capture.later + s.retentionHours * TICKS_PER_HOUR)
    ensures e in t.items && e.originalPath == a.source && a.source != []
    ensures MovedBelow(a.source, StoredAt(e), s.disk, After(s, a).disk)
    ensures SameBelow(StoredAt(e), After(s, a).disk, t.disk)
  {
    hide Good, Capture, Moves, MovedBelow, SameBelow, Runs, Writes, LastAfter, Free;
    CapturedIsHeld(s, a.source, a.reason, a.correlation, a.capture, After(s, a), e);
    assert forall b :: b in actions ==> !Releases(b, e);
    HeldAcrossRestarts(s, last, a, e, actions, t, latest);
  }

  lemma GoodForRestore(t: State, latest: seq<Item>, e: Item)
    requires Good(t, latest) && e in t.items && e.originalPath != [] && StoredAt(e) in t.disk
    ensures ItemOk(t, e) && DistinctIds(t.items) && forall o :: o in t.items ==> t.root <= o.storagePath
  {
  }

  /**
   A capture that answered ok, any run that does not release the item, wherever its restarts fall, and a restore
   while the original path is free: the source is back as it was, and the restore changes no other file outside.
   */
  lemma CapturedComesBack(s: State, last: seq<Item>, a: Action, e: Item, actions: seq<Action>, t: State,
                          latest: seq<Item>, release: ReleaseEnv)
    requires Good(s, last) && a.DoCapture? && Allowed(s, last, a)
    requires Capture(s, a.source, a.reason, a.correlation, a.capture) == (After(s, a), Ok(e))
    requires Runs(After(s, a), LastAfter(s, last, a), actions, t, latest)
    requires forall b :: b in actions ==> !Releases(b, e)
    requires Free(t.disk, a.source) && CanCreateDirectories(t.disk, a.source[..|a.source| - 1])
    requires release.mkdirWorks && release.renameWorks
    ensures var (t', out) := Restore(t, e.id, release);
      && out.Ok? == release.writable && SameBelow(a.source, s.disk, t'.disk)
      && (forall q :: q in t.disk && !(t.root <= q) ==> q in t'.disk && t'.disk[q] == t.disk[q])
  {
    hide Good, Capture, Restore, MovedBelow, Free, Runs, Releases, LastAfter, SameBelow, ItemOk;
    HeldAcrossRestarts(s, last, a, e, actions, t, latest);
    GoodForRestore(t, latest, e);
    RestorePutsBack(t, e, release);
    ThereAndBack(a.source, StoredAt(e), s.disk, After(s, a).disk, t.disk, Restore(t, e.id, release).0.disk);
  }

  /**
   A capture whose index write is refused answers an error, and yet the source is gone from its path; after a
   restart its contents are in the store and no item names them.
   */
  lemma RefusedCaptureIsLost(s: State, last: seq<Item>, a: Action)
    requires Good(s, last) && a.DoCapture? && Allowed(s, last, a) && forall e :: e in last ==> ItemRoundTrips(e)
    requires Moves(s, a.source, a.capture) && !a.capture.writable
    ensures Capture(s, a.source, a.reason, a.correlation, a.capture).1 == Err(IoError)
    ensures Free(After(s, a).disk, a.source) && Reload(After(s, a)).items == last
    ensures MovedBelow(a.source, s.root + [a.capture.id] + [Name(a.source)], s.disk, After(s, a).disk)
    ensures forall e :: e in Reload(After(s, a)).items ==> e.id != a.capture.id
  {
    BelowRoot(s.root, a.capture.id, a.source);
    MovedInDisk(s.disk, s.root + [a.capture.id], a.source);
    StepKeepsGood(s, last, a);
    hide Good, Rename, CreateDirectories, ItemRoundTrips, Reload, MovedBelow;
    SurvivesRestartExactly(After(s, a), last);
  }

  const STORE: State := State(["q"], 1, [], 0, map[["q"] := Directory, ["b"] := File("x")])
  const REFUSED: Action := DoCapture(["b"], "", "", CaptureEnv("i", 1, 0, 0, true, true, {}, false, false))

  lemma StoreTakesTheFile()
    ensures Good(STORE, []) && Allowed(STORE, [], REFUSED) && Moves(STORE, ["b"], REFUSED.capture)
  {
    assert "b"[0] == 'b' && "q"[0] == 'q';
    var target := STORE.root + ["i"];
    assert target == ["q", "i"] && Name(["b"]) == "b" && (target + ["b"])[..2] == target;
    FirstNamesDiffer(["q"], ["b"]);
    FirstNamesDiffer(["b"], target + ["b"]);
    PrefixesArePrefixes(target, ["b"]);
    assert IndexPath(["q"]) !in STORE.disk by { assert |IndexPath(["q"])| == 2; }
    assert Free(STORE.disk, target) by { assert forall q :: target <= q ==> |q| >= 2; }
  }

  /** Such a capture: it answers an error, and after the restart nothing leads to the file any more. */
  lemma CaptureLosesTheSource()
    ensures Good(STORE, []) && Allowed(STORE, [], REFUSED)
    ensures Capture(STORE, ["b"], "", "", REFUSED.capture).1 == Err(IoError)
    ensures ["b"] in STORE.disk && ["b"] !in After(STORE, REFUSED).disk
    ensures ["q", "i", "b"] in After(STORE, REFUSED).disk && Reload(After(STORE, REFUSED)).items == []
  {
    StoreTakesTheFile();
    hide Good, Capture, Moves, Reload, After, Rename;
    RefusedCaptureIsLost(STORE, [], REFUSED);
    assert Moved(["b"], ["q", "i", "b"], ["q", "i", "b"]) == ["b"];
    assert ["q"] + ["i"] + [Name(["b"])] == ["q", "i", "b"];
  }
}
