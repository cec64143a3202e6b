/**
 `applyUpdateSequence` of src/platform/windows/mft/ntfs_mft.cpp: the in-place fixup of a file record whose
 sector tails were swapped for a signature when it was written.
 */
module UpdateSequence {
  import opened Integers

  const SMALLEST_RECORD: nat := 44

  /** The little-endian number in two bytes. */
  function Join(low: byte, high: byte): (w: nat)
    ensures w < 0x1_0000
  {
    (low as int) + 256 * (high as int)
  }

  function Word(r: seq<byte>, at: nat): (w: nat)
    requires at + 2 <= |r|
    ensures w < 0x1_0000
  {
    Join(r[at], r[at + 1])
  }

  /** Storing a 16-bit number. */
  function Patch(r: seq<byte>, at: nat, w: nat): (out: seq<byte>)
    requires at + 2 <= |r| && w < 0x1_0000
    ensures |out| == |r|
  {
    r[at := w % 256][at + 1 := w / 256]
  }

  lemma PatchReads(r: seq<byte>, at: nat, w: nat, other: nat)
    requires at + 2 <= |r| && other + 2 <= |r| && w < 0x1_0000
    requires other == at || other + 2 <= at || at + 2 <= other
    ensures Word(Patch(r, at, w), other) == if other == at then w else Word(r, other)
  {
  }

  /** Where the tail of a sector starts. */
  function TailAt(i: nat, sectorSize: nat): (at: nat)
    requires sectorSize >= 2
  {
    TailsGrow(0, i + 1, sectorSize);
    (i + 1) * sectorSize - 2
  }

  lemma TailsGrow(i: nat, k: nat, sectorSize: nat)
    requires i <= k
    ensures k * sectorSize - i * sectorSize == (k - i) * sectorSize
    ensures i < k ==> k * sectorSize >= i * sectorSize + sectorSize
  {
    if i < k {
      assert (k - i) * sectorSize >= sectorSize by {
        assert (k - i) * sectorSize == (k - i - 1) * sectorSize + sectorSize;
        Positive(k - i - 1, sectorSize);
      }
    }
  }

  lemma Positive(a: nat, b: nat)
    ensures a * b >= 0
  {
  }

  /** What the two size checks establish: the sectors and the update sequence array lie within the record. */
  predicate Fits(r: seq<byte>, usa: nat, sectors: nat, sectorSize: nat) {
    sectorSize >= 2 && sectors * sectorSize <= |r| && usa + 2 * (sectors + 1) <= |r|
  }

  lemma TailFits(r: seq<byte>, usa: nat, sectors: nat, sectorSize: nat, i: nat)
    requires Fits(r, usa, sectors, sectorSize) && i < sectors
    ensures TailAt(i, sectorSize) + 2 <= |r|
  {
  }

  /** The number at the end of sector `i`. */
  function Tail(r: seq<byte>, usa: nat, sectors: nat, sectorSize: nat, i: nat): nat
    requires Fits(r, usa, sectors, sectorSize) && i < sectors
  {
    TailFits(r, usa, sectors, sectorSize, i);
    Word(r, TailAt(i, sectorSize))
  }

  lemma TailsApart(i: nat, k: nat, sectorSize: nat)
    requires i < k && sectorSize >= 2
    ensures TailAt(i, sectorSize) + 2 <= TailAt(k, sectorSize)
  {
  }

  datatype Outcome = Outcome(ok: bool, record: seq<byte>)

  /** The loop, from sector `i` on. */
  function Fixed(r: seq<byte>, usa: nat, sectors: nat, sectorSize: nat, signature: nat, i: nat): (out: Outcome)
    requires Fits(r, usa, sectors, sectorSize) && i <= sectors
    ensures |out.record| == |r|
    decreases sectors - i
  {
    if i == sectors then Outcome(true, r)
    else
      TailFits(r, usa, sectors, sectorSize, i);
      var at := TailAt(i, sectorSize);
      if Word(r, at) != signature then Outcome(false, r)
      else Fixed(Patch(r, at, Word(r, usa + 2 * (i + 1))), usa, sectors, sectorSize, signature, i + 1)
  }

  /** The checks on the record's header. */
  predicate Accepted(r: seq<byte>, sectorSize: nat) {
    && |r| >= SMALLEST_RECORD && Word(r, 6) != 0
    && (Word(r, 6) - 1) * sectorSize <= |r| && Word(r, 4) + 2 * Word(r, 6) <= |r|
  }

  function Applied(r: seq<byte>, sectorSize: nat): Outcome
    requires sectorSize >= 2
  {
    if !Accepted(r, sectorSize) then Outcome(false, r)
    else Fixed(r, Word(r, 4), Word(r, 6) - 1, sectorSize, Word(r, Word(r, 4)), 0)
  }

  /** The products and sums of the checks are taken modulo 2^32, and none of them wraps. */
  lemma NothingWraps(count: nat, usa: nat, sectorSize: nat)
    requires 0 < count < 0x1_0000 && usa < 0x1_0000 && sectorSize < 0x1_0000
    ensures ((count - 1) * sectorSize) % TWO_TO_THE_32 == (count - 1) * sectorSize
    ensures (usa + 2 * count) % TWO_TO_THE_32 == usa + 2 * count
  {
  }

  lemma JoinSplits(low: byte, high: byte)
    ensures Join(low, high) % 256 == low && Join(low, high) / 256 == high
  {
  }

  /** `memcpy` of a 16-bit number into a local variable. */
  method Load(record: array<byte>, at: nat) returns (w: nat)
    requires at + 2 <= record.Length
    ensures w == Word(record[..], at)
  {
    w := Join(record[at], record[at + 1]);
  }

  /** `memcpy` of a 16-bit number from one place in the record to another, through a local variable. */
  method Move(record: array<byte>, from: nat, to: nat)
    requires from + 2 <= record.Length && to + 2 <= record.Length
    modifies record
    ensures record[..] == Patch(old(record[..]), to, Word(old(record[..]), from))
  {
    JoinSplits(record[from], record[from + 1]);
    record[to], record[to + 1] := record[from], record[from + 1];
  }

  /** The sector size comes from a 16-bit field of the boot sector. */
  method ApplyUpdateSequence(record: array<byte>, sectorSize: nat) returns (ok: bool)
    requires 2 <= sectorSize < 0x1_0000
    modifies record
    ensures Applied(old(record[..]), sectorSize) == Outcome(ok, record[..])
  {
    ghost var before := record[..];
    if record.Length < SMALLEST_RECORD { return false; }
    var usaOffset := Load(record, 4);
    var usaCount := Load(record, 6);
    hide Word, Patch;
    if usaCount == 0 { return false; }
    NothingWraps(usaCount, usaOffset, sectorSize);
    var sectorsCovered := usaCount - 1;
    if (sectorsCovered * sectorSize) % TWO_TO_THE_32 > record.Length { return false; }
    if (usaOffset + 2 * usaCount) % TWO_TO_THE_32 > record.Length { return false; }
    var signature := Load(record, usaOffset);
    for i := 0 to sectorsCovered
      invariant Fits(record[..], usaOffset, sectorsCovered, sectorSize)
      invariant Fixed(record[..], usaOffset, sectorsCovered, sectorSize, signature, i)
             == Fixed(before, usaOffset, sectorsCovered, sectorSize, signature, 0)
    {
      TailFits(record[..], usaOffset, sectorsCovered, sectorSize, i);
      var sectorEnd := TailAt(i, sectorSize);
      var tail := Load(record, sectorEnd);
      if tail != signature { return false; }
      Move(record, usaOffset + 2 * (i + 1), sectorEnd);
    }
    ok := true;
  }

  // ---------------------------------------------------------------- what it changes

  ghost predicate InTail(j: nat, sectors: nat, sectorSize: nat)
    requires sectorSize >= 2
  {
    exists i: nat :: i < sectors && TailAt(i, sectorSize) <= j < TailAt(i, sectorSize) + 2
  }

  /** Nothing but sector tails changes, whether or not the fixup succeeds. */
  lemma {:induction false} OnlyTailsChange(r: seq<byte>, usa: nat, sectors: nat, sectorSize: nat,
                                           signature: nat, i: nat, j: nat)
    requires Fits(r, usa, sectors, sectorSize) && i <= sectors && j < |r| && !InTail(j, sectors, sectorSize)
    ensures Fixed(r, usa, sectors, sectorSize, signature, i).record[j] == r[j]
    decreases sectors - i
  {
    if i < sectors {
      TailFits(r, usa, sectors, sectorSize, i);
      var at := TailAt(i, sectorSize);
      if Word(r, at) == signature {
        OnlyTailsChange(Patch(r, at, Word(r, usa + 2 * (i + 1))), usa, sectors, sectorSize, signature, i + 1, j);
      }
    }
  }

  /** The update sequence array overlaps no tail. */
  ghost predicate Disjoint(usa: nat, sectors: nat, sectorSize: nat)
    requires sectorSize >= 2
  {
    forall i: nat :: i < sectors ==>
      TailAt(i, sectorSize) + 2 <= usa || usa + 2 * (sectors + 1) <= TailAt(i, sectorSize)
  }

  /** The first sector from `i` on whose tail is not the signature. */
  function FirstTorn(r: seq<byte>, usa: nat, sectors: nat, sectorSize: nat, signature: nat, i: nat): (k: nat)
    requires Fits(r, usa, sectors, sectorSize) && i <= sectors
    ensures i <= k <= sectors
    decreases sectors - i
  {
    if i == sectors then i
    else
      TailFits(r, usa, sectors, sectorSize, i);
      if Word(r, TailAt(i, sectorSize)) != signature then i
      else FirstTorn(r, usa, sectors, sectorSize, signature, i + 1)
  }

  /** Word `k` of the update sequence array. */
  function Slot(usa: nat, k: nat): nat {
    usa + 2 * k
  }

  lemma SlotsApartFromTails(usa: nat, sectors: nat, sectorSize: nat, i: nat, k: nat)
    requires sectorSize >= 2 && Disjoint(usa, sectors, sectorSize) && i < sectors && k <= sectors
    ensures TailAt(i, sectorSize) + 2 <= Slot(usa, k) || Slot(usa, k) + 2 <= TailAt(i, sectorSize)
  {
  }

  /** Restoring one tail leaves every other tail and the whole update sequence array as they were. */
  lemma PatchedTail(r: seq<byte>, usa: nat, sectors: nat, sectorSize: nat, i: nat, w: nat, m: nat)
    requires Fits(r, usa, sectors, sectorSize) && Disjoint(usa, sectors, sectorSize)
    requires i < sectors && m < sectors && w < 0x1_0000
    requires TailAt(i, sectorSize) + 2 <= |r| && TailAt(m, sectorSize) + 2 <= |r|
    ensures var s := Patch(r, TailAt(i, sectorSize), w);
      && Word(s, TailAt(m, sectorSize)) == (if m == i then w else Word(r, TailAt(m, sectorSize)))
      && Word(s, Slot(usa, m + 1)) == Word(r, Slot(usa, m + 1))
  {
    var at := TailAt(i, sectorSize);
    SlotsApartFromTails(usa, sectors, sectorSize, i, m + 1);
    if m < i { TailsApart(m, i, sectorSize); }
    if i < m { TailsApart(i, m, sectorSize); }
    PatchReads(r, at, w, TailAt(m, sectorSize));
    PatchReads(r, at, w, Slot(usa, m + 1));
  }

  lemma {:induction false} TornAfterPatch(r: seq<byte>, usa: nat, sectors: nat, sectorSize: nat,
                                          signature: nat, i: nat, w: nat, k: nat)
    requires Fits(r, usa, sectors, sectorSize) && Disjoint(usa, sectors, sectorSize)
    requires i < k <= sectors && w < 0x1_0000 && TailAt(i, sectorSize) + 2 <= |r|
    ensures Fits(Patch(r, TailAt(i, sectorSize), w), usa, sectors, sectorSize)
    ensures FirstTorn(Patch(r, TailAt(i, sectorSize), w), usa, sectors, sectorSize, signature, k)
         == FirstTorn(r, usa, sectors, sectorSize, signature, k)
    decreases sectors - k
  {
    if k < sectors {
      TailFits(r, usa, sectors, sectorSize, k);
      PatchedTail(r, usa, sectors, sectorSize, i, w, k);
      hide Word, Patch;
      TornAfterPatch(r, usa, sectors, sectorSize, signature, i, w, k + 1);
    }
  }

  /**
   When the update sequence array overlaps no tail: the fixup succeeds exactly when every tail is the
   signature, and it restores the tails before the first torn one, each from its own slot.
   */
  lemma {:induction false} FixedIs(r: seq<byte>, usa: nat, sectors: nat, sectorSize: nat, signature: nat,
                                   i: nat, m: nat)
    requires Fits(r, usa, sectors, sectorSize) && Disjoint(usa, sectors, sectorSize) && i <= sectors && m < sectors
    ensures var out := Fixed(r, usa, sectors, sectorSize, signature, i);
      var torn := FirstTorn(r, usa, sectors, sectorSize, signature, i);
      && (out.ok <==> torn == sectors)
      && Tail(out.record, usa, sectors, sectorSize, m)
           == (if i <= m < torn then Word(r, Slot(usa, m + 1)) else Tail(r, usa, sectors, sectorSize, m))
    decreases sectors - i
  {
    hide Word, Patch, TailAt;
    TailFits(r, usa, sectors, sectorSize, m);
    if i < sectors {
      TailFits(r, usa, sectors, sectorSize, i);
      var at := TailAt(i, sectorSize);
      if Word(r, at) == signature {
        var w := Word(r, Slot(usa, i + 1));
        TornAfterPatch(r, usa, sectors, sectorSize, signature, i, w, i + 1);
        PatchedTail(r, usa, sectors, sectorSize, i, w, m);
        FixedIs(Patch(r, at, w), usa, sectors, sectorSize, signature, i + 1, m);
      }
    }
  }

  /** Every sector from `i` on ends in the signature. */
  ghost predicate AllStamped(r: seq<byte>, usa: nat, sectors: nat, sectorSize: nat, signature: nat, i: nat)
    requires Fits(r, usa, sectors, sectorSize)
  {
    forall m: nat :: i <= m < sectors ==> Tail(r, usa, sectors, sectorSize, m) == signature
  }

  lemma {:induction false} TornIsFirst(r: seq<byte>, usa: nat, sectors: nat, sectorSize: nat, signature: nat, i: nat)
    requires Fits(r, usa, sectors, sectorSize) && i <= sectors
    ensures FirstTorn(r, usa, sectors, sectorSize, signature, i) == sectors <==>
            AllStamped(r, usa, sectors, sectorSize, signature, i)
    decreases sectors - i
  {
    hide Word, TailAt;
    if i < sectors {
      TailFits(r, usa, sectors, sectorSize, i);
      assert Tail(r, usa, sectors, sectorSize, i) == Word(r, TailAt(i, sectorSize));
      hide Tail;
      TornIsFirst(r, usa, sectors, sectorSize, signature, i + 1);
    }
  }

  /** A record is accepted exactly when its header fits and every sector ends in the signature. */
  lemma AcceptedExactly(r: seq<byte>, sectorSize: nat)
    requires sectorSize >= 2
    requires Accepted(r, sectorSize) ==> Disjoint(Word(r, 4), Word(r, 6) - 1, sectorSize)
    ensures Applied(r, sectorSize).ok <==>
      && Accepted(r, sectorSize)
      && AllStamped(r, Word(r, 4), Word(r, 6) - 1, sectorSize, Word(r, Word(r, 4)), 0)
  {
    if Accepted(r, sectorSize) {
      var usa, sectors := Word(r, 4), Word(r, 6) - 1;
      TornIsFirst(r, usa, sectors, sectorSize, Word(r, usa), 0);
      if sectors > 0 {
        FixedIs(r, usa, sectors, sectorSize, Word(r, usa), 0, 0);
      }
      hide Word, TailAt;
    }
  }

  // ---------------------------------------------------------------- protecting a record

  /** What was done when the record was written, from sector `i` on: save the tail in its slot, stamp the signature. */
  function Stamped(r: seq<byte>, usa: nat, sectors: nat, sectorSize: nat, signature: nat, i: nat): (out: seq<byte>)
    requires Fits(r, usa, sectors, sectorSize) && i <= sectors && signature < 0x1_0000
    ensures |out| == |r|
    decreases sectors - i
  {
    if i == sectors then r
    else
      TailFits(r, usa, sectors, sectorSize, i);
      var at := TailAt(i, sectorSize);
      Stamped(Patch(Patch(r, Slot(usa, i + 1), Word(r, at)), at, signature), usa, sectors, sectorSize, signature, i + 1)
  }

  function Protected(r: seq<byte>, usa: nat, sectors: nat, sectorSize: nat, signature: nat): (out: seq<byte>)
    requires Fits(r, usa, sectors, sectorSize) && signature < 0x1_0000
    ensures |out| == |r|
  {
    Stamped(Patch(r, usa, signature), usa, sectors, sectorSize, signature, 0)
  }

  /** A position that no tail and no slot from `i + 1` on touches. */
  ghost predicate Untouched(at: nat, usa: nat, sectors: nat, sectorSize: nat, i: nat)
    requires sectorSize >= 2
  {
    forall k: nat :: i <= k < sectors ==>
      && (at + 2 <= TailAt(k, sectorSize) || TailAt(k, sectorSize) + 2 <= at)
      && (at + 2 <= Slot(usa, k + 1) || Slot(usa, k + 1) + 2 <= at)
  }

  lemma {:induction false} StampedKeeps(r: seq<byte>, usa: nat, sectors: nat, sectorSize: nat, signature: nat,
                                        i: nat, at: nat)
    requires Fits(r, usa, sectors, sectorSize) && i <= sectors && signature < 0x1_0000
    requires at + 2 <= |r| && Untouched(at, usa, sectors, sectorSize, i)
    ensures Word(Stamped(r, usa, sectors, sectorSize, signature, i), at) == Word(r, at)
    decreases sectors - i
  {
    if i < sectors {
      TailFits(r, usa, sectors, sectorSize, i);
      var tail := TailAt(i, sectorSize);
      var saved := Patch(r, Slot(usa, i + 1), Word(r, tail));
      PatchReads(r, Slot(usa, i + 1), Word(r, tail), at);
      PatchReads(saved, tail, signature, at);
      hide Word, Patch, TailAt;
      StampedKeeps(Patch(saved, tail, signature), usa, sectors, sectorSize, signature, i + 1, at);
    }
  }

  /** Every tail is stamped, and saved in its own slot. */
  lemma {:induction false} StampedIs(r: seq<byte>, usa: nat, sectors: nat, sectorSize: nat, signature: nat,
                                     i: nat, m: nat)
    requires Fits(r, usa, sectors, sectorSize) && Disjoint(usa, sectors, sectorSize)
    requires i <= m < sectors && signature < 0x1_0000
    ensures var out := Stamped(r, usa, sectors, sectorSize, signature, i);
      && Tail(out, usa, sectors, sectorSize, m) == signature
      && Word(out, Slot(usa, m + 1)) == Tail(r, usa, sectors, sectorSize, m)
    decreases sectors - i
  {
    TailFits(r, usa, sectors, sectorSize, m);
    TailFits(r, usa, sectors, sectorSize, i);
    var tail, slot := TailAt(i, sectorSize), Slot(usa, i + 1);
    var saved := Patch(r, slot, Word(r, tail));
    var next := Patch(saved, tail, signature);
    if i == m {
      SlotsApartFromTails(usa, sectors, sectorSize, i, i + 1);
      PatchReads(r, slot, Word(r, tail), slot);
      PatchReads(saved, tail, signature, tail);
      PatchReads(saved, tail, signature, slot);
      UntouchedLater(usa, sectors, sectorSize, i);
      StampedKeeps(next, usa, sectors, sectorSize, signature, i + 1, tail);
      StampedKeeps(next, usa, sectors, sectorSize, signature, i + 1, slot);
    } else {
      TailsApart(i, m, sectorSize);
      SlotsApartFromTails(usa, sectors, sectorSize, m, i + 1);
      PatchReads(r, slot, Word(r, tail), TailAt(m, sectorSize));
      PatchReads(saved, tail, signature, TailAt(m, sectorSize));
      StampedIs(next, usa, sectors, sectorSize, signature, i + 1, m);
    }
    hide Word, Patch, TailAt;
  }

  lemma UntouchedLater(usa: nat, sectors: nat, sectorSize: nat, i: nat)
    requires sectorSize >= 2 && Disjoint(usa, sectors, sectorSize) && i < sectors
    ensures Untouched(TailAt(i, sectorSize), usa, sectors, sectorSize, i + 1)
    ensures Untouched(Slot(usa, i + 1), usa, sectors, sectorSize, i + 1)
  {
    forall k: nat | i + 1 <= k < sectors
      ensures TailAt(i, sectorSize) + 2 <= TailAt(k, sectorSize)
      ensures Slot(usa, k + 1) + 2 <= TailAt(i, sectorSize) || TailAt(i, sectorSize) + 2 <= Slot(usa, k + 1)
      ensures TailAt(k, sectorSize) + 2 <= Slot(usa, i + 1) || Slot(usa, i + 1) + 2 <= TailAt(k, sectorSize)
    {
      TailsApart(i, k, sectorSize);
      SlotsApartFromTails(usa, sectors, sectorSize, i, k + 1);
      SlotsApartFromTails(usa, sectors, sectorSize, k, i + 1);
    }
  }

  lemma {:induction false} StampedKeepsByte(r: seq<byte>, usa: nat, sectors: nat, sectorSize: nat,
                                            signature: nat, i: nat, j: nat)
    requires Fits(r, usa, sectors, sectorSize) && i <= sectors && signature < 0x1_0000
    requires j < |r| && !InTail(j, sectors, sectorSize) && !InArray(j, usa, sectors)
    ensures Stamped(r, usa, sectors, sectorSize, signature, i)[j] == r[j]
    decreases sectors - i
  {
    if i < sectors {
      TailFits(r, usa, sectors, sectorSize, i);
      var at := TailAt(i, sectorSize);
      var next := Patch(Patch(r, Slot(usa, i + 1), Word(r, at)), at, signature);
      StampedKeepsByte(next, usa, sectors, sectorSize, signature, i + 1, j);
    }
  }

  predicate InArray(j: nat, usa: nat, sectors: nat) {
    usa <= j < usa + 2 * (sectors + 1)
  }

  /** A record ready to be protected: the array overlaps neither a tail nor the two header words that describe it. */
  ghost predicate Layout(r: seq<byte>, sectorSize: nat)
    requires sectorSize >= 2
  {
    && Accepted(r, sectorSize)
    && var usa, sectors := Word(r, 4), Word(r, 6) - 1;
      && Disjoint(usa, sectors, sectorSize)
      && (usa >= 8 || usa + 2 * (sectors + 1) <= 4)
      && (forall m: nat :: m < sectors ==> TailAt(m, sectorSize) >= 8 || TailAt(m, sectorSize) + 2 <= 4)
  }

  lemma ProtectedHeader(r: seq<byte>, sectorSize: nat, signature: nat)
    requires sectorSize >= 2 && signature < 0x1_0000 && Layout(r, sectorSize)
    ensures var usa, sectors := Word(r, 4), Word(r, 6) - 1;
      var s := Protected(r, usa, sectors, sectorSize, signature);
      Word(s, 4) == usa && Word(s, 6) == sectors + 1 && Word(s, usa) == signature
  {
    var usa, sectors := Word(r, 4), Word(r, 6) - 1;
    var p := Patch(r, usa, signature);
    PatchReads(r, usa, signature, 4);
    PatchReads(r, usa, signature, 6);
    PatchReads(r, usa, signature, usa);
    hide Word, Patch, TailAt;
    StampedKeeps(p, usa, sectors, sectorSize, signature, 0, 4);
    StampedKeeps(p, usa, sectors, sectorSize, signature, 0, 6);
    StampedKeeps(p, usa, sectors, sectorSize, signature, 0, usa);
  }

  lemma ProtectedTail(r: seq<byte>, sectorSize: nat, signature: nat, m: nat)
    requires sectorSize >= 2 && signature < 0x1_0000 && Layout(r, sectorSize) && m < Word(r, 6) - 1
    ensures var usa, sectors := Word(r, 4), Word(r, 6) - 1;
      var s := Protected(r, usa, sectors, sectorSize, signature);
      && Tail(s, usa, sectors, sectorSize, m) == signature
      && Word(s, Slot(usa, m + 1)) == Tail(r, usa, sectors, sectorSize, m)
  {
    var usa, sectors := Word(r, 4), Word(r, 6) - 1;
    TailFits(r, usa, sectors, sectorSize, m);
    SlotsApartFromTails(usa, sectors, sectorSize, m, 0);
    PatchReads(r, usa, signature, TailAt(m, sectorSize));
    StampedIs(Patch(r, usa, signature), usa, sectors, sectorSize, signature, 0, m);
    hide Word, Patch, TailAt;
  }

  /**
   The fixup undoes the protection: a protected record is accepted, and comes back as the record it was
   made from, except for the update sequence array itself.
   */
  lemma FixupUndoesProtection(r: seq<byte>, sectorSize: nat, signature: nat)
    requires sectorSize >= 2 && signature < 0x1_0000 && Layout(r, sectorSize)
    ensures var usa, sectors := Word(r, 4), Word(r, 6) - 1;
      var out := Applied(Protected(r, usa, sectors, sectorSize, signature), sectorSize);
      && out.ok && |out.record| == |r|
      && forall j: nat :: j < |r| && !InArray(j, usa, sectors) ==> out.record[j] == r[j]
  {
    var usa, sectors := Word(r, 4), Word(r, 6) - 1;
    var s := Protected(r, usa, sectors, sectorSize, signature);
    ProtectedHeader(r, sectorSize, signature);
    forall m: nat | m < sectors ensures Tail(s, usa, sectors, sectorSize, m) == signature {
      ProtectedTail(r, sectorSize, signature, m);
    }
    TornIsFirst(s, usa, sectors, sectorSize, signature, 0);
    var out := Fixed(s, usa, sectors, sectorSize, signature, 0);
    hide Fixed, Word, Tail, TailAt, Protected;
    forall j: nat | j < |r| && !InArray(j, usa, sectors) ensures out.record[j] == r[j] {
      RestoredByte(r, sectorSize, signature, j);
    }
    AcceptedExactly(s, sectorSize);
  }

  lemma RestoredByte(r: seq<byte>, sectorSize: nat, signature: nat, j: nat)
    requires sectorSize >= 2 && signature < 0x1_0000 && Layout(r, sectorSize)
    requires j < |r| && !InArray(j, Word(r, 4), Word(r, 6) - 1)
    ensures var usa, sectors := Word(r, 4), Word(r, 6) - 1;
      var s := Protected(r, usa, sectors, sectorSize, signature);
      Fixed(s, usa, sectors, sectorSize, signature, 0).record[j] == r[j]
  {
    var usa, sectors := Word(r, 4), Word(r, 6) - 1;
    var s := Protected(r, usa, sectors, sectorSize, signature);
    var out := Fixed(s, usa, sectors, sectorSize, signature, 0).record;
    hide Fixed;
    if m: nat :| m < sectors && TailAt(m, sectorSize) <= j < TailAt(m, sectorSize) + 2 {
      forall k: nat | k < sectors ensures Tail(s, usa, sectors, sectorSize, k) == signature {
        ProtectedTail(r, sectorSize, signature, k);
      }
      TornIsFirst(s, usa, sectors, sectorSize, signature, 0);
      ProtectedTail(r, sectorSize, signature, m);
      FixedIs(s, usa, sectors, sectorSize, signature, 0, m);
      TailFits(r, usa, sectors, sectorSize, m);
      SameWord(out, r, TailAt(m, sectorSize), j);
    } else {
      OnlyTailsChange(s, usa, sectors, sectorSize, signature, 0, j);
      StampedKeepsByte(Patch(r, usa, signature), usa, sectors, sectorSize, signature, 0, j);
    }
  }

  lemma SameWord(a: seq<byte>, b: seq<byte>, at: nat, j: nat)
    requires at + 2 <= |a| == |b| && Word(a, at) == Word(b, at) && at <= j < at + 2
    ensures a[j] == b[j]
  {
  }

  // ---------------------------------------------------------------- in bytes

  /** Where the two header words stand, and what is asked of them. */
  lemma AcceptedInBytes(r: seq<byte>, sectorSize: nat)
    ensures Accepted(r, sectorSize) <==>
      && |r| >= 44
      && var usa: int, count: int := (r[4] as int) + 256 * (r[5] as int), (r[6] as int) + 256 * (r[7] as int);
         count != 0 && (count - 1) * sectorSize <= |r| && usa + 2 * count <= |r|
  {
  }

  /** A record of 1024 bytes in two sectors of 512, with its array at byte 48. */
  predicate TwoSectors(r: seq<byte>) {
    |r| == 1024 && r[4] == 48 && r[5] == 0 && r[6] == 3 && r[7] == 0
  }

  lemma TwoSectorsAre(r: seq<byte>)
    requires TwoSectors(r)
    ensures Accepted(r, 512) && Word(r, 4) == 48 && Word(r, 6) == 3
    ensures TailAt(0, 512) == 510 && TailAt(1, 512) == 1022 && Fits(r, 48, 2, 512)
  {
  }

  /** When both tails are the two bytes at 48, the first gets the bytes at 50 and the second those at 52. */
  lemma TwoSectorsFixed(r: seq<byte>)
    requires TwoSectors(r)
    ensures Applied(r, 512).ok <==>
      r[510] == r[48] && r[511] == r[49] && r[1022] == r[48] && r[1023] == r[49]
    ensures Applied(r, 512).ok ==>
      Applied(r, 512).record == r[510 := r[50]][511 := r[51]][1022 := r[52]][1023 := r[53]]
  {
    TwoSectorsAre(r);
    var signature := Word(r, 48);
    EqualWords(r, 510, 48);
    EqualWords(r, 1022, 48);
    assert Applied(r, 512) == Fixed(r, 48, 2, 512, signature, 0);
    if Word(r, 510) == signature {
      var first := Patch(r, 510, Word(r, 50));
      PatchWord(r, 510, 50);
      hide Patch;
      assert Fixed(r, 48, 2, 512, signature, 0) == Fixed(first, 48, 2, 512, signature, 1);
      EqualWords(first, 1022, 48);
      if Word(first, 1022) == signature {
        var second := Patch(first, 1022, Word(first, 52));
        PatchWord(first, 1022, 52);
        assert Fixed(first, 48, 2, 512, signature, 1) == Fixed(second, 48, 2, 512, signature, 2);
      }
    }
  }

  lemma EqualWords(r: seq<byte>, a: nat, b: nat)
    requires a + 2 <= |r| && b + 2 <= |r|
    ensures Word(r, a) == Word(r, b) <==> r[a] == r[b] && r[a + 1] == r[b + 1]
  {
    JoinSplits(r[a], r[a + 1]);
    JoinSplits(r[b], r[b + 1]);
  }

  lemma PatchWord(r: seq<byte>, at: nat, from: nat)
    requires at + 2 <= |r| && from + 2 <= |r|
    ensures Patch(r, at, Word(r, from)) == r[at := r[from]][at + 1 := r[from + 1]]
  {
    JoinSplits(r[from], r[from + 1]);
  }
}
