/**
 The string interner of src/core/util/string_intern.cpp. Its abstract state is the list of distinct
 strings in the order of their first appearance; a handle is a 32-bit position in that list.
 */
module StringInterner {
  import opened Decimal
  import opened Integers
  import opened Sequences

  /** A handle is a 32-bit number. */
  type Handle = U32
  const HANDLES: int := TWO_TO_THE_32

  function Position(words: seq<string>, v: string): (i: nat)
    requires v in words
    ensures i < |words| && words[i] == v
  {
    var last := |words| - 1;
    if words[last] == v then last else Position(words[..last], v)
  }

  function Interned(words: seq<string>, v: string): (more: seq<string>)
    ensures v in more && words <= more
  {
    if v in words then words else words + [v]
  }

  /** The handle of a string already in the list; the position is cut to 32 bits. */
  function HandleOf(words: seq<string>, v: string): Handle
    requires v in words
  {
    (Position(words, v) + 1) % HANDLES
  }

  /** What a handle names. Handle 0, and every handle not given out yet, names the empty string. */
  function View(words: seq<string>, h: Handle): string {
    if h == 0 || h > |words| then "" else words[h - 1]
  }

  function TotalLength(words: seq<string>): nat {
    if words == [] then 0 else TotalLength(words[..|words| - 1]) + |words[|words| - 1]|
  }

  // ---------------------------------------------------------------- one call

  lemma InternedStaysDistinct(words: seq<string>, v: string)
    requires Distinct(words)
    ensures Distinct(Interned(words, v))
  {
  }

  lemma HandleIsStable(words: seq<string>, more: seq<string>, v: string)
    requires v in words && words <= more && Distinct(more)
    ensures HandleOf(more, v) == HandleOf(words, v)
  {
  }

  lemma HandleViewsItsString(words: seq<string>, v: string)
    requires v in words && |words| < HANDLES
    ensures HandleOf(words, v) != 0 && View(words, HandleOf(words, v)) == v
  {
  }

  // ---------------------------------------------------------------- histories

  /** The list after interning a history of strings, starting from an empty table. */
  function After(history: seq<string>): (words: seq<string>)
    ensures forall v :: v in words <==> v in history
  {
    if history == [] then [] else
      var last := |history| - 1;
      var before := After(history[..last]);
      assert history == history[..last] + [history[last]];
      Interned(before, history[last])
  }

  /** What the `i`-th call of the history returned. */
  function ResultOf(history: seq<string>, i: nat): Handle
    requires i < |history|
  {
    HandleOf(After(history[..i + 1]), history[i])
  }

  lemma {:induction false} AfterIsDistinct(history: seq<string>)
    ensures Distinct(After(history))
  {
    if history != [] {
      AfterIsDistinct(history[..|history| - 1]);
    }
  }

  lemma {:induction false} AfterGrows(history: seq<string>, k: nat)
    requires k <= |history|
    ensures After(history[..k]) <= After(history)
  {
    if k < |history| {
      var last := |history| - 1;
      AfterGrows(history[..last], k);
      assert history[..last][..k] == history[..k];
    } else {
      assert history[..k] == history;
    }
  }

  lemma ResultLasts(history: seq<string>, i: nat)
    requires i < |history|
    ensures ResultOf(history, i) == HandleOf(After(history), history[i])
  {
    AfterGrows(history, i + 1);
    AfterIsDistinct(history);
    assert history[i] in history[..i + 1];
    HandleIsStable(After(history[..i + 1]), After(history), history[i]);
  }

  /** `size` counts the distinct strings interned. */
  lemma SizeCountsDistinct(history: seq<string>)
    ensures |After(history)| == |set v | v in history|
  {
    AfterIsDistinct(history);
    DistinctCount(After(history));
    assert (set v | v in history) == (set v | v in After(history));
  }

  lemma {:induction false} DistinctCount(words: seq<string>)
    requires Distinct(words)
    ensures |set v | v in words| == |words|
  {
    if words != [] {
      var last := |words| - 1;
      DistinctCount(words[..last]);
      assert words == words[..last] + [words[last]];
      assert (set v | v in words) == (set v | v in words[..last]) + {words[last]};
      assert words[last] !in words[..last];
    }
  }

  /** `memoryFootprint` grows by the length of a string when it is interned for the first time. */
  lemma FootprintCountsDistinct(history: seq<string>, v: string)
    ensures TotalLength(After([])) == 0
    ensures TotalLength(After(history + [v])) == TotalLength(After(history)) + if v in history then 0 else |v|
  {
    assert (history + [v])[..|history|] == history;
    LengthOfOneMore(After(history), v);
  }

  lemma HandlesDiffer(words: seq<string>, u: string, v: string)
    requires Distinct(words) && |words| <= HANDLES && u in words && v in words
    ensures HandleOf(words, u) == HandleOf(words, v) <==> u == v
  {
  }

  lemma HandleAt(words: seq<string>, i: nat)
    requires Distinct(words) && i < |words|
    ensures HandleOf(words, words[i]) == (i + 1) % HANDLES
  {
  }

  lemma Interning(history: seq<string>, v: string) returns (i: nat)
    requires v in After(history)
    ensures i < |history| && history[i] == v && ResultOf(history, i) == HandleOf(After(history), v)
  {
    i :| 0 <= i < |history| && history[i] == v;
    ResultLasts(history, i);
  }

  ghost predicate ResultsNameStrings(history: seq<string>) {
    forall i, j :: 0 <= i < |history| && 0 <= j < |history| ==>
      (ResultOf(history, i) == ResultOf(history, j) <==> history[i] == history[j])
  }

  ghost predicate ResultsViewStrings(history: seq<string>) {
    forall i :: 0 <= i < |history| ==> View(After(history), ResultOf(history, i)) == history[i]
  }

  /**
   Two results are equal exactly when the strings are, for every pair of calls, as long as no more
   than 2^32 distinct strings were interned; with one more, some two strings share a handle.
   */
  lemma HandlesNameStringsExactly(history: seq<string>)
    ensures ResultsNameStrings(history) <==> |After(history)| <= HANDLES
  {
    if |After(history)| <= HANDLES {
      FewStringsAreNamed(history);
    } else {
      ManyStringsClash(history);
    }
  }

  lemma FewStringsAreNamed(history: seq<string>)
    requires |After(history)| <= HANDLES
    ensures ResultsNameStrings(history)
  {
    AfterIsDistinct(history);
    forall i, j | 0 <= i < |history| && 0 <= j < |history|
      ensures ResultOf(history, i) == ResultOf(history, j) <==> history[i] == history[j]
    {
      ResultLasts(history, i);
      ResultLasts(history, j);
      hide After, ResultOf, HandleOf;
      HandlesDiffer(After(history), history[i], history[j]);
    }
  }

  lemma ManyStringsClash(history: seq<string>)
    requires |After(history)| > HANDLES
    ensures !ResultsNameStrings(history)
  {
    var words := After(history);
    AfterIsDistinct(history);
    hide After, ResultOf;
    HandleAt(words, 0);
    HandleAt(words, HANDLES);
    hide HandleOf;
    assert words[0] != words[HANDLES];
    var i := Interning(history, words[0]);
    var j := Interning(history, words[HANDLES]);
    hide Distinct;
    assert ResultOf(history, i) == ResultOf(history, j) && history[i] != history[j];
  }

  /**
   Every result still views its string at the end of the history, exactly when fewer than 2^32 distinct
   strings were interned, or 2^32 of them of which the last is the empty string.
   */
  lemma ViewsLastExactly(history: seq<string>)
    ensures ResultsViewStrings(history) <==>
            (|After(history)| < HANDLES || (|After(history)| == HANDLES && After(history)[HANDLES - 1] == ""))
  {
    var words := After(history);
    AfterIsDistinct(history);
    hide After, ResultOf;
    if |words| < HANDLES || (|words| == HANDLES && words[HANDLES - 1] == "") {
      forall i | 0 <= i < |history| ensures View(words, ResultOf(history, i)) == history[i] {
        ResultLasts(history, i);
        FewWordsView(words, history[i]);
        hide HandleOf, View;
      }
    } else {
      var k := if words[HANDLES - 1] == "" then HANDLES else HANDLES - 1;
      HandleAt(words, k);
      hide HandleOf;
      var i := Interning(history, words[k]);
      assert View(words, ResultOf(history, i)) != history[i];
    }
  }

  lemma FewWordsView(words: seq<string>, v: string)
    requires Distinct(words) && v in words
    requires |words| < HANDLES || (|words| == HANDLES && words[HANDLES - 1] == "")
    ensures View(words, HandleOf(words, v)) == v
  {
  }

  lemma {:induction false} AfterDistinct(history: seq<string>)
    requires Distinct(history)
    ensures After(history) == history
  {
    if history != [] {
      var last := |history| - 1;
      AfterDistinct(history[..last]);
      assert history == history[..last] + [history[last]] && history[last] !in history[..last];
    }
  }

  /** The numbers below `n`, printed. */
  function Numerals(n: nat): (words: seq<string>)
    ensures |words| == n
  {
    seq(n, i requires 0 <= i < n => PrintNat(i))
  }

  lemma NumeralsDiffer(n: nat)
    ensures Distinct(Numerals(n))
  {
    forall i, k | 0 <= i < k < n ensures Numerals(n)[i] != Numerals(n)[k] {
      ValueOfPrinted(i);
      ValueOfPrinted(k);
    }
  }

  lemma NumeralsAreInterned(n: nat, i: nat)
    requires i < n
    ensures ResultOf(Numerals(n), i) == (i + 1) % HANDLES && Numerals(n)[i] != ""
  {
    NumeralsDiffer(n);
    AfterDistinct(Numerals(n));
    HandleAt(Numerals(n), i);
    ResultLasts(Numerals(n), i);
  }

  /** The numbers up to 2^32: the first and the last share a handle, and the last but one views as the empty string. */
  lemma NumeralsClash()
    ensures var words := Numerals(HANDLES + 1);
      && ResultOf(words, 0) == ResultOf(words, HANDLES) && words[0] != words[HANDLES]
      && View(After(words), ResultOf(words, HANDLES - 1)) == "" && words[HANDLES - 1] != ""
  {
    hide Numerals, ResultOf, After;
    NumeralsAreInterned(HANDLES + 1, 0);
    NumeralsAreInterned(HANDLES + 1, HANDLES);
    NumeralsAreInterned(HANDLES + 1, HANDLES - 1);
    NumeralsDiffer(HANDLES + 1);
  }

  // ---------------------------------------------------------------- the class

  ghost predicate Indexes(index: map<string, Handle>, words: seq<string>) {
    && (forall v :: v in index <==> v in words)
    && (forall v :: v in index ==> index[v] == HandleOf(words, v))
  }

  lemma IndexesOneMore(index: map<string, Handle>, words: seq<string>, v: string)
    requires Indexes(index, words) && Distinct(words) && v !in words
    ensures Indexes(index[v := (|words| + 1) % HANDLES], words + [v])
  {
  }

  lemma InternedNew(words: seq<string>, v: string)
    requires v !in words && Distinct(words)
    ensures Interned(words, v) == words + [v] && HandleOf(words + [v], v) == (|words| + 1) % HANDLES
  {
  }

  lemma LengthOfOneMore(words: seq<string>, v: string)
    ensures TotalLength(words + [v]) == TotalLength(words) + |v|
  {
  }

  class Interner {
    var index: map<string, Handle>
    var storage: seq<string>
    var bytes: nat

    ghost predicate Valid()
      reads this
    {
      && |storage| > 0 && storage[0] == ""
      && Distinct(storage[1..])
      && Indexes(index, storage[1..])
      && bytes == TotalLength(storage[1..])
    }

    ghost function Words(): seq<string>
      requires Valid()
      reads this
    {
      storage[1..]
    }

    constructor ()
      ensures Valid() && Words() == []
    {
      index, storage, bytes := map[], [""], 0;
    }

    method Intern(value: string) returns (id: Handle)
      requires Valid()
      modifies this
      ensures Valid() && Words() == Interned(old(Words()), value)
      ensures id == HandleOf(Words(), value)
    {
      if value in index {
        return index[value];
      }
      hide HandleOf, TotalLength, Distinct, Indexes, Interned;
      ghost var words := storage[1..];
      assert |storage| == |words| + 1;
      id := |storage| % HANDLES;
      storage := storage + [value];
      bytes := bytes + |value|;
      index := index[value := id];
      assert storage[1..] == words + [value];
      IndexesOneMore(old(index), words, value);
      LengthOfOneMore(words, value);
      InternedStaysDistinct(words, value);
      InternedNew(words, value);
    }

    method Viewed(handle: Handle) returns (text: string)
      requires Valid()
      ensures text == View(Words(), handle)
    {
      if handle >= |storage| {
        return "";
      }
      text := storage[handle];
    }

    method Size() returns (n: nat)
      requires Valid()
      ensures n == |Words()|
    {
      n := |storage| - 1;
    }

    method MemoryFootprint() returns (n: nat)
      requires Valid()
      ensures n == TotalLength(Words())
    {
      n := bytes;
    }
  }
}
