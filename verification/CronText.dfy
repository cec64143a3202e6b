/**
 Cron expressions as a user writes them: the syntax of the parts of a field, what each stands for, and
 the proof that the parser of module Cron reads exactly that.
 */
module CronText {
  import opened Cron
  import opened Decimal
  import opened Wrappers

  // ---------------------------------------------------------------- one part

  predicate Numeral(text: string) {
    text != "" && AllDigits(text)
  }

  predicate SmallNumeral(text: string) {
    Numeral(text) && NatValue(text) < INT_LIMIT
  }

  datatype Base = Star | Number(n: string) | Span(lo: string, hi: string)

  /** A star, a number or a span of numbers, with an optional step. Numbers may have leading zeros. */
  datatype Part = Part(base: Base, step: Option<string>) {
    predicate Valid() {
      && (base.Number? ==> Numeral(base.n))
      && (base.Span? ==> Numeral(base.lo) && Numeral(base.hi))
      && (step.Some? ==> Numeral(step.value))
    }
  }

  function BaseText(b: Base): string {
    match b
    case Star => "*"
    case Number(n) => n
    case Span(lo, hi) => lo + "-" + hi
  }

  function PartText(p: Part): string {
    BaseText(p.base) + (if p.step.None? then "" else "/" + p.step.value)
  }

  /** The stepped range a part stands for. */
  function Meaning(p: Part, minValue: int, maxValue: int): Range
    requires p.Valid()
  {
    var step := if p.step.None? then 1 else NatValue(p.step.value);
    match p.base
    case Star => Range(minValue, maxValue, step)
    case Number(n) => Range(NatValue(n), NatValue(n), step)
    case Span(lo, hi) => Range(NatValue(lo), NatValue(hi), step)
  }

  /** The part is in bounds, and its step is an `int`. */
  predicate Fits(p: Part, minValue: int, maxValue: int)
    requires p.Valid()
  {
    InBounds(Meaning(p, minValue, maxValue), minValue, maxValue) && Meaning(p, minValue, maxValue).step < INT_LIMIT
  }

  /** The values a part stands for. */
  predicate Denotes(p: Part, minValue: int, maxValue: int, v: int)
    requires p.Valid()
  {
    var range := Meaning(p, minValue, maxValue);
    range.step >= 1 && range.lo <= v <= range.hi && (v - range.lo) % range.step == 0
  }

  lemma FromCharsNumeral(text: string)
    requires Numeral(text)
    ensures FromChars(text) == if NatValue(text) < INT_LIMIT then Some(NatValue(text)) else None
  {
    DigitsAndMore(text, "");
    assert text + "" == text && text[0..] == text && text[..|text|] == text;
    assert IsDigit(text[0]);
    hide NatValue;
  }

  lemma {:induction false} FoundAt(before: string, c: char, after: string)
    requires forall i :: 0 <= i < |before| ==> before[i] != c
    ensures IndexOf(before, c) == |before|
    ensures IndexOf(before + [c] + after, c) == |before|
  {
    if before != "" {
      FoundAt(before[1..], c, after);
      assert (before + [c] + after)[1..] == before[1..] + [c] + after;
    }
  }

  lemma NumeralHasNo(text: string, c: char)
    requires Numeral(text) && !IsDigit(c)
    ensures forall i :: 0 <= i < |text| ==> text[i] != c
  {
  }

  /** The text of a part comes apart at its slash. */
  lemma PartApart(p: Part)
    requires p.Valid()
    ensures var slash := IndexOf(PartText(p), '/');
      && PartText(p)[..slash] == BaseText(p.base)
      && (slash < |PartText(p)| <==> p.step.Some?)
      && (p.step.Some? ==> PartText(p)[slash + 1..] == p.step.value)
  {
    var base := BaseText(p.base);
    assert forall i :: 0 <= i < |base| ==> base[i] != '/';
    if p.step.Some? {
      FoundAt(base, '/', p.step.value);
      assert PartText(p) == base + ['/'] + p.step.value;
    } else {
      FoundAt(base, '/', "");
      assert PartText(p) == base;
    }
  }

  /** How a base is read: a number that is no `int` leaves the bound of the field in its place. */
  lemma BaseReads(b: Base, step: int, minValue: int, maxValue: int)
    requires Part(b, None).Valid()
    ensures RangeWritten(BaseText(b), step, minValue, maxValue) ==
      match b
      case Star => Range(minValue, maxValue, step)
      case Number(n) => Range(Clipped(n, minValue), Clipped(n, minValue), step)
      case Span(lo, hi) => Range(Clipped(lo, minValue), Clipped(hi, maxValue), step)
  {
    var text := BaseText(b);
    match b
    case Star =>
    case Number(n) =>
      NumeralHasNo(n, '-');
      FoundAt(n, '-', "");
      FromCharsNumeral(n);
      assert IsDigit(text[0]);
      hide FromChars, NatValue, IndexOf;
    case Span(lo, hi) =>
      NumeralHasNo(lo, '-');
      FoundAt(lo, '-', hi);
      assert text == lo + ['-'] + hi && text[..|lo|] == lo && text[|lo| + 1..] == hi;
      FromCharsNumeral(lo);
      FromCharsNumeral(hi);
      assert IsDigit(text[0]);
      hide FromChars, NatValue, IndexOf;
  }

  function Clipped(numeral: string, before: int): int
    requires Numeral(numeral)
  {
    if NatValue(numeral) < INT_LIMIT then NatValue(numeral) else before
  }

  predicate SmallBase(b: Base)
    requires Part(b, None).Valid()
  {
    match b
    case Star => true
    case Number(n) => SmallNumeral(n)
    case Span(lo, hi) => SmallNumeral(lo) && SmallNumeral(hi)
  }

  /** A part is read as the range it stands for exactly when it fits. */
  lemma PartIsReadExactly(p: Part, minValue: int, maxValue: int)
    requires p.Valid() && maxValue < INT_LIMIT
    ensures var read := RangeOf(PartText(p), minValue, maxValue);
      && (read == Ok(Meaning(p, minValue, maxValue)) <==> Fits(p, minValue, maxValue))
      && (SmallBase(p.base) ==> (read.Ok? <==> Fits(p, minValue, maxValue)))
  {
    PartApart(p);
    if p.step.Some? {
      FromCharsNumeral(p.step.value);
    }
    var step := if p.step.None? then 1 else NatValue(p.step.value);
    BaseReads(p.base, step, minValue, maxValue);
    hide FromChars, NatValue, IndexOf, PartText, BaseText, RangeWritten;
  }

  // ---------------------------------------------------------------- any text

  predicate IsBase(text: string) {
    var dash := IndexOf(text, '-');
    text == "*" || SmallNumeral(text) || (dash < |text| && SmallNumeral(text[..dash]) && SmallNumeral(text[dash + 1..]))
  }

  /** A base and possibly a step, all its numbers being `int`s. */
  predicate WellWritten(text: string) {
    var slash := IndexOf(text, '/');
    IsBase(text[..slash]) && (slash < |text| ==> SmallNumeral(text[slash + 1..]))
  }

  function BaseOf(text: string): (b: Base)
    requires IsBase(text)
    ensures Part(b, None).Valid() && SmallBase(b) && BaseText(b) == text
  {
    var dash := IndexOf(text, '-');
    if text == "*" then Star
    else if SmallNumeral(text) then Number(text)
    else
      assert text == text[..dash] + "-" + text[dash + 1..];
      Span(text[..dash], text[dash + 1..])
  }

  function PartOf(text: string): (p: Part)
    requires WellWritten(text)
    ensures p.Valid() && SmallBase(p.base) && PartText(p) == text
  {
    var slash := IndexOf(text, '/');
    var base := BaseOf(text[..slash]);
    if slash < |text| then
      assert text == text[..slash] + "/" + text[slash + 1..];
      Part(base, Some(text[slash + 1..]))
    else
      assert text[..slash] == text;
      Part(base, None)
  }

  lemma BaseTextIsBase(b: Base)
    requires Part(b, None).Valid() && SmallBase(b)
    ensures IsBase(BaseText(b))
  {
    if b.Span? {
      NumeralHasNo(b.lo, '-');
      FoundAt(b.lo, '-', b.hi);
      var text := BaseText(b);
      assert text == b.lo + ['-'] + b.hi && text[..|b.lo|] == b.lo && text[|b.lo| + 1..] == b.hi;
      hide NatValue, IndexOf;
    }
  }

  lemma PartTextIsWellWritten(p: Part)
    requires p.Valid() && SmallBase(p.base) && (p.step.Some? ==> SmallNumeral(p.step.value))
    ensures WellWritten(PartText(p))
  {
    PartApart(p);
    BaseTextIsBase(p.base);
    hide IndexOf, PartText, BaseText, IsBase, NatValue;
  }

  /** The text is written as a part whose range is the one it is read as. */
  ghost predicate ReadAsWritten(text: string, minValue: int, maxValue: int) {
    exists p: Part ::
      p.Valid() && PartText(p) == text && RangeOf(text, minValue, maxValue) == Ok(Meaning(p, minValue, maxValue))
  }

  /** An accepted text is read as it is written exactly when it follows the syntax with numbers that are `int`s. */
  lemma ReadAsWrittenExactly(text: string, minValue: int, maxValue: int)
    requires RangeOf(text, minValue, maxValue).Ok? && maxValue < INT_LIMIT
    ensures ReadAsWritten(text, minValue, maxValue) <==> WellWritten(text)
  {
    if ReadAsWritten(text, minValue, maxValue) {
      var p: Part :| p.Valid() && PartText(p) == text
                     && RangeOf(text, minValue, maxValue) == Ok(Meaning(p, minValue, maxValue));
      PartIsReadExactly(p, minValue, maxValue);
      PartTextIsWellWritten(p);
    }
    if WellWritten(text) {
      var p := PartOf(text);
      PartIsReadExactly(p, minValue, maxValue);
    }
  }

  /** A word that starts with no digit and has no mark in it is accepted, and read as the least value of the field. */
  lemma WordIsReadAsLeast(text: string, minValue: int, maxValue: int)
    requires text != "*" && (text == "" || !IsDigit(text[0])) && minValue <= maxValue
    requires forall i :: 0 <= i < |text| ==> text[i] != '/' && text[i] != '-'
    ensures RangeOf(text, minValue, maxValue) == Ok(Range(minValue, minValue, 1)) && !WellWritten(text)
  {
    FoundAt(text, '/', "");
    FoundAt(text, '-', "");
    assert text[..|text|] == text && text[0..] == text;
    assert FromChars(text) == None;
    hide FromChars, IndexOf;
  }

  /** So is a number that is no `int`. */
  lemma HugeIsReadAsLeast(text: string, minValue: int, maxValue: int)
    requires Numeral(text) && NatValue(text) >= INT_LIMIT && minValue <= maxValue
    ensures RangeOf(text, minValue, maxValue) == Ok(Range(minValue, minValue, 1)) && !WellWritten(text)
  {
    var p := Part(Number(text), None);
    assert PartText(p) == text;
    PartApart(p);
    BaseReads(p.base, 1, minValue, maxValue);
    NumeralHasNo(text, '-');
    FoundAt(text, '-', "");
    assert IsDigit(text[0]);
    hide FromChars, NatValue, IndexOf, RangeWritten;
  }

  /** The minutes field of `x` is accepted as minute 0. */
  lemma XIsMinuteZero()
    ensures FieldValues("x", 0, 59) == Ok([0]) && !WellWritten("x")
  {
    WordIsReadAsLeast("x", 0, 59);
    assert Commas("x") == "x";
    WordsOfWord("x", "");
    hide RangeOf, Commas, Words, WellWritten;
    assert ValuesOf([], 0, 59) == Ok([]);
    assert ["x"][..0] == [];
    ListedOne(0);
    var none: seq<int> := [];
    assert ValuesOf(["x"], 0, 59) == Ok(none + Listed(0, 0, 1)) && none + [0] == [0];
    assert "x"[0] != '*';
  }

  // ---------------------------------------------------------------- fields

  /** Texts with commas between them. */
  function Joined(texts: seq<string>): string
    requires texts != []
  {
    if |texts| == 1 then texts[0] else texts[0] + ("," + Joined(texts[1..]))
  }

  predicate IsWord(word: string) {
    word != "" && forall i :: 0 <= i < |word| ==> !Blank(word[i])
  }

  predicate IsPlain(text: string) {
    IsWord(text) && forall i :: 0 <= i < |text| ==> text[i] != ','
  }

  lemma {:induction false} WordThen(word: string, rest: string)
    requires (forall i :: 0 <= i < |word| ==> !Blank(word[i])) && (rest == "" || Blank(rest[0]))
    ensures WordLength(word + rest) == |word|
  {
    if word == "" {
      assert word + rest == rest;
    } else {
      WordThen(word[1..], rest);
      assert (word + rest)[1..] == word[1..] + rest;
    }
  }

  lemma WordsOfWord(word: string, rest: string)
    requires IsWord(word)
    ensures Words(word) == [word]
    ensures Words(word + (" " + rest)) == [word] + Words(rest)
  {
    WordThen(word, "");
    assert word + "" == word;
    WordThen(word, " " + rest);
    assert (word + (" " + rest))[|word|..] == " " + rest;
    assert (" " + rest)[1..] == rest;
  }

  lemma {:induction false} CommasOf(word: string, rest: string)
    requires forall i :: 0 <= i < |word| ==> word[i] != ','
    ensures Commas(word + rest) == word + Commas(rest)
  {
    if word == "" {
      assert word + rest == rest;
    } else {
      CommasOf(word[1..], rest);
      assert (word + rest)[1..] == word[1..] + rest;
    }
  }

  lemma {:induction false} WordsOfJoined(texts: seq<string>)
    requires texts != [] && forall i :: 0 <= i < |texts| ==> IsPlain(texts[i])
    ensures Words(Commas(Joined(texts))) == texts
  {
    var first := texts[0];
    assert IsPlain(first);
    if |texts| == 1 {
      CommasOf(first, "");
      assert first + "" == first;
      WordsOfWord(first, "");
    } else {
      var rest := Joined(texts[1..]);
      WordsOfJoined(texts[1..]);
      hide Words;
      CommasOf(first, "," + rest);
      assert ("," + rest)[1..] == rest;
      WordsOfWord(first, Commas(rest));
      assert texts == [first] + texts[1..];
    }
  }

  function Texts(parts: seq<Part>): (texts: seq<string>)
    ensures |texts| == |parts| && forall i :: 0 <= i < |parts| ==> texts[i] == PartText(parts[i])
  {
    seq(|parts|, i requires 0 <= i < |parts| => PartText(parts[i]))
  }

  lemma PartIsPlain(p: Part)
    requires p.Valid()
    ensures IsPlain(PartText(p))
  {
  }

  function FieldText(parts: seq<Part>): string
    requires parts != []
  {
    Joined(Texts(parts))
  }

  ghost predicate AllValid(parts: seq<Part>) {
    forall i :: 0 <= i < |parts| ==> parts[i].Valid()
  }

  ghost predicate AllFit(parts: seq<Part>, minValue: int, maxValue: int)
    requires AllValid(parts)
  {
    forall i :: 0 <= i < |parts| ==> Fits(parts[i], minValue, maxValue)
  }

  ghost predicate SomeDenotes(parts: seq<Part>, minValue: int, maxValue: int, v: int)
    requires AllValid(parts)
  {
    exists i :: 0 <= i < |parts| && Denotes(parts[i], minValue, maxValue, v)
  }

  /** The values that some part stands for. */
  ghost function Denoted(parts: seq<Part>, minValue: int, maxValue: int): set<int>
    requires AllValid(parts)
  {
    set v: int | minValue <= v <= maxValue && SomeDenotes(parts, minValue, maxValue, v)
  }

  /** Whatever stands between the parts of a field, it is read as what its parts stand for. */
  lemma PartsAreRead(field: string, parts: seq<Part>, minValue: int, maxValue: int, v: int)
    requires Words(Commas(field)) == Texts(parts) && AllValid(parts) && minValue <= maxValue < INT_LIMIT
    ensures var values := FieldValues(field, minValue, maxValue);
      && (AllFit(parts, minValue, maxValue) ==>
            values.Ok? && (v in values.value <==> SomeDenotes(parts, minValue, maxValue, v)))
      && ((forall i :: 0 <= i < |parts| ==> SmallBase(parts[i].base)) ==>
            (values.Ok? <==> AllFit(parts, minValue, maxValue)))
  {
    FieldYields(field, minValue, maxValue, v);
    var texts := Texts(parts);
    forall i | 0 <= i < |parts| ensures
      && (Fits(parts[i], minValue, maxValue) ==>
            && RangeOf(texts[i], minValue, maxValue).Ok?
            && (Yields(texts[i], minValue, maxValue, v) <==> Denotes(parts[i], minValue, maxValue, v)))
      && (SmallBase(parts[i].base) ==>
            (RangeOf(texts[i], minValue, maxValue).Ok? <==> Fits(parts[i], minValue, maxValue)))
    {
      PartIsReadExactly(parts[i], minValue, maxValue);
    }
    hide FieldValues, Words, Commas, RangeOf, PartText, Fits, Denotes, Yields, SmallBase;
  }

  /**
   A field of parts with commas between them is accepted when all parts are in bounds, and only then if
   its numbers are `int`s; it yields the union of the stepped ranges they stand for.
   */
  lemma FieldDenotes(parts: seq<Part>, minValue: int, maxValue: int, v: int)
    requires parts != [] && AllValid(parts) && minValue <= maxValue < INT_LIMIT
    ensures var values := FieldValues(FieldText(parts), minValue, maxValue);
      && (AllFit(parts, minValue, maxValue) ==>
            values.Ok? && (v in values.value <==> SomeDenotes(parts, minValue, maxValue, v)))
      && ((forall i :: 0 <= i < |parts| ==> SmallBase(parts[i].base)) ==>
            (values.Ok? <==> AllFit(parts, minValue, maxValue)))
  {
    forall i | 0 <= i < |parts| ensures IsPlain(Texts(parts)[i]) {
      PartIsPlain(parts[i]);
    }
    WordsOfJoined(Texts(parts));
    PartsAreRead(FieldText(parts), parts, minValue, maxValue, v);
  }

  // ---------------------------------------------------------------- lists of numbers

  function Numbers(values: seq<nat>): (parts: seq<Part>)
    ensures |parts| == |values| && AllValid(parts)
    ensures forall i :: 0 <= i < |values| ==> parts[i] == Part(Number(PrintNat(values[i])), None)
  {
    seq(|values|, i requires 0 <= i < |values| => Part(Number(PrintNat(values[i])), None))
  }

  function SetOf(values: seq<nat>): set<int> {
    set v: int | v in values
  }

  /** Any list of values within the bounds, written with commas, stands for exactly the set of those values. */
  lemma NumbersDenote(values: seq<nat>, minValue: int, maxValue: int)
    requires forall i :: 0 <= i < |values| ==> minValue <= values[i] <= maxValue
    requires maxValue < INT_LIMIT
    ensures AllFit(Numbers(values), minValue, maxValue)
    ensures Denoted(Numbers(values), minValue, maxValue) == SetOf(values)
  {
    var parts := Numbers(values);
    forall i | 0 <= i < |parts| ensures Meaning(parts[i], minValue, maxValue) == Range(values[i], values[i], 1) {
      ValueOfPrinted(values[i]);
    }
    hide PrintNat, NatValue, Numbers, Meaning;
    forall v: int ensures v in Denoted(parts, minValue, maxValue) <==> v in values {
      if v in values {
        var i :| 0 <= i < |values| && values[i] == v;
        assert Denotes(parts[i], minValue, maxValue, v);
      }
    }
  }

  lemma OneValueMore(texts: seq<string>, before: seq<int>, n: int, minValue: int, maxValue: int)
    requires texts != [] && ValuesOf(texts[..|texts| - 1], minValue, maxValue) == Ok(before)
    requires RangeOf(texts[|texts| - 1], minValue, maxValue) == Ok(Range(n, n, 1))
    ensures ValuesOf(texts, minValue, maxValue) == Ok(before + [n])
  {
    hide RangeOf;
    ListedOne(n);
  }

  lemma NumberIsRead(n: nat, minValue: int, maxValue: int)
    requires minValue <= n <= maxValue < INT_LIMIT
    ensures RangeOf(PartText(Part(Number(PrintNat(n)), None)), minValue, maxValue) == Ok(Range(n, n, 1))
  {
    hide RangeOf, PrintNat, NatValue;
    ValueOfPrinted(n);
    PartIsReadExactly(Part(Number(PrintNat(n)), None), minValue, maxValue);
  }

  lemma NumbersSplit(values: seq<nat>)
    requires values != []
    ensures var last := |values| - 1;
      && Texts(Numbers(values))[..last] == Texts(Numbers(values[..last]))
      && Texts(Numbers(values))[last] == PartText(Part(Number(PrintNat(values[last])), None))
  {
    hide PrintNat, PartText;
  }

  lemma LastNumber(values: seq<nat>, minValue: int, maxValue: int)
    requires values != [] && maxValue < INT_LIMIT && minValue <= values[|values| - 1] <= maxValue
    requires ValuesOf(Texts(Numbers(values[..|values| - 1])), minValue, maxValue) == Ok(values[..|values| - 1])
    ensures ValuesOf(Texts(Numbers(values)), minValue, maxValue) == Ok(values)
  {
    hide RangeOf, PrintNat, ValuesOf, Texts, Numbers, PartText;
    var last := |values| - 1;
    NumberIsRead(values[last], minValue, maxValue);
    NumbersSplit(values);
    OneValueMore(Texts(Numbers(values)), values[..last], values[last], minValue, maxValue);
    assert values == values[..last] + [values[last]];
  }

  lemma {:induction false} NumbersAreRead(values: seq<nat>, minValue: int, maxValue: int)
    requires maxValue < INT_LIMIT && forall i :: 0 <= i < |values| ==> minValue <= values[i] <= maxValue
    ensures ValuesOf(Texts(Numbers(values)), minValue, maxValue) == Ok(values)
  {
    if values != [] {
      NumbersAreRead(values[..|values| - 1], minValue, maxValue);
      LastNumber(values, minValue, maxValue);
    }
  }

  /** Any non-empty list of values within the bounds, written with commas, is parsed back to itself, in order. */
  lemma ListParsesBack(values: seq<nat>, minValue: int, maxValue: int)
    requires values != [] && maxValue < INT_LIMIT
    requires forall i :: 0 <= i < |values| ==> minValue <= values[i] <= maxValue
    ensures FieldValues(FieldText(Numbers(values)), minValue, maxValue) == Ok(values)
  {
    var texts := Texts(Numbers(values));
    forall i | 0 <= i < |texts| ensures IsPlain(texts[i]) {
      PartIsPlain(Numbers(values)[i]);
    }
    WordsOfJoined(texts);
    NumbersAreRead(values, minValue, maxValue);
    assert IsDigit(PrintNat(values[0])[0]);
    hide Words, Commas, ValuesOf, PrintNat;
    assert FieldText(Numbers(values))[0] == PrintNat(values[0])[0];
  }

  lemma StarDenotes(minValue: int, maxValue: int)
    requires minValue <= maxValue
    ensures AllValid(STAR) && AllFit(STAR, minValue, maxValue)
    ensures forall v: int :: v in Denoted(STAR, minValue, maxValue) <==> minValue <= v <= maxValue
  {
    forall v: int | minValue <= v <= maxValue ensures SomeDenotes(STAR, minValue, maxValue, v) {
      assert Denotes(STAR[0], minValue, maxValue, v);
    }
  }

  const STAR: seq<Part> := [Part(Star, None)]

  // ---------------------------------------------------------------- five fields

  datatype Schedule = Schedule(
    minutes: seq<Part>, hours: seq<Part>, daysOfMonth: seq<Part>, months: seq<Part>, daysOfWeek: seq<Part>)
  {
    ghost predicate Valid() {
      && IsField(minutes, 0, 59) && IsField(hours, 0, 23) && IsField(daysOfMonth, 1, 31)
      && IsField(months, 1, 12) && IsField(daysOfWeek, 0, 6)
    }
  }

  ghost predicate IsField(parts: seq<Part>, minValue: int, maxValue: int) {
    parts != [] && AllValid(parts) && AllFit(parts, minValue, maxValue)
  }

  function Written(s: Schedule): string
    requires s.minutes != [] && s.hours != [] && s.daysOfMonth != [] && s.months != [] && s.daysOfWeek != []
  {
    FieldText(s.minutes) + (" " + (FieldText(s.hours) + (" " + (FieldText(s.daysOfMonth) + (" " +
      (FieldText(s.months) + (" " + FieldText(s.daysOfWeek))))))))
  }

  lemma {:induction false} JoinedIsWord(texts: seq<string>)
    requires texts != [] && forall i :: 0 <= i < |texts| ==> IsPlain(texts[i])
    ensures IsWord(Joined(texts))
  {
    assert IsPlain(texts[0]);
    if |texts| > 1 {
      JoinedIsWord(texts[1..]);
    }
  }

  lemma FieldIsWord(parts: seq<Part>)
    requires parts != [] && AllValid(parts)
    ensures IsWord(FieldText(parts))
  {
    forall i | 0 <= i < |parts| ensures IsPlain(Texts(parts)[i]) {
      PartIsPlain(parts[i]);
    }
    JoinedIsWord(Texts(parts));
  }

  lemma FiveWords(a: string, b: string, c: string, d: string, e: string)
    requires IsWord(a) && IsWord(b) && IsWord(c) && IsWord(d) && IsWord(e)
    ensures Words(a + (" " + (b + (" " + (c + (" " + (d + (" " + e)))))))) == [a, b, c, d, e]
  {
    hide Words;
    WordsOfWord(e, "");
    WordsOfWord(d, e);
    WordsOfWord(c, d + (" " + e));
    WordsOfWord(b, c + (" " + (d + (" " + e))));
    WordsOfWord(a, b + (" " + (c + (" " + (d + (" " + e))))));
    hide IsWord;
    assert [a] + ([b] + ([c] + ([d] + [e]))) == [a, b, c, d, e];
  }

  lemma WordsWritten(s: Schedule)
    requires s.Valid()
    ensures Words(Written(s)) == [FieldText(s.minutes), FieldText(s.hours), FieldText(s.daysOfMonth),
                                  FieldText(s.months), FieldText(s.daysOfWeek)]
  {
    FieldIsWord(s.minutes);
    FieldIsWord(s.hours);
    FieldIsWord(s.daysOfMonth);
    FieldIsWord(s.months);
    FieldIsWord(s.daysOfWeek);
    hide FieldText, Words, IsWord;
    FiveWords(FieldText(s.minutes), FieldText(s.hours), FieldText(s.daysOfMonth), FieldText(s.months),
              FieldText(s.daysOfWeek));
  }

  /** The set of values of an accepted field. */
  function FieldSet(field: string, minValue: int, maxValue: int): set<int>
    requires FieldValues(field, minValue, maxValue).Ok?
  {
    set v | v in FieldValues(field, minValue, maxValue).value
  }

  lemma FieldParses(parts: seq<Part>, minValue: int, maxValue: int)
    requires IsField(parts, minValue, maxValue) && minValue <= maxValue < INT_LIMIT
    ensures FieldValues(FieldText(parts), minValue, maxValue).Ok?
    ensures FieldSet(FieldText(parts), minValue, maxValue) == Denoted(parts, minValue, maxValue)
  {
    FieldDenotes(parts, minValue, maxValue, 0);
    forall v ensures v in FieldSet(FieldText(parts), minValue, maxValue) <==> v in Denoted(parts, minValue, maxValue) {
      FieldDenotes(parts, minValue, maxValue, v);
      hide FieldValues, FieldText;
      if v in FieldSet(FieldText(parts), minValue, maxValue) {
        ValuesInBounds(FieldText(parts), minValue, maxValue, v);
      }
    }
  }

  /** The values of the five fields, as sets. */
  datatype Values = Values(
    minutes: set<int>, hours: set<int>, daysOfMonth: set<int>, months: set<int>, daysOfWeek: set<int>)
  {
    predicate InBounds() {
      && (forall v :: v in minutes ==> 0 <= v <= 59) && (forall v :: v in hours ==> 0 <= v <= 23)
      && (forall v :: v in daysOfMonth ==> 1 <= v <= 31) && (forall v :: v in months ==> 1 <= v <= 12)
      && (forall v :: v in daysOfWeek ==> 0 <= v <= 6)
    }
  }

  function ReadValues(text: string): Values
    requires Parsed(text).Ok?
  {
    var w := Words(text);
    Values(FieldSet(w[0], 0, 59), FieldSet(w[1], 0, 23), FieldSet(w[2], 1, 31), FieldSet(w[3], 1, 12),
           FieldSet(w[4], 0, 6))
  }

  /** What an accepted text is parsed to: bits at its values, except day 31 and month 12, which have none. */
  lemma ParsedIs(text: string)
    requires Parsed(text).Ok?
    ensures var v := ReadValues(text);
      && v.InBounds()
      && Parsed(text).value == Expression(v.minutes, v.hours, v.daysOfMonth - {31}, v.months - {12}, v.daysOfWeek)
  {
    var w := Words(text);
    hide Words, FieldValues;
    BitsAre(w[0], 60, 0, 59);
    BitsAre(w[1], 24, 0, 23);
    BitsAre(w[2], 31, 1, 31);
    BitsAre(w[3], 12, 1, 12);
    BitsAre(w[4], 7, 0, 6);
    hide Bits, FieldSet;
  }

  lemma BitsAre(field: string, size: int, minValue: int, maxValue: int)
    requires FieldValues(field, minValue, maxValue).Ok? && minValue >= 0 && (size == maxValue || size == maxValue + 1)
    ensures forall v :: v in FieldSet(field, minValue, maxValue) ==> minValue <= v <= maxValue
    ensures Bits(FieldValues(field, minValue, maxValue).value, size) ==
      if size == maxValue then FieldSet(field, minValue, maxValue) - {maxValue} else FieldSet(field, minValue, maxValue)
  {
    hide FieldValues;
    forall v | v in FieldValues(field, minValue, maxValue).value ensures minValue <= v <= maxValue {
      ValuesInBounds(field, minValue, maxValue, v);
    }
  }

  /** What the schedule stands for. */
  ghost function Denotation(s: Schedule): Values
    requires s.Valid()
  {
    Values(Denoted(s.minutes, 0, 59), Denoted(s.hours, 0, 23), Denoted(s.daysOfMonth, 1, 31),
           Denoted(s.months, 1, 12), Denoted(s.daysOfWeek, 0, 6))
  }

  /** A written schedule is accepted, and read as what it stands for, field by field. */
  lemma WrittenParses(s: Schedule)
    requires s.Valid()
    ensures Parsed(Written(s)).Ok? && ReadValues(Written(s)) == Denotation(s)
  {
    WordsWritten(s);
    FieldParses(s.minutes, 0, 59);
    FieldParses(s.hours, 0, 23);
    FieldParses(s.daysOfMonth, 1, 31);
    FieldParses(s.months, 1, 12);
    FieldParses(s.daysOfWeek, 0, 6);
    hide Written, Words, FieldValues, FieldText, FieldSet, Denoted, IsField;
  }

  lemma DenotedIsNotEmpty(parts: seq<Part>, minValue: int, maxValue: int)
    requires IsField(parts, minValue, maxValue)
    ensures Denoted(parts, minValue, maxValue) != {}
  {
    var lo := Meaning(parts[0], minValue, maxValue).lo;
    assert Denotes(parts[0], minValue, maxValue, lo);
    assert lo in Denoted(parts, minValue, maxValue);
  }
}
