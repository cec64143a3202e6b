/**
 The cron parser of src/core/scheduler/cron.cpp: what it reads in the parts of a field, and how the five
 fields become sets of bits.
 */
module Cron {
  import opened Calendar
  import opened Decimal
  import opened Wrappers

  datatype Error = BadStep | OutOfBounds | NotFiveFields

  // ---------------------------------------------------------------- numbers and words

  const INT_LIMIT: int := 0x8000_0000

  /** `std::from_chars` for an `int`: it stops at the first other character and fails outside 32 signed bits. */
  function FromChars(text: string): Option<int> {
    var sign := if text != "" && text[0] == '-' then 1 else 0;
    var digits := text[sign..][..DigitsLength(text[sign..])];
    if digits == "" then None
    else
      var v: int := if sign == 1 then 0 - NatValue(digits) else NatValue(digits);
      if -INT_LIMIT <= v < INT_LIMIT then Some(v) else None
  }

  /** On failure the variable keeps the value it had. */
  function FromCharsOr(text: string, before: int): int {
    match FromChars(text)
    case Some(v) => v
    case None => before
  }

  predicate Blank(c: char) {
    c == ' ' || c == '\t' || c == '\n' || c == '\U{000B}' || c == '\U{000C}' || c == '\r'
  }

  function WordLength(text: string): (n: nat)
    ensures n <= |text|
    ensures forall i :: 0 <= i < n ==> !Blank(text[i])
    ensures n < |text| ==> Blank(text[n])
  {
    if text == "" || Blank(text[0]) then 0 else 1 + WordLength(text[1..])
  }

  /** What `>>` into a string takes off a stream, one word after another. */
  function Words(text: string): seq<string>
    decreases |text|
  {
    if text == "" then []
    else if Blank(text[0]) then Words(text[1..])
    else [text[..WordLength(text)]] + Words(text[WordLength(text)..])
  }

  function Commas(text: string): (r: string)
    ensures |r| == |text|
  {
    if text == "" then "" else [if text[0] == ',' then ' ' else text[0]] + Commas(text[1..])
  }

  function IndexOf(text: string, c: char): (i: nat)
    ensures i <= |text|
    ensures i < |text| ==> text[i] == c
    ensures forall j :: 0 <= j < i ==> text[j] != c
  {
    if text == "" || text[0] == c then 0 else 1 + IndexOf(text[1..], c)
  }

  // ---------------------------------------------------------------- one field

  datatype Range = Range(lo: int, hi: int, step: int)

  function RangeWritten(text: string, step: int, minValue: int, maxValue: int): Range {
    var dash := IndexOf(text, '-');
    if text == "*" then Range(minValue, maxValue, step)
    else if dash < |text| then
      Range(FromCharsOr(text[..dash], minValue), FromCharsOr(text[dash + 1..], maxValue), step)
    else
      Range(FromCharsOr(text, minValue), FromCharsOr(text, minValue), step)
  }

  function StepWritten(part: string): Option<int> {
    var slash := IndexOf(part, '/');
    if slash < |part| then FromChars(part[slash + 1..]) else Some(1)
  }

  predicate InBounds(range: Range, minValue: int, maxValue: int) {
    minValue <= range.lo <= range.hi <= maxValue && range.step >= 1
  }

  function RangeOf(part: string, minValue: int, maxValue: int): (r: Result<Range, Error>)
    ensures r.Ok? ==> InBounds(r.value, minValue, maxValue)
  {
    match StepWritten(part)
    case None => Err(BadStep)
    case Some(step) =>
      var range := RangeWritten(part[..IndexOf(part, '/')], step, minValue, maxValue);
      if InBounds(range, minValue, maxValue) then Ok(range) else Err(OutOfBounds)
  }

  function Listed(lo: int, hi: int, step: int): seq<int>
    requires step >= 1
    decreases hi - lo
  {
    if lo > hi then [] else [lo] + Listed(lo + step, hi, step)
  }

  function ValuesOf(parts: seq<string>, minValue: int, maxValue: int): Result<seq<int>, Error> {
    if parts == [] then Ok([])
    else
      match ValuesOf(parts[..|parts| - 1], minValue, maxValue)
      case Err(e) => Err(e)
      case Ok(values) =>
        match RangeOf(parts[|parts| - 1], minValue, maxValue)
        case Err(e) => Err(e)
        case Ok(range) => Ok(values + Listed(range.lo, range.hi, range.step))
  }

  function FieldValues(field: string, minValue: int, maxValue: int): Result<seq<int>, Error> {
    if field == "*" then Ok(Listed(minValue, maxValue, 1))
    else ValuesOf(Words(Commas(field)), minValue, maxValue)
  }

  /** The values that the reader makes of one part. */
  ghost predicate Yields(part: string, minValue: int, maxValue: int, v: int) {
    var range := RangeOf(part, minValue, maxValue);
    range.Ok? && range.value.lo <= v <= range.value.hi && (v - range.value.lo) % range.value.step == 0
  }

  lemma {:induction false} ListedAre(lo: int, hi: int, step: int, v: int)
    requires step >= 1
    ensures v in Listed(lo, hi, step) <==> lo <= v <= hi && (v - lo) % step == 0
    decreases hi - lo
  {
    if lo <= hi {
      ListedAre(lo + step, hi, step, v);
      if v >= lo + step {
        StepBack(v - lo, step);
      } else if lo < v {
        SmallRemainder(v - lo, step);
      }
      assert v in Listed(lo, hi, step) <==> v == lo || v in Listed(lo + step, hi, step);
    }
  }

  lemma StepBack(n: int, step: int)
    requires step >= 1 && n >= step
    ensures n % step == (n - step) % step
  {
    if step > 1 {
      var q, r := (n - step) / step, (n - step) % step;
      assert n == (q + 1) * step + r;
      DivOf(n, step, q + 1, r);
    }
  }

  lemma SmallRemainder(n: int, step: int)
    requires 0 < n < step
    ensures n % step == n
  {
  }

  ghost predicate SomePartYields(parts: seq<string>, minValue: int, maxValue: int, v: int) {
    exists i :: 0 <= i < |parts| && Yields(parts[i], minValue, maxValue, v)
  }

  ghost predicate AllPartsRead(parts: seq<string>, minValue: int, maxValue: int) {
    forall i :: 0 <= i < |parts| ==> RangeOf(parts[i], minValue, maxValue).Ok?
  }

  lemma OnePartMore(parts: seq<string>, minValue: int, maxValue: int, v: int)
    requires parts != []
    ensures var last := |parts| - 1;
      SomePartYields(parts, minValue, maxValue, v) <==>
        SomePartYields(parts[..last], minValue, maxValue, v) || Yields(parts[last], minValue, maxValue, v)
  {
  }

  lemma OnePartMoreRead(parts: seq<string>, minValue: int, maxValue: int)
    requires parts != []
    ensures var last := |parts| - 1;
      AllPartsRead(parts, minValue, maxValue) <==>
        AllPartsRead(parts[..last], minValue, maxValue) && RangeOf(parts[last], minValue, maxValue).Ok?
  {
    hide RangeOf;
    assert forall i :: 0 <= i < |parts| - 1 ==> parts[..|parts| - 1][i] == parts[i];
  }

  lemma RangeYields(part: string, minValue: int, maxValue: int, v: int)
    requires RangeOf(part, minValue, maxValue).Ok?
    ensures var range := RangeOf(part, minValue, maxValue).value;
      v in Listed(range.lo, range.hi, range.step) <==> Yields(part, minValue, maxValue, v)
  {
    var range := RangeOf(part, minValue, maxValue).value;
    hide RangeOf;
    ListedAre(range.lo, range.hi, range.step, v);
  }

  /** A list of parts is accepted exactly when each is, and yields the union of what each yields. */
  lemma {:induction false} PartsYield(parts: seq<string>, minValue: int, maxValue: int, v: int)
    ensures var values := ValuesOf(parts, minValue, maxValue);
      && (values.Ok? <==> AllPartsRead(parts, minValue, maxValue))
      && (values.Ok? ==> (v in values.value <==> SomePartYields(parts, minValue, maxValue, v)))
  {
    if parts != [] {
      var last := |parts| - 1;
      var range := RangeOf(parts[last], minValue, maxValue);
      hide RangeOf, Listed, Yields;
      PartsYield(parts[..last], minValue, maxValue, v);
      OnePartMore(parts, minValue, maxValue, v);
      OnePartMoreRead(parts, minValue, maxValue);
      hide AllPartsRead, SomePartYields;
      if range.Ok? {
        RangeYields(parts[last], minValue, maxValue, v);
      }
    }
  }

  lemma StarAlone(minValue: int, maxValue: int)
    requires minValue <= maxValue
    ensures Words(Commas("*")) == ["*"] && RangeOf("*", minValue, maxValue) == Ok(Range(minValue, maxValue, 1))
  {
    assert Commas("*") == "*" && "*"[..1] == "*" && "*"[1..] == "";
    assert WordLength("*") == 1;
    assert IndexOf("*", '/') == 1;
  }

  /** The star that `parseField` singles out yields what a star among other parts does. */
  lemma FieldYields(field: string, minValue: int, maxValue: int, v: int)
    requires minValue <= maxValue
    ensures var values := FieldValues(field, minValue, maxValue);
      var parts := Words(Commas(field));
      && (values.Ok? <==> AllPartsRead(parts, minValue, maxValue))
      && (values.Ok? ==> (v in values.value <==> SomePartYields(parts, minValue, maxValue, v)))
  {
    if field == "*" {
      StarAlone(minValue, maxValue);
      ListedAre(minValue, maxValue, 1, v);
      hide RangeOf, Words, Commas, Listed;
      assert Yields("*", minValue, maxValue, v) <==> minValue <= v <= maxValue;
      assert SomePartYields(["*"], minValue, maxValue, v) <==> Yields(["*"][0], minValue, maxValue, v);
    } else {
      PartsYield(Words(Commas(field)), minValue, maxValue, v);
    }
  }

  lemma ValuesInBounds(field: string, minValue: int, maxValue: int, v: int)
    requires FieldValues(field, minValue, maxValue).Ok? && v in FieldValues(field, minValue, maxValue).value
    ensures minValue <= v <= maxValue
  {
    if field == "*" {
      ListedAre(minValue, maxValue, 1, v);
    } else {
      PartsYield(Words(Commas(field)), minValue, maxValue, v);
    }
  }

  lemma ListedOne(v: int)
    ensures Listed(v, v, 1) == [v]
  {
  }

  /** The loops that push the values of one range. */
  method Push(before: seq<int>, lo: int, hi: int, step: int) returns (values: seq<int>)
    requires step >= 1
    ensures values == before + Listed(lo, hi, step)
  {
    values := before;
    var v := lo;
    while v <= hi
      invariant values + Listed(v, hi, step) == before + Listed(lo, hi, step)
      decreases hi - v
    {
      assert values + Listed(v, hi, step) == (values + [v]) + Listed(v + step, hi, step);
      values := values + [v];
      v := v + step;
    }
  }

  /** `parseField`. */
  method ParseField(field: string, minValue: int, maxValue: int) returns (r: Result<seq<int>, Error>)
    ensures r == FieldValues(field, minValue, maxValue)
  {
    hide RangeOf, Words, Commas, Listed;
    var values: seq<int> := [];
    if field == "*" {
      values := Push([], minValue, maxValue, 1);
      assert values == Listed(minValue, maxValue, 1);
      return Ok(values);
    }
    var parts := Words(Commas(field));
    for i := 0 to |parts|
      invariant ValuesOf(parts[..i], minValue, maxValue) == Ok(values)
    {
      assert parts[..i + 1][..i] == parts[..i];
      var range := RangeOf(parts[i], minValue, maxValue);
      if range.Err? {
        Rejected(parts, i + 1, range.error, minValue, maxValue);
        return Err(range.error);
      }
      values := Push(values, range.value.lo, range.value.hi, range.value.step);
    }
    assert parts[..|parts|] == parts;
    r := Ok(values);
  }

  lemma {:induction false} Rejected(parts: seq<string>, k: nat, e: Error, minValue: int, maxValue: int)
    requires k <= |parts| && ValuesOf(parts[..k], minValue, maxValue) == Err(e)
    ensures ValuesOf(parts, minValue, maxValue) == Err(e)
    decreases |parts|
  {
    if k < |parts| {
      assert parts[..|parts| - 1][..k] == parts[..k];
      Rejected(parts[..|parts| - 1], k, e, minValue, maxValue);
    } else {
      assert parts[..k] == parts;
    }
  }

  // ---------------------------------------------------------------- five fields

  /** A `std::bitset` is the set of the positions that are set. */
  datatype Expression = Expression(
    minutes: set<int>, hours: set<int>, daysOfMonth: set<int>, months: set<int>, daysOfWeek: set<int>)

  function Bits(values: seq<int>, size: int): set<int> {
    set v | v in values && 0 <= v < size
  }

  function Field(size: int, field: string, minValue: int, maxValue: int): Result<set<int>, Error> {
    match FieldValues(field, minValue, maxValue)
    case Err(e) => Err(e)
    case Ok(values) => Ok(Bits(values, size))
  }

  lemma BitsOneMore(values: seq<int>, i: nat, size: int)
    requires i < |values|
    ensures Bits(values[..i + 1], size) == Bits(values[..i], size) + (if 0 <= values[i] < size then {values[i]} else {})
  {
  }

  /** `fillField` into an empty bitset. */
  method FillField(size: int, field: string, minValue: int, maxValue: int) returns (r: Result<set<int>, Error>)
    ensures r == Field(size, field, minValue, maxValue)
  {
    var values := ParseField(field, minValue, maxValue);
    if values.Err? { return Err(values.error); }
    var target: set<int> := {};
    for i := 0 to |values.value|
      invariant target == Bits(values.value[..i], size)
    {
      BitsOneMore(values.value, i, size);
      hide Bits;
      var v := values.value[i];
      if v >= 0 && v < size {
        target := target + {v};
      }
    }
    assert values.value[..|values.value|] == values.value;
    r := Ok(target);
  }

  function FiveFields(parts: seq<string>): Result<Expression, Error>
    requires |parts| == 5
  {
    var minutes, hours := Field(60, parts[0], 0, 59), Field(24, parts[1], 0, 23);
    var days, months := Field(31, parts[2], 1, 31), Field(12, parts[3], 1, 12);
    var weekdays := Field(7, parts[4], 0, 6);
    if minutes.Err? then Err(minutes.error)
    else if hours.Err? then Err(hours.error)
    else if days.Err? then Err(days.error)
    else if months.Err? then Err(months.error)
    else if weekdays.Err? then Err(weekdays.error)
    else Ok(Expression(minutes.value, hours.value, days.value, months.value, weekdays.value))
  }

  function Parsed(text: string): Result<Expression, Error> {
    if |Words(text)| != 5 then Err(NotFiveFields) else FiveFields(Words(text))
  }

  /** `parseCron`. */
  method ParseCron(text: string) returns (r: Result<Expression, Error>)
    ensures r == Parsed(text)
  {
    var parts := Words(text);
    if |parts| != 5 { return Err(NotFiveFields); }
    var minutes := FillField(60, parts[0], 0, 59);
    if minutes.Err? { return Err(minutes.error); }
    var hours := FillField(24, parts[1], 0, 23);
    if hours.Err? { return Err(hours.error); }
    var days := FillField(31, parts[2], 1, 31);
    if days.Err? { return Err(days.error); }
    var months := FillField(12, parts[3], 1, 12);
    if months.Err? { return Err(months.error); }
    var weekdays := FillField(7, parts[4], 0, 6);
    if weekdays.Err? { return Err(weekdays.error); }
    r := Ok(Expression(minutes.value, hours.value, days.value, months.value, weekdays.value));
  }
}
