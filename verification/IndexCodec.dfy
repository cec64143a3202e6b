/**
 The text of the quarantine index: what `persistIndex` writes and what `loadIndex` reads back
 (src/core/quarantine/quarantine.cpp). A character stands for one byte of the file.

 The reading functions work on the text that is left: `rest` is the input from the cursor on.
 */
module IndexCodec {
  import opened Decimal
  import opened Integers
  import opened Wrappers

  /** One entry of the index as the file holds it: paths as generic strings, times as nanoseconds. */
  datatype Record = Record(
    id: string, original: string, storage: string, originalSize: U64, storedSize: U64,
    capturedNs: I64, expiresNs: I64, compressed: bool, reason: string, correlation: string)

  const EMPTY: Record := Record("", "", "", 0, 0, 0, 0, false, "", "")

  datatype Field =
    | Id | Original | Storage | OriginalSize | StoredSize | CapturedNs | ExpiresNs | Compressed | Reason | Correlation

  /** The fields in the order they are written. */
  const FIELDS: seq<Field> :=
    [Id, Original, Storage, OriginalSize, StoredSize, CapturedNs, ExpiresNs, Compressed, Reason, Correlation]

  function KeyOf(f: Field): string {
    match f
    case Id => "id"
    case Original => "original"
    case Storage => "storage"
    case OriginalSize => "original_size"
    case StoredSize => "stored_size"
    case CapturedNs => "captured_ns"
    case ExpiresNs => "expires_ns"
    case Compressed => "compressed"
    case Reason => "reason"
    case Correlation => "correlation"
  }

  function FieldOf(key: string): Option<Field> {
    if key == "id" then Some(Id)
    else if key == "original" then Some(Original)
    else if key == "storage" then Some(Storage)
    else if key == "original_size" then Some(OriginalSize)
    else if key == "stored_size" then Some(StoredSize)
    else if key == "captured_ns" then Some(CapturedNs)
    else if key == "expires_ns" then Some(ExpiresNs)
    else if key == "compressed" then Some(Compressed)
    else if key == "reason" then Some(Reason)
    else if key == "correlation" then Some(Correlation)
    else None
  }

  lemma FieldOfKeyOf(f: Field)
    ensures FieldOf(KeyOf(f)) == Some(f)
  {
  }

  // ---------------------------------------------------------------- writing

  function HexDigit(n: nat): char
    requires n < 16
  {
    "0123456789abcdef"[n]
  }

  const BACKSPACE: char := 8 as char
  const FORM_FEED: char := 12 as char

  function EscapeChar(c: char): string {
    if c == '\"' || c == '\\' then ['\\', c]
    else if c == BACKSPACE then ['\\', 'b']
    else if c == FORM_FEED then ['\\', 'f']
    else if c == '\n' then ['\\', 'n']
    else if c == '\r' then ['\\', 'r']
    else if c == '\t' then ['\\', 't']
    else if c < ' ' then ['\\', 'u', '0', '0', HexDigit(c as int / 16), HexDigit(c as int % 16)]
    else [c]
  }

  function Escape(s: string): string {
    if s == "" then "" else EscapeChar(s[0]) + Escape(s[1..])
  }

  function Quoted(s: string): string {
    ['\"'] + (Escape(s) + ['\"'])
  }

  function ValueText(f: Field, r: Record): string {
    match f
    case Id => Quoted(r.id)
    case Original => Quoted(r.original)
    case Storage => Quoted(r.storage)
    case OriginalSize => PrintInt(r.originalSize)
    case StoredSize => PrintInt(r.storedSize)
    case CapturedNs => PrintInt(r.capturedNs)
    case ExpiresNs => PrintInt(r.expiresNs)
    case Compressed => if r.compressed then "true" else "false"
    case Reason => Quoted(r.reason)
    case Correlation => Quoted(r.correlation)
  }

  /** A quoted key, a colon and the value; escaping leaves the keys as they are. */
  function FieldText(f: Field, r: Record): string {
    Quoted(KeyOf(f)) + ([':'] + ValueText(f, r))
  }

  function PrintFields(r: Record, fields: seq<Field>): string {
    if fields == [] then ""
    else FieldText(fields[0], r) + (if |fields| == 1 then "" else [','] + PrintFields(r, fields[1..]))
  }

  function PrintRecord(r: Record): string {
    "    " + (['{'] + (PrintFields(r, FIELDS) + ['}']))
  }

  function PrintRecords(rs: seq<Record>): string {
    if rs == [] then ""
    else PrintRecord(rs[0]) + (if |rs| == 1 then "" else ",") + "\n" + PrintRecords(rs[1..])
  }

  /** The whole file. */
  function Print(rs: seq<Record>): string {
    ['{'] + ("\n  " + (Quoted("items") + ([':'] + (" " + (['['] + ("\n" +
      (PrintRecords(rs) + ("  " + ([']'] + "\n}\n")))))))))
  }

  // ---------------------------------------------------------------- reading

  /** What a read found, and the input left after it. */
  datatype Read<+T> = Read(value: Option<T>, rest: string)

  predicate IsSpace(c: char) {
    c == ' ' || c == '\n' || c == '\r' || c == '\t'
  }

  function SkipSpace(r: string): (rest: string)
    ensures |rest| <= |r|
    ensures rest == "" || !IsSpace(rest[0])
  {
    if r != "" && IsSpace(r[0]) then SkipSpace(r[1..]) else r
  }

  predicate Begins(r: string, c: char) {
    r != "" && r[0] == c
  }

  predicate Peek(r: string, c: char) {
    Begins(SkipSpace(r), c)
  }

  function Consume(r: string, c: char): (out: Read<()>)
    ensures |out.rest| <= |r|
    ensures out.value.Some? ==> |out.rest| < |r|
  {
    var next := SkipSpace(r);
    if Begins(next, c) then Read(Some(()), next[1..]) else Read(None, next)
  }

  function Unescape(c: char): char {
    if c == 'b' then BACKSPACE
    else if c == 'f' then FORM_FEED
    else if c == 'n' then '\n'
    else if c == 'r' then '\r'
    else if c == 't' then '\t'
    else c
  }

  function Prepend(c: char, tail: Read<string>): Read<string> {
    if tail.value.Some? then Read(Some([c] + tail.value.value), tail.rest) else tail
  }

  /** The rest of a string whose opening quote has been read. */
  function ReadBody(r: string): (out: Read<string>)
    ensures |out.rest| <= |r|
    ensures out.value.Some? ==> |out.rest| < |r|
    ensures out.value.None? ==> out.rest == ""
    decreases |r|
  {
    if r == "" then Read(None, "")
    else if r[0] == '\"' then Read(Some(""), r[1..])
    else if r[0] == '\\' && |r| > 1 then Prepend(Unescape(r[1]), ReadBody(r[2..]))
    else Prepend(r[0], ReadBody(r[1..]))
  }

  function ReadString(r: string): (out: Read<string>)
    ensures |out.rest| <= |r|
    ensures out.value.Some? ==> |out.rest| < |r|
  {
    var next := SkipSpace(r);
    if Begins(next, '\"') then ReadBody(next[1..]) else Read(None, next)
  }

  function SignLength(r: string): nat {
    if Begins(r, '-') || Begins(r, '+') then 1 else 0
  }

  /** `std::stoll`: no digits, or a value outside 64 signed bits, is an exception. */
  function Stoll(negative: bool, digits: string): Option<I64>
    requires AllDigits(digits)
  {
    if digits == "" then None
    else
      var v: int := if negative then 0 - NatValue(digits) else NatValue(digits);
      if -TWO_TO_THE_63 <= v < TWO_TO_THE_63 then Some(v) else None
  }

  function ReadInt(r: string): (out: Read<I64>)
    ensures |out.rest| <= |r|
  {
    var next := SkipSpace(r);
    var sign := SignLength(next);
    var digits := next[sign..][..DigitsLength(next[sign..])];
    Read(Stoll(Begins(next, '-'), digits), next[sign + |digits|..])
  }

  function ReadBool(r: string): (out: Read<bool>)
    ensures |out.rest| <= |r|
  {
    var next := SkipSpace(r);
    if "true" <= next then Read(Some(true), next[4..])
    else if "false" <= next then Read(Some(false), next[5..])
    else Read(None, next)
  }

  /** `static_cast<std::uint64_t>` of a signed value. */
  function ToU64(v: I64): U64 {
    if v < 0 then v + TWO_TO_THE_64 else v
  }

  function ReadValue(f: Field, acc: Record, r: string): (out: Read<Record>)
    ensures |out.rest| <= |r|
  {
    match f
    case Id =>
      var v := ReadString(r);
      Read(if v.value.None? then None else Some(acc.(id := v.value.value)), v.rest)
    case Original =>
      var v := ReadString(r);
      Read(if v.value.None? then None else Some(acc.(original := v.value.value)), v.rest)
    case Storage =>
      var v := ReadString(r);
      Read(if v.value.None? then None else Some(acc.(storage := v.value.value)), v.rest)
    case OriginalSize =>
      var v := ReadInt(r);
      Read(if v.value.None? then None else Some(acc.(originalSize := ToU64(v.value.value))), v.rest)
    case StoredSize =>
      var v := ReadInt(r);
      Read(if v.value.None? then None else Some(acc.(storedSize := ToU64(v.value.value))), v.rest)
    case CapturedNs =>
      var v := ReadInt(r);
      Read(if v.value.None? then None else Some(acc.(capturedNs := v.value.value)), v.rest)
    case ExpiresNs =>
      var v := ReadInt(r);
      Read(if v.value.None? then None else Some(acc.(expiresNs := v.value.value)), v.rest)
    case Compressed =>
      var v := ReadBool(r);
      Read(if v.value.None? then None else Some(acc.(compressed := v.value.value)), v.rest)
    case Reason =>
      var v := ReadString(r);
      Read(if v.value.None? then None else Some(acc.(reason := v.value.value)), v.rest)
    case Correlation =>
      var v := ReadString(r);
      Read(if v.value.None? then None else Some(acc.(correlation := v.value.value)), v.rest)
  }

  /** The key, the colon and the value of one field. */
  function ReadField(acc: Record, r: string): (out: Read<Record>)
    ensures |out.rest| <= |r|
    ensures out.value.Some? ==> |out.rest| < |r|
  {
    var key := ReadString(r);
    if key.value.None? then Read(None, key.rest)
    else
      var colon := Consume(key.rest, ':');
      if colon.value.None? then Read(None, colon.rest)
      else if FieldOf(key.value.value).None? then Read(None, colon.rest)
      else ReadValue(FieldOf(key.value.value).value, acc, colon.rest)
  }

  /** The fields of one entry up to its closing brace; None when the entry is not valid. */
  function ReadFields(acc: Record, r: string): (out: Read<Record>)
    ensures |out.rest| <= |r|
    decreases |r|
  {
    if Peek(r, '}') then Read(Some(acc), SkipSpace(r))
    else
      var field := ReadField(acc, SkipSpace(r));
      if field.value.None? then Read(None, field.rest)
      else
        var comma := Consume(field.rest, ',');
        if comma.value.Some? then ReadFields(field.value.value, comma.rest)
        else if Peek(comma.rest, '}') then Read(Some(field.value.value), SkipSpace(comma.rest))
        else Read(None, SkipSpace(comma.rest))
  }

  /** One entry with its braces: None stops the reading, Some(None) skips an invalid entry. */
  function ReadObject(r: string): (out: Read<Option<Record>>)
    ensures |out.rest| <= |r|
    ensures out.value.Some? ==> |out.rest| < |r|
  {
    var open := Consume(r, '{');
    if open.value.None? then Read(None, open.rest)
    else
      var fields := ReadFields(EMPTY, open.rest);
      var close := Consume(fields.rest, '}');
      Read(if close.value.None? then None else Some(fields.value), close.rest)
  }

  function ReadRecords(r: string): seq<Record>
    decreases |r|
  {
    if Peek(r, ']') then []
    else
      var entry := ReadObject(r);
      if entry.value.None? then []
      else
        var comma := Consume(entry.rest, ',');
        (if entry.value.value.Some? then [entry.value.value.value] else [])
        + (if comma.value.Some? then ReadRecords(comma.rest) else [])
  }

  /** What `loadIndex` keeps of a text. */
  function Load(raw: string): seq<Record> {
    var open := Consume(raw, '{');
    if open.value.None? then []
    else
      var key := ReadString(open.rest);
      if key.value != Some("items") then []
      else
        var colon := Consume(key.rest, ':');
        if colon.value.None? then []
        else
          var bracket := Consume(colon.rest, '[');
          if bracket.value.None? then [] else ReadRecords(bracket.rest)
  }

  // ---------------------------------------------------------------- a torn text

  /** A text at which the scanner will not see a closing brace. */
  predicate NoClose(r: string) {
    !Peek(r, '}')
  }

  /** A read on a prefix `p` found what the read on the whole text found. */
  ghost predicate Agree<T>(p: Read<T>, s: Read<T>) {
    p.value == s.value && p.rest <= s.rest
  }

  lemma {:induction false} SkipSpaceOnPrefix(p: string, s: string)
    requires p <= s
    ensures SkipSpace(p) <= SkipSpace(s)
    decreases |p|
  {
    if p != "" && IsSpace(p[0]) {
      SkipSpaceOnPrefix(p[1..], s[1..]);
    }
  }

  lemma ConsumeOnPrefix(p: string, s: string, c: char)
    requires p <= s
    ensures Agree(Consume(p, c), Consume(s, c)) || Consume(p, c) == Read(None, "")
  {
    SkipSpaceOnPrefix(p, s);
  }

  lemma {:induction false} ReadBodyOnPrefix(p: string, s: string)
    requires p <= s
    ensures Agree(ReadBody(p), ReadBody(s)) || ReadBody(p) == Read(None, "")
    decreases |p|
  {
    if p == "" || p[0] == '\"' {
    } else if p[0] == '\\' && |p| > 1 {
      ReadBodyOnPrefix(p[2..], s[2..]);
    } else if p[0] != '\\' {
      ReadBodyOnPrefix(p[1..], s[1..]);
    }
  }

  lemma ReadStringOnPrefix(p: string, s: string)
    requires p <= s
    ensures Agree(ReadString(p), ReadString(s)) || ReadString(p) == Read(None, "")
  {
    SkipSpaceOnPrefix(p, s);
    var p', s' := SkipSpace(p), SkipSpace(s);
    if Begins(p', '\"') { ReadBodyOnPrefix(p'[1..], s'[1..]); }
  }

  lemma SignedOnPrefix(p: string, s: string)
    requires p <= s && p != ""
    ensures SignLength(p) == SignLength(s) && Begins(p, '-') == Begins(s, '-')
    ensures var sign := SignLength(p);
      var n := DigitsLength(p[sign..]);
      || sign + n == |p|
      || (n == DigitsLength(s[sign..]) && p[sign..][..n] == s[sign..][..n] && p[sign + n..] <= s[sign + n..])
  {
  }

  /** A number cut short still reads as a number, but only at the very end of the text. */
  lemma ReadIntOnPrefix(p: string, s: string)
    requires p <= s
    ensures Agree(ReadInt(p), ReadInt(s)) || ReadInt(p).rest == ""
  {
    SkipSpaceOnPrefix(p, s);
    var p', s' := SkipSpace(p), SkipSpace(s);
    hide SkipSpace, DigitsLength, Stoll, SignLength;
    if p' != "" {
      SignedOnPrefix(p', s');
    }
  }

  lemma ReadBoolOnPrefix(p: string, s: string)
    requires p <= s
    ensures Agree(ReadBool(p), ReadBool(s)) || (ReadBool(p).value.None? && NoClose(ReadBool(p).rest))
  {
    SkipSpaceOnPrefix(p, s);
    var p' := SkipSpace(p);
    if Begins(p', '}') { assert !("true" <= p') && !("false" <= p'); }
  }

  /** A read on a prefix that does not agree with the whole leaves nothing, or fails short of a brace. */
  ghost predicate AgreeOrStuck<T>(p: Read<T>, s: Read<T>) {
    Agree(p, s) || p.rest == "" || (p.value.None? && NoClose(p.rest))
  }

  lemma ReadValueOnPrefix(f: Field, acc: Record, p: string, s: string)
    requires p <= s
    ensures AgreeOrStuck(ReadValue(f, acc, p), ReadValue(f, acc, s))
  {
    hide ReadString, ReadInt, ReadBool, NoClose;
    match f
    case Id | Original | Storage | Reason | Correlation => ReadStringOnPrefix(p, s);
    case OriginalSize | StoredSize | CapturedNs | ExpiresNs => ReadIntOnPrefix(p, s);
    case Compressed => ReadBoolOnPrefix(p, s);
  }

  lemma ReadFieldOnPrefix(acc: Record, p: string, s: string)
    requires p <= s
    ensures AgreeOrStuck(ReadField(acc, p), ReadField(acc, s))
  {
    hide ReadValue, FieldOf, ReadString, Consume;
    ReadStringOnPrefix(p, s);
    var key, key' := ReadString(p), ReadString(s);
    if key.value.Some? {
      ConsumeOnPrefix(key.rest, key'.rest, ':');
      var colon, colon' := Consume(key.rest, ':'), Consume(key'.rest, ':');
      if colon.value.Some? && FieldOf(key.value.value).Some? {
        ReadValueOnPrefix(FieldOf(key.value.value).value, acc, colon.rest, colon'.rest);
      }
    }
  }

  lemma {:induction false} ReadFieldsOnPrefix(acc: Record, p: string, s: string)
    requires p <= s
    ensures Agree(ReadFields(acc, p), ReadFields(acc, s)) || NoClose(ReadFields(acc, p).rest)
    decreases |p|
  {
    SkipSpaceOnPrefix(p, s);
    if !Peek(p, '}') && SkipSpace(p) != "" {
      ReadFieldOnPrefix(acc, SkipSpace(p), SkipSpace(s));
      var field, field' := ReadField(acc, SkipSpace(p)), ReadField(acc, SkipSpace(s));
      if Agree(field, field') && field.value.Some? {
        ConsumeOnPrefix(field.rest, field'.rest, ',');
        var comma, comma' := Consume(field.rest, ','), Consume(field'.rest, ',');
        if comma.value.Some? {
          ReadFieldsOnPrefix(field.value.value, comma.rest, comma'.rest);
        } else {
          SkipSpaceOnPrefix(comma.rest, comma'.rest);
        }
      }
    }
  }

  lemma ReadObjectOnPrefix(p: string, s: string)
    requires p <= s
    ensures Agree(ReadObject(p), ReadObject(s)) || ReadObject(p).value.None?
  {
    ConsumeOnPrefix(p, s, '{');
    var open, open' := Consume(p, '{'), Consume(s, '{');
    if open.value.Some? {
      ReadFieldsOnPrefix(EMPTY, open.rest, open'.rest);
      var fields, fields' := ReadFields(EMPTY, open.rest), ReadFields(EMPTY, open'.rest);
      if Agree(fields, fields') { ConsumeOnPrefix(fields.rest, fields'.rest, '}'); }
    }
  }

  lemma {:induction false} ReadRecordsOnPrefix(p: string, s: string)
    requires p <= s
    ensures ReadRecords(p) <= ReadRecords(s)
    decreases |p|
  {
    var entry, entry' := ReadObject(p), ReadObject(s);
    if !Peek(p, ']') && entry.value.Some? {
      SkipSpaceOnPrefix(p, s);
      assert !Peek(s, ']');
      ReadObjectOnPrefix(p, s);
      hide ReadObject, SkipSpace, Peek;
      var one := if entry.value.value.Some? then [entry.value.value.value] else [];
      ConsumeOnPrefix(entry.rest, entry'.rest, ',');
      var comma, comma' := Consume(entry.rest, ','), Consume(entry'.rest, ',');
      hide Consume;
      var more := if comma.value.Some? then ReadRecords(comma.rest) else [];
      var more' := if comma'.value.Some? then ReadRecords(comma'.rest) else [];
      assert more <= more' by {
        if comma.value.Some? { ReadRecordsOnPrefix(comma.rest, comma'.rest); }
      }
      assert ReadRecords(p) == one + more;
      assert ReadRecords(s) == one + more';
    }
  }

  /**
   Whatever the text, the entries read from a prefix of it are the first of the entries read from the
   whole: a write cut short anywhere loses a tail of the list, and never half-reads an entry.
   */
  lemma TornTextLoadsAPrefix(s: string, k: nat)
    requires k <= |s|
    ensures Load(s[..k]) <= Load(s)
  {
    var p := s[..k];
    ConsumeOnPrefix(p, s, '{');
    var open, open' := Consume(p, '{'), Consume(s, '{');
    if open.value.Some? {
      ReadStringOnPrefix(open.rest, open'.rest);
      var key, key' := ReadString(open.rest), ReadString(open'.rest);
      if key.value.Some? {
        ConsumeOnPrefix(key.rest, key'.rest, ':');
        var colon, colon' := Consume(key.rest, ':'), Consume(key'.rest, ':');
        if colon.value.Some? {
          ConsumeOnPrefix(colon.rest, colon'.rest, '[');
          var bracket, bracket' := Consume(colon.rest, '['), Consume(colon'.rest, '[');
          if bracket.value.Some? {
            ReadRecordsOnPrefix(bracket.rest, bracket'.rest);
          }
        }
      }
    }
  }

  // ---------------------------------------------------------------- reading what was written

  /** A control character that is written as a \\u escape, which the reader does not decode. */
  predicate IsLost(c: char) {
    c < ' ' && c != BACKSPACE && c != FORM_FEED && c != '\n' && c != '\r' && c != '\t'
  }

  function DecodedChar(c: char): string {
    if IsLost(c) then ['u', '0', '0', HexDigit(c as int / 16), HexDigit(c as int % 16)] else [c]
  }

  /** What reading gives back of a string written as `Escape(s)`. */
  function Decoded(s: string): string {
    if s == "" then "" else DecodedChar(s[0]) + Decoded(s[1..])
  }

  predicate Clean(s: string) {
    forall i :: 0 <= i < |s| ==> !IsLost(s[i])
  }

  lemma {:induction false} DecodedIsLonger(s: string)
    ensures |Decoded(s)| >= |s|
    ensures Clean(s) ==> Decoded(s) == s
    ensures !Clean(s) ==> |Decoded(s)| > |s|
  {
    if s != "" {
      DecodedIsLonger(s[1..]);
      assert s == [s[0]] + s[1..];
      assert Clean(s) <==> !IsLost(s[0]) && Clean(s[1..]);
    }
  }

  /** What a read yields when `w` comes before what `post` yields. */
  function Preceded(w: string, post: string): Read<string> {
    if ReadBody(post).value.None? then Read(None, "")
    else Read(Some(w + ReadBody(post).value.value), ReadBody(post).rest)
  }

  lemma AfterNothing(post: string)
    ensures Preceded("", post) == ReadBody(post)
  {
    if ReadBody(post).value.Some? { assert "" + ReadBody(post).value.value == ReadBody(post).value.value; }
  }

  lemma AfterOneMore(c: char, w: string, post: string)
    ensures Prepend(c, Preceded(w, post)) == Preceded([c] + w, post)
  {
    if ReadBody(post).value.Some? {
      Associate([c], w, ReadBody(post).value.value);
    }
  }

  lemma ReadPlainChar(c: char, text: string, w: string, post: string)
    requires c != '\"' && c != '\\' && ReadBody(text) == Preceded(w, post)
    ensures ReadBody([c] + text) == Preceded([c] + w, post)
  {
    assert ([c] + text)[1..] == text;
    AfterOneMore(c, w, post);
  }

  lemma ReadPair(c: char, text: string, w: string, post: string)
    requires ReadBody(text) == Preceded(w, post)
    ensures ReadBody(['\\', c] + text) == Preceded([Unescape(c)] + w, post)
  {
    assert (['\\', c] + text)[2..] == text;
    AfterOneMore(Unescape(c), w, post);
  }

  lemma ReadUnicodeEscape(h: char, l: char, post: string)
    requires h != '\"' && h != '\\' && l != '\"' && l != '\\'
    ensures ReadBody(['\\', 'u', '0', '0', h, l] + post) == Preceded(['u', '0', '0', h, l], post)
  {
    hide ReadBody, Preceded;
    AfterNothing(post);
    ReadPlainChar(l, post, "", post);
    ReadPlainChar(h, [l] + post, [l] + "", post);
    ReadPlainChar('0', [h] + ([l] + post), [h] + ([l] + ""), post);
    ReadPlainChar('0', ['0'] + ([h] + ([l] + post)), ['0'] + ([h] + ([l] + "")), post);
    var tail := ['0'] + (['0'] + ([h] + ([l] + post)));
    ReadPair('u', tail, ['0'] + (['0'] + ([h] + ([l] + ""))), post);
    assert ['\\', 'u', '0', '0', h, l] + post == ['\\', 'u'] + tail;
    assert ['u'] + (['0'] + (['0'] + ([h] + ([l] + "")))) == ['u', '0', '0', h, l];
  }

  lemma ReadEscapedChar(c: char, post: string)
    ensures ReadBody(EscapeChar(c) + post) == Preceded(DecodedChar(c), post)
  {
    hide ReadBody, Preceded;
    AfterNothing(post);
    if IsLost(c) {
      ReadUnicodeEscape(HexDigit(c as int / 16), HexDigit(c as int % 16), post);
    } else if |EscapeChar(c)| == 2 {
      ReadPair(EscapeChar(c)[1], post, "", post);
      assert [c] + "" == [c];
    } else {
      ReadPlainChar(c, post, "", post);
      assert [c] + "" == [c];
    }
  }

  lemma {:induction false} ReadEscaped(s: string, post: string)
    ensures ReadBody(Escape(s) + (['\"'] + post)) == Read(Some(Decoded(s)), post)
  {
    var end := ['\"'] + post;
    if s == "" {
      assert Escape(s) + end == end && end[1..] == post;
    } else {
      hide ReadBody, EscapeChar, DecodedChar;
      ReadEscaped(s[1..], post);
      Associate(EscapeChar(s[0]), Escape(s[1..]), end);
      ReadEscapedChar(s[0], Escape(s[1..]) + end);
    }
  }

  lemma ReadQuoted(s: string, post: string)
    ensures ReadString(Quoted(s) + post) == Read(Some(Decoded(s)), post)
  {
    hide ReadBody, Escape, Decoded;
    var r := Quoted(s) + post;
    assert r == ['\"'] + (Escape(s) + (['\"'] + post));
    assert r[1..] == Escape(s) + (['\"'] + post);
    ReadEscaped(s, post);
  }

  lemma {:induction false} EscapePlain(s: string)
    requires forall i :: 0 <= i < |s| ==> ' ' < s[i] && s[i] != '\"' && s[i] != '\\'
    ensures Escape(s) == s && Decoded(s) == s
  {
    if s != "" {
      EscapePlain(s[1..]);
      assert s == [s[0]] + s[1..];
    }
  }

  lemma KeyIsPlain(f: Field)
    ensures Escape(KeyOf(f)) == KeyOf(f) && Decoded(KeyOf(f)) == KeyOf(f)
  {
    EscapePlain(KeyOf(f));
  }

  lemma ReadSignedDigits(sign: string, digits: string, post: string)
    requires (sign == "" || sign == ['-']) && digits != "" && AllDigits(digits)
    requires post != "" && !IsDigit(post[0])
    ensures ReadInt(sign + (digits + post)) == Read(Stoll(sign != "", digits), post)
  {
    var r := sign + (digits + post);
    DigitsAndMore(digits, post);
    assert r[0] == if sign == "" then digits[0] else '-';
    assert SkipSpace(r) == r && SignLength(r) == |sign|;
    assert r[|sign|..] == digits + post;
    assert (digits + post)[..|digits|] == digits;
    assert r[|sign| + |digits|..] == post;
  }

  lemma ReadPrintedInt(n: int, post: string)
    requires -TWO_TO_THE_63 <= n && post != "" && !IsDigit(post[0])
    ensures ReadInt(PrintInt(n) + post) == Read(if n < TWO_TO_THE_63 then Some(n) else None, post)
  {
    hide ReadInt, PrintNat, NatValue;
    var sign := if n < 0 then ['-'] else "";
    var digits := PrintNat(if n < 0 then -n else n);
    ValueOfPrinted(if n < 0 then -n else n);
    assert PrintInt(n) + post == sign + (digits + post);
    ReadSignedDigits(sign, digits, post);
  }

  lemma ReadPrintedBool(b: bool, post: string)
    ensures ReadBool((if b then "true" else "false") + post) == Read(Some(b), post)
  {
  }

  /** What the reader makes of a record: every lost character of a string is spelled out. */
  function Mangled(r: Record): Record {
    r.(id := Decoded(r.id), original := Decoded(r.original), storage := Decoded(r.storage),
       reason := Decoded(r.reason), correlation := Decoded(r.correlation))
  }

  function Copy(f: Field, acc: Record, m: Record): Record {
    match f
    case Id => acc.(id := m.id)
    case Original => acc.(original := m.original)
    case Storage => acc.(storage := m.storage)
    case OriginalSize => acc.(originalSize := m.originalSize)
    case StoredSize => acc.(storedSize := m.storedSize)
    case CapturedNs => acc.(capturedNs := m.capturedNs)
    case ExpiresNs => acc.(expiresNs := m.expiresNs)
    case Compressed => acc.(compressed := m.compressed)
    case Reason => acc.(reason := m.reason)
    case Correlation => acc.(correlation := m.correlation)
  }

  function CopyAll(fields: seq<Field>, acc: Record, m: Record): Record {
    if fields == [] then acc else CopyAll(fields[1..], Copy(fields[0], acc, m), m)
  }

  /** `std::stoll` takes back what was written for the field. */
  predicate FieldFits(f: Field, r: Record) {
    match f
    case OriginalSize => r.originalSize < TWO_TO_THE_63
    case StoredSize => r.storedSize < TWO_TO_THE_63
    case _ => true
  }

  predicate Fits(r: Record) {
    r.originalSize < TWO_TO_THE_63 && r.storedSize < TWO_TO_THE_63
  }

  lemma ReadPrintedValue(f: Field, acc: Record, r: Record, post: string)
    requires Begins(post, ',') || Begins(post, '}')
    ensures ReadValue(f, acc, ValueText(f, r) + post) ==
      Read(if FieldFits(f, r) then Some(Copy(f, acc, Mangled(r))) else None, post)
  {
    hide ReadString, ReadInt, ReadBool, PrintInt, Quoted;
    match f
    case Id => ReadQuoted(r.id, post);
    case Original => ReadQuoted(r.original, post);
    case Storage => ReadQuoted(r.storage, post);
    case OriginalSize => ReadPrintedInt(r.originalSize, post);
    case StoredSize => ReadPrintedInt(r.storedSize, post);
    case CapturedNs => ReadPrintedInt(r.capturedNs, post);
    case ExpiresNs => ReadPrintedInt(r.expiresNs, post);
    case Compressed => ReadPrintedBool(r.compressed, post);
    case Reason => ReadQuoted(r.reason, post);
    case Correlation => ReadQuoted(r.correlation, post);
  }

  lemma ReadPrintedField(f: Field, acc: Record, r: Record, post: string)
    requires Begins(post, ',') || Begins(post, '}')
    ensures ReadField(acc, FieldText(f, r) + post) ==
      Read(if FieldFits(f, r) then Some(Copy(f, acc, Mangled(r))) else None, post)
  {
    hide ReadString, ReadValue, FieldOf, KeyOf, ValueText, Copy, Mangled;
    var value := ValueText(f, r) + post;
    assert FieldText(f, r) + post == Quoted(KeyOf(f)) + ([':'] + value);
    ReadQuoted(KeyOf(f), [':'] + value);
    KeyIsPlain(f);
    assert SkipSpace([':'] + value) == [':'] + value;
    assert ([':'] + value)[1..] == value;
    FieldOfKeyOf(f);
    ReadPrintedValue(f, acc, r, post);
  }

  lemma Token(c: char, r: string)
    requires !IsSpace(c)
    ensures SkipSpace([c] + r) == [c] + r
    ensures forall d :: Peek([c] + r, d) <==> d == c
    ensures forall d :: Consume([c] + r, d) == if d == c then Read(Some(()), r) else Read(None, [c] + r)
  {
  }

  lemma {:induction false} SkipAll(pre: string, r: string)
    requires forall i :: 0 <= i < |pre| ==> IsSpace(pre[i])
    ensures SkipSpace(pre + r) == SkipSpace(r)
  {
    if pre == "" {
      assert pre + r == r;
    } else {
      SkipAll(pre[1..], r);
      assert (pre + r)[1..] == pre[1..] + r;
    }
  }

  /** White space before a text changes nothing of what is read. */
  lemma AfterSpace(pre: string, r: string)
    requires forall i :: 0 <= i < |pre| ==> IsSpace(pre[i])
    ensures forall c :: Peek(pre + r, c) == Peek(r, c) && Consume(pre + r, c) == Consume(r, c)
    ensures ReadString(pre + r) == ReadString(r)
    ensures ReadObject(pre + r) == ReadObject(r)
    ensures ReadRecords(pre + r) == ReadRecords(r)
  {
    SkipAll(pre, r);
    hide SkipSpace;
  }

  lemma ReadFieldsStep(acc: Record, r: string)
    requires !Peek(r, '}') && SkipSpace(r) == r
    ensures var field := ReadField(acc, r);
      ReadFields(acc, r) ==
        if field.value.None? then Read(None, field.rest)
        else
          var comma := Consume(field.rest, ',');
          if comma.value.Some? then ReadFields(field.value.value, comma.rest)
          else if Peek(comma.rest, '}') then Read(Some(field.value.value), SkipSpace(comma.rest))
          else Read(None, SkipSpace(comma.rest))
  {
  }

  lemma PrintFieldsStep(fields: seq<Field>, r: Record, end: string)
    requires fields != []
    ensures PrintFields(r, fields) + end ==
      FieldText(fields[0], r) + if |fields| == 1 then end else [','] + (PrintFields(r, fields[1..]) + end)
  {
  }

  lemma Associate(a: string, b: string, c: string)
    ensures (a + b) + c == a + (b + c)
  {
  }

  /** The last field is always taken, so a record with a size that does not fit stops short of its brace. */
  lemma {:induction false} ReadPrintedFields(fields: seq<Field>, acc: Record, r: Record, post: string)
    requires fields != [] && FieldFits(fields[|fields| - 1], r)
    ensures var out := ReadFields(acc, PrintFields(r, fields) + (['}'] + post));
      if forall f :: f in fields ==> FieldFits(f, r)
      then out == Read(Some(CopyAll(fields, acc, Mangled(r))), ['}'] + post)
      else out.value.None? && NoClose(out.rest)
    decreases |fields|
  {
    hide ReadFields, ReadField, FieldText, Copy, Mangled, Consume, SkipSpace, Peek, PrintFields, FieldFits;
    var f, others := fields[0], fields[1..];
    var end := ['}'] + post;
    assert fields == [f] + others;
    PrintFieldsStep(fields, r, end);
    if others == [] {
      ReadOneField(f, acc, r, end);
      CloseToken(post);
      assert CopyAll(fields, acc, Mangled(r)) == Copy(f, acc, Mangled(r));
    } else {
      ReadFieldAndComma(f, acc, r, PrintFields(r, others) + end);
      if FieldFits(f, r) {
        ReadPrintedFields(others, Copy(f, acc, Mangled(r)), r, post);
      }
    }
  }

  lemma CloseToken(post: string)
    ensures var end := ['}'] + post;
      Consume(end, ',') == Read(None, end) && Peek(end, '}') && SkipSpace(end) == end
  {
  }

  lemma ReadFieldAndComma(f: Field, acc: Record, r: Record, next: string)
    ensures ReadFields(acc, FieldText(f, r) + ([','] + next)) ==
      if FieldFits(f, r) then ReadFields(Copy(f, acc, Mangled(r)), next) else Read(None, [','] + next)
    ensures NoClose([','] + next)
  {
    hide ReadFields, FieldText, Copy, Mangled, FieldFits;
    ReadOneField(f, acc, r, [','] + next);
    assert ([','] + next)[1..] == next;
  }

  lemma ReadOneField(f: Field, acc: Record, r: Record, tail: string)
    requires Begins(tail, ',') || Begins(tail, '}')
    ensures ReadFields(acc, FieldText(f, r) + tail) ==
      if !FieldFits(f, r) then Read(None, tail)
      else
        var acc' := Copy(f, acc, Mangled(r));
        var comma := Consume(tail, ',');
        if comma.value.Some? then ReadFields(acc', comma.rest)
        else if Peek(comma.rest, '}') then Read(Some(acc'), SkipSpace(comma.rest))
        else Read(None, SkipSpace(comma.rest))
  {
    hide ReadFields, ReadField, FieldText, Copy, Mangled, Consume, SkipSpace, Peek, FieldFits;
    StartsWithQuote(f, r, tail);
    ReadPrintedField(f, acc, r, tail);
    ReadFieldsStep(acc, FieldText(f, r) + tail);
  }

  lemma StartsWithQuote(f: Field, r: Record, tail: string)
    ensures var text := FieldText(f, r) + tail; SkipSpace(text) == text && !Peek(text, '}')
  {
  }

  predicate SameField(f: Field, a: Record, m: Record) {
    Copy(f, a, m) == a
  }

  lemma {:induction false} CopyAllSets(fields: seq<Field>, acc: Record, m: Record, f: Field)
    requires f in fields || SameField(f, acc, m)
    ensures SameField(f, CopyAll(fields, acc, m), m)
  {
    if fields != [] {
      assert fields == [fields[0]] + fields[1..];
      CopyAllSets(fields[1..], Copy(fields[0], acc, m), m, f);
    }
  }

  lemma EveryField(f: Field)
    ensures f in FIELDS
  {
  }

  lemma CopyEveryField(acc: Record, m: Record)
    ensures CopyAll(FIELDS, acc, m) == m
  {
    var out := CopyAll(FIELDS, acc, m);
    forall f ensures SameField(f, out, m) {
      EveryField(f);
      CopyAllSets(FIELDS, acc, m, f);
    }
    hide CopyAll;
    assert SameField(Id, out, m) && SameField(Original, out, m) && SameField(Storage, out, m);
    assert SameField(OriginalSize, out, m) && SameField(StoredSize, out, m);
    assert SameField(CapturedNs, out, m) && SameField(ExpiresNs, out, m) && SameField(Compressed, out, m);
    assert SameField(Reason, out, m) && SameField(Correlation, out, m);
  }

  lemma FitsIsFieldFits(r: Record)
    ensures Fits(r) <==> forall f :: f in FIELDS ==> FieldFits(f, r)
  {
    EveryField(OriginalSize);
    EveryField(StoredSize);
  }

  lemma PrintRecordShape(r: Record, post: string)
    ensures PrintRecord(r) + post == "    " + (['{'] + (PrintFields(r, FIELDS) + (['}'] + post)))
  {
  }

  lemma ReadPrintedRecord(r: Record, post: string)
    ensures !Peek(PrintRecord(r) + post, ']')
    ensures ReadObject(PrintRecord(r) + post).value == if Fits(r) then Some(Some(Mangled(r))) else None
    ensures Fits(r) ==> ReadObject(PrintRecord(r) + post).rest == post
  {
    hide ReadFields, PrintFields, CopyAll, Fits, Mangled, Consume, PrintRecord, SkipSpace, Peek;
    var inner := PrintFields(r, FIELDS) + (['}'] + post);
    PrintRecordShape(r, post);
    assert FieldFits(FIELDS[|FIELDS| - 1], r);
    ReadPrintedFields(FIELDS, EMPTY, r, post);
    FitsIsFieldFits(r);
    hide FieldFits, FIELDS;
    CopyEveryField(EMPTY, Mangled(r));
    AfterSpace("    ", ['{'] + inner);
    Token('{', inner);
    Token('}', post);
    NoCloseNoConsume(ReadFields(EMPTY, inner).rest);
  }

  lemma NoCloseNoConsume(r: string)
    ensures NoClose(r) <==> Consume(r, '}').value.None?
  {
  }

  /** What reading gives back of a written list: it stops at the first record whose sizes do not fit. */
  function Kept(rs: seq<Record>): seq<Record> {
    if rs == [] || !Fits(rs[0]) then [] else [Mangled(rs[0])] + Kept(rs[1..])
  }

  lemma ReadRecordsStep(r: string)
    requires !Peek(r, ']')
    ensures ReadRecords(r) ==
      if ReadObject(r).value.None? then []
      else
        var comma := Consume(ReadObject(r).rest, ',');
        (if ReadObject(r).value.value.Some? then [ReadObject(r).value.value.value] else [])
        + (if comma.value.Some? then ReadRecords(comma.rest) else [])
  {
  }

  lemma PrintRecordsStep(rs: seq<Record>, post: string)
    requires rs != []
    ensures PrintRecords(rs) + post ==
      PrintRecord(rs[0]) + ((if |rs| == 1 then "" else [',']) + ("\n" + (PrintRecords(rs[1..]) + post)))
  {
    hide PrintRecord;
    var first, more := PrintRecord(rs[0]), PrintRecords(rs[1..]);
    var sep := if |rs| == 1 then "" else [','];
    Associate(first + sep, "\n", more);
    Associate(first + sep, "\n" + more, post);
    Associate(first, sep, ("\n" + more) + post);
    Associate("\n", more, post);
  }

  lemma {:induction false} ReadPrintedRecords(rs: seq<Record>, post: string)
    requires Peek(post, ']')
    ensures ReadRecords(PrintRecords(rs) + post) == Kept(rs)
    decreases |rs|
  {
    if rs == [] {
      assert PrintRecords(rs) + post == post;
    } else {
      var more := PrintRecords(rs[1..]) + post;
      var tail := (if |rs| == 1 then "" else [',']) + ("\n" + more);
      assert rs[1..] == [] ==> more == post;
      PeekExcludes(post);
      hide ReadObject, PrintRecord, PrintRecords, Fits, Mangled, Consume, Peek, ReadRecords, SkipSpace;
      PrintRecordsStep(rs, post);
      ReadPrintedRecord(rs[0], tail);
      ReadRecordsStep(PrintRecord(rs[0]) + tail);
      AfterSpace("\n", more);
      Token(',', "\n" + more);
      if |rs| == 1 {
        assert tail == "\n" + post;
      } else {
        ReadPrintedRecords(rs[1..], post);
      }
    }
  }

  lemma PeekExcludes(r: string)
    ensures Peek(r, ']') ==> Consume(r, ',').value.None?
  {
  }

  lemma LoadHeader(r: string)
    ensures Load(['{'] + ("\n  " + (Quoted("items") + ([':'] + (" " + (['['] + r)))))) == ReadRecords(r)
  {
    EscapePlain("items");
    var bracket := " " + (['['] + r);
    var key := Quoted("items") + ([':'] + bracket);
    hide ReadRecords, Consume, ReadString, Quoted, Decoded, SkipSpace, Peek, Escape;
    ReadQuoted("items", [':'] + bracket);
    Token('{', "\n  " + key);
    AfterSpace("\n  ", key);
    Token(':', bracket);
    AfterSpace(" ", ['['] + r);
    Token('[', r);
  }

  /** For every list of records: exactly what a reload of the written index finds. */
  lemma ReloadExactly(rs: seq<Record>)
    ensures Load(Print(rs)) == Kept(rs)
  {
    var records := PrintRecords(rs) + ("  " + ([']'] + "\n}\n"));
    LoadHeader("\n" + records);
    hide Load, PrintRecords, ReadRecords, Kept, Quoted;
    AfterSpace("\n", records);
    AfterSpace("  ", [']'] + "\n}\n");
    Token(']', "\n}\n");
    ReadPrintedRecords(rs, "  " + ([']'] + "\n}\n"));
  }

  predicate RoundTrips(r: Record) {
    Fits(r) && Clean(r.id) && Clean(r.original) && Clean(r.storage) && Clean(r.reason) && Clean(r.correlation)
  }

  lemma MangledIsSame(r: Record)
    ensures Mangled(r) == r <==>
            Clean(r.id) && Clean(r.original) && Clean(r.storage) && Clean(r.reason) && Clean(r.correlation)
  {
    DecodedIsLonger(r.id);
    DecodedIsLonger(r.original);
    DecodedIsLonger(r.storage);
    DecodedIsLonger(r.reason);
    DecodedIsLonger(r.correlation);
  }

  lemma {:induction false} KeptIsSame(rs: seq<Record>)
    ensures Kept(rs) == rs <==> forall r :: r in rs ==> RoundTrips(r)
  {
    if rs != [] {
      assert rs == [rs[0]] + rs[1..];
      KeptIsSame(rs[1..]);
      MangledIsSame(rs[0]);
      hide Mangled, Clean, Fits;
      assert rs[0] in rs;
    }
  }

  /** `loadIndex` undoes `persistIndex` for exactly the lists in which every record round trips. */
  lemma ReloadIsIdentityExactly(rs: seq<Record>)
    ensures Load(Print(rs)) == rs <==> forall r :: r in rs ==> RoundTrips(r)
  {
    ReloadExactly(rs);
    KeptIsSame(rs);
  }

  const CONTROL: Record := EMPTY.(reason := [1 as char])
  const HUGE: Record := EMPTY.(storedSize := TWO_TO_THE_63)

  /** A reason of one control character comes back as five characters; a size of 2^63 loses the rest of the list. */
  lemma LostOnReload()
    ensures Load(Print([CONTROL])) == [CONTROL.(reason := "u0001")]
    ensures Load(Print([EMPTY, HUGE, EMPTY])) == [EMPTY]
  {
    ReloadExactly([CONTROL]);
    ReloadExactly([EMPTY, HUGE, EMPTY]);
    hide Load, Print;
    assert Decoded([1 as char]) == DecodedChar(1 as char) + Decoded("") == "u0001";
    assert [EMPTY, HUGE, EMPTY][1..] == [HUGE, EMPTY];
    MangledIsSame(EMPTY);
  }

  /** A write torn at any byte is read back as the first of the records written. */
  lemma TornWriteKeepsAPrefix(rs: seq<Record>, k: nat)
    requires k <= |Print(rs)| && forall r :: r in rs ==> RoundTrips(r)
    ensures Load(Print(rs)[..k]) <= rs
  {
    TornTextLoadsAPrefix(Print(rs), k);
    ReloadIsIdentityExactly(rs);
  }
}
