/** The text of the index in literals: one file as it is written, and what the scanner makes of other spellings. */
module IndexExample {
  import opened Decimal
  import opened IndexCodec
  import opened IndexFile
  import opened Integers
  import opened Wrappers
  import Quarantine

  // ---------------------------------------------------------------- writing

  /** The escapes, all of them. */
  lemma EscapesAre()
    ensures EscapeChar('\"') == "\\\"" && EscapeChar('\\') == "\\\\" && EscapeChar('\n') == "\\n"
    ensures EscapeChar('\r') == "\\r" && EscapeChar('\t') == "\\t"
    ensures EscapeChar(8 as char) == "\\b" && EscapeChar(12 as char) == "\\f"
    ensures EscapeChar(1 as char) == "\\u0001" && EscapeChar(31 as char) == "\\u001f"
    ensures EscapeChar(' ') == " " && EscapeChar('/') == "/"
  {
  }

  const HELD: Record := Record("7f", "C/a", "Q/7", 1200, 34, -100, 900, true, "x\ny", "")

  /** What is written for each field of this record. */
  function Written(f: Field): string {
    match f
    case Id => "\"id\":\"7f\""
    case Original => "\"original\":\"C/a\""
    case Storage => "\"storage\":\"Q/7\""
    case OriginalSize => "\"original_size\":1200"
    case StoredSize => "\"stored_size\":34"
    case CapturedNs => "\"captured_ns\":-100"
    case ExpiresNs => "\"expires_ns\":900"
    case Compressed => "\"compressed\":true"
    case Reason => "\"reason\":\"x\\ny\""
    case Correlation => "\"correlation\":\"\""
  }

  lemma KeyAndValue(f: Field, key: string, value: string, text: string)
    requires KeyOf(f) == key && ValueText(f, HELD) == value && text == ['\"'] + (key + ['\"']) + ([':'] + value)
    ensures FieldText(f, HELD) == text
  {
    hide KeyOf, ValueText, Quoted;
    KeysArePlain(f);
  }

  lemma IdIsWritten()
    ensures FieldText(Id, HELD) == Written(Id)
  {
    KeyAndValue(Id, "id", "\"7f\"", "\"id\":\"7f\"");
  }

  lemma OriginalIsWritten()
    ensures FieldText(Original, HELD) == Written(Original)
  {
    KeyAndValue(Original, "original", "\"C/a\"", "\"original\":\"C/a\"");
  }

  lemma StorageIsWritten()
    ensures FieldText(Storage, HELD) == Written(Storage)
  {
    KeyAndValue(Storage, "storage", "\"Q/7\"", "\"storage\":\"Q/7\"");
  }

  lemma OriginalSizeIsWritten()
    ensures FieldText(OriginalSize, HELD) == Written(OriginalSize)
  {
    KeyAndValue(OriginalSize, "original_size", "1200", "\"original_size\":1200");
  }

  lemma StoredSizeIsWritten()
    ensures FieldText(StoredSize, HELD) == Written(StoredSize)
  {
    KeyAndValue(StoredSize, "stored_size", "34", "\"stored_size\":34");
  }

  lemma CapturedNsIsWritten()
    ensures FieldText(CapturedNs, HELD) == Written(CapturedNs)
  {
    KeyAndValue(CapturedNs, "captured_ns", "-100", "\"captured_ns\":-100");
  }

  lemma ExpiresNsIsWritten()
    ensures FieldText(ExpiresNs, HELD) == Written(ExpiresNs)
  {
    KeyAndValue(ExpiresNs, "expires_ns", "900", "\"expires_ns\":900");
  }

  lemma CompressedIsWritten()
    ensures FieldText(Compressed, HELD) == Written(Compressed)
  {
    KeyAndValue(Compressed, "compressed", "true", "\"compressed\":true");
  }

  lemma ReasonIsWritten()
    ensures FieldText(Reason, HELD) == Written(Reason)
  {
    KeyAndValue(Reason, "reason", "\"x\\ny\"", "\"reason\":\"x\\ny\"");
  }

  lemma CorrelationIsWritten()
    ensures FieldText(Correlation, HELD) == Written(Correlation)
  {
    KeyAndValue(Correlation, "correlation", "\"\"", "\"correlation\":\"\"");
  }

  /** The fields in their order with commas between them. */
  function Commas(fields: seq<Field>): string {
    if fields == [] then "" else Written(fields[0]) + (if |fields| == 1 then "" else [','] + Commas(fields[1..]))
  }

  lemma AnyIsWritten(f: Field)
    ensures FieldText(f, HELD) == Written(f)
  {
    hide FieldText, Written;
    match f
    case Id => IdIsWritten();
    case Original => OriginalIsWritten();
    case Storage => StorageIsWritten();
    case OriginalSize => OriginalSizeIsWritten();
    case StoredSize => StoredSizeIsWritten();
    case CapturedNs => CapturedNsIsWritten();
    case ExpiresNs => ExpiresNsIsWritten();
    case Compressed => CompressedIsWritten();
    case Reason => ReasonIsWritten();
    case Correlation => CorrelationIsWritten();
  }

  lemma {:induction false} FieldsAreWritten(fields: seq<Field>)
    ensures PrintFields(HELD, fields) == Commas(fields)
  {
    hide FieldText, Written;
    if fields != [] {
      AnyIsWritten(fields[0]);
      FieldsAreWritten(fields[1..]);
    }
  }

  lemma FrameOf(inner: string)
    ensures ['{'] + ("\n  " + ((['\"'] + ("items" + ['\"'])) + ([':'] + (" " + (['['] + ("\n" + inner))))))
         == "{\n  \"items\": [\n" + inner
  {
  }

  /** An item with this record; a tick is 100 nanoseconds. */
  const ITEM: Quarantine.Item :=
    Quarantine.Item("7f", ["C", "a"], ["Q", "7"], 1200, 34, -1, 9, true, "x\ny", "")

  lemma RecordsOfItems()
    ensures Quarantine.Records([ITEM, ITEM]) == [HELD, HELD]
  {
    assert ["C", "a"][1..] == ["a"] && ["Q", "7"][1..] == ["7"];
    assert "C" + (['/'] + "a") == "C/a" && "Q" + (['/'] + "7") == "Q/7";
    assert Quarantine.ToRecord(ITEM) == HELD;
  }

  lemma PrintedRecords()
    ensures PrintRecords([HELD, HELD]) == PrintRecord(HELD) + ",\n" + (PrintRecord(HELD) + "\n")
  {
    hide PrintRecord;
    assert [HELD][1..] == [] && [HELD, HELD][1..] == [HELD];
    assert PrintRecords([HELD]) == PrintRecord(HELD) + "\n";
    assert PrintRecord(HELD) + "," + "\n" == PrintRecord(HELD) + ",\n";
  }

  lemma PrintedIs()
    ensures var line := "    {" + (Commas(FIELDS) + "}");
      Print([HELD, HELD]) == "{\n  \"items\": [\n" + ((line + ",\n" + (line + "\n")) + "  ]\n}\n")
  {
    hide Commas, PrintFields, Quoted;
    ItemsIsPlain();
    FieldsAreWritten(FIELDS);
    PrintedRecords();
    FrameOf((PrintRecord(HELD) + ",\n" + (PrintRecord(HELD) + "\n")) + "  ]\n}\n");
  }

  /** The whole file for two items. */
  lemma FileIs()
    ensures var line := "    {" + (Commas(FIELDS) + "}");
      Quarantine.IndexText([ITEM, ITEM]) ==
        "{\n  \"items\": [\n" + ((line + ",\n" + (line + "\n")) + "  ]\n}\n")
    ensures FIELDS == [Id, Original, Storage, OriginalSize, StoredSize, CapturedNs, ExpiresNs, Compressed, Reason,
                       Correlation]
  {
    hide Commas, Print, Quarantine.Records;
    RecordsOfItems();
    PrintedIs();
  }

  // ---------------------------------------------------------------- other spellings

  /** A backslash takes the next character, whatever it is; five letters stand for control characters. */
  lemma UnescapesAre(c: char)
    ensures Unescape('b') == 8 as char && Unescape('f') == 12 as char && Unescape('n') == '\n'
    ensures Unescape('r') == '\r' && Unescape('t') == '\t'
    ensures c !in "bfnrt" ==> Unescape(c) == c
  {
    assert "bfnrt"[0] == 'b' && "bfnrt"[1] == 'f' && "bfnrt"[2] == 'n' && "bfnrt"[3] == 'r' && "bfnrt"[4] == 't';
  }

  lemma OneCharacter(c: char, rest: string)
    ensures c != '\"' && c != '\\' ==> ReadBody([c] + rest) == Prepend(c, ReadBody(rest))
    ensures ReadBody(['\\', c] + rest) == Prepend(Unescape(c), ReadBody(rest))
    ensures ReadBody(['\"'] + rest) == Read(Some(""), rest)
  {
    assert ([c] + rest)[1..] == rest && (['\\', c] + rest)[2..] == rest && (['\"'] + rest)[1..] == rest;
  }

  /** An escaped slash is a slash, and a unicode escape is its letters and digits. */
  lemma ForeignEscapes(rest: string)
    ensures ReadString(" \"\\/\\u41\"" + rest) == Read(Some("/u41"), rest)
  {
    hide ReadBody, Unescape, SkipSpace;
    var end := ['\"'] + rest;
    UnescapesAre('/');
    UnescapesAre('u');
    OneCharacter('\"', rest);
    OneCharacter('1', end);
    OneCharacter('4', ['1'] + end);
    OneCharacter('u', ['4'] + (['1'] + end));
    OneCharacter('/', ['\\', 'u'] + (['4'] + (['1'] + end)));
    var body := ['\\', '/'] + (['\\', 'u'] + (['4'] + (['1'] + end)));
    assert " \"\\/\\u41\"" + rest == [' '] + (['\"'] + body);
    OneSpace(['\"'] + body);
    assert ['/'] + (['u'] + (['4'] + (['1'] + ""))) == "/u41";
  }

  /** The white space between tokens. */
  lemma SpacesAre(c: char)
    ensures IsSpace(c) <==> c as int in {9, 10, 13, 32}
  {
  }

  lemma OneSpace(r: string)
    requires r != "" && !IsSpace(r[0])
    ensures SkipSpace([' '] + r) == r
  {
    assert ([' '] + r)[1..] == r;
  }

  lemma SpaceThenNumber(r: string)
    requires r != "" && !IsSpace(r[0])
    ensures ReadInt([' '] + r) == ReadInt(r)
  {
    hide SkipSpace, Stoll;
    OneSpace(r);
    assert SkipSpace(r) == r by { NoSpace(r); }
  }

  lemma NoSpace(r: string)
    requires r != "" && !IsSpace(r[0])
    ensures SkipSpace(r) == r
  {
  }

  lemma SignThenDigits(sign: char, digits: string, rest: string)
    requires sign == '+' || sign == '-'
    requires AllDigits(digits) && (rest == "" || !IsDigit(rest[0]))
    ensures ReadInt([sign] + (digits + rest)) == Read(Stoll(sign == '-', digits), rest)
  {
    hide SkipSpace, Stoll;
    var next := [sign] + (digits + rest);
    NoSpace(next);
    DigitsAndMore(digits, rest);
    assert next[1..] == digits + rest;
    assert (digits + rest)[..|digits|] == digits && next[1 + |digits|..] == rest;
  }

  /** White space and a sign before the digits of a number: a plus changes nothing, a minus negates. */
  lemma SignedNumber(sign: char, n: int, rest: string)
    requires sign == '+' || sign == '-'
    requires 0 <= n < TWO_TO_THE_63 && (rest == "" || !IsDigit(rest[0]))
    ensures ReadInt([' '] + ([sign] + (PrintNat(n) + rest))) == Read(Some(if sign == '-' then -n else n), rest)
  {
    hide PrintNat, NatValue, ReadInt;
    ValueOfPrinted(n);
    SpaceThenNumber([sign] + (PrintNat(n) + rest));
    SignThenDigits(sign, PrintNat(n), rest);
  }

  /** A negative size is read modulo 2^64. */
  lemma MinusOne()
    ensures ReadInt("-1}") == Read(Some(-1), "}") && ToU64(-1) == 0xFFFF_FFFF_FFFF_FFFF
  {
    assert "-1}"[1..] == "1}" && "1}"[..1] == "1" && "1"[..0] == "" && "1}"[1..] == "}";
  }

  /** Without a digit there is no number, sign or not. */
  lemma NoNumber(r: string)
    requires var next := SkipSpace(r); var rest := next[SignLength(next)..]; rest == "" || !IsDigit(rest[0])
    ensures ReadInt(r).value.None?
  {
    hide SkipSpace;
  }

  /** Only the ten keys are known; any other ends the reading of its item. */
  lemma OtherKeys(key: string)
    ensures FieldOf(key).None? <==> forall f :: KeyOf(f) != key
  {
    if FieldOf(key).Some? {
      assert KeyOf(FieldOf(key).value) == key;
    } else {
      forall f ensures KeyOf(f) != key { FieldOfKeyOf(f); }
    }
  }
}
