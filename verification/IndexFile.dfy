/**
 The loops of quarantine.cpp that write and read the index, proved to compute `Print` and `Load` of
 module IndexCodec. Together with that module's lemmas: on every text the reader stops with its
 cursor in bounds, and what it reads is determined by the text alone.
 */
module IndexFile {
  import opened Decimal
  import opened Integers
  import opened Wrappers
  import opened IndexCodec

  /** `escapeJson`. */
  method EscapeJson(value: string) returns (out: string)
    ensures out == Escape(value)
  {
    out := "";
    for i := 0 to |value|
      invariant out + Escape(value[i..]) == Escape(value)
    {
      assert value[i..][1..] == value[i + 1..];
      ghost var more := Escape(value[i + 1..]);
      assert (out + EscapeChar(value[i])) + more == out + (EscapeChar(value[i]) + more);
      out := out + EscapeChar(value[i]);
    }
  }

  lemma RestMovesOn(s: string, i: nat, j: nat)
    requires i <= j <= |s|
    ensures s[i..][j - i..] == s[j..]
  {
  }

  /** The characters `out` have been read before what `tail` yields. */
  function Onto(out: string, tail: Read<string>): Read<string> {
    if tail.value.Some? then Read(Some(out + tail.value.value), tail.rest) else tail
  }

  lemma OntoStep(out: string, c: char, tail: Read<string>)
    ensures Onto(out, Prepend(c, tail)) == Onto(out + [c], tail)
  {
    if tail.value.Some? {
      Associate(out, [c], tail.value.value);
    }
  }

  /** `ReadInt` in terms of positions in the input. */
  lemma ReadIntAt(r: string, input: string, start: nat)
    requires start <= |input| && SkipSpace(r) == input[start..]
    ensures var first := start + SignLength(input[start..]);
      var end := first + DigitsLength(input[first..]);
      ReadInt(r) == Read(Stoll(start < |input| && input[start] == '-', input[first..end]), input[end..])
  {
    hide Stoll, SkipSpace, DigitsLength;
    var next := input[start..];
    var first := start + SignLength(next);
    var end := first + DigitsLength(input[first..]);
    assert next[SignLength(next)..] == input[first..];
    assert input[first..][..DigitsLength(input[first..])] == input[first..end];
    assert next[end - start..] == input[end..];
  }

  class JsonScanner {
    const input: string
    var cursor: nat

    ghost predicate Valid()
      reads this
    {
      cursor <= |input|
    }

    ghost function Rest(): string
      requires Valid()
      reads this
    {
      input[cursor..]
    }

    constructor (text: string)
      ensures Valid() && input == text && Rest() == text
    {
      input := text;
      cursor := 0;
    }

    method SkipWhitespace()
      requires Valid()
      modifies this
      ensures Valid() && Rest() == SkipSpace(old(Rest())) && cursor >= old(cursor)
    {
      while cursor < |input| && IsSpace(input[cursor])
        invariant old(cursor) <= cursor <= |input|
        invariant SkipSpace(Rest()) == SkipSpace(old(Rest()))
      {
        assert Rest()[1..] == input[cursor + 1..];
        cursor := cursor + 1;
      }
    }

    method TryConsume(c: char) returns (found: bool)
      requires Valid()
      modifies this
      ensures Valid() && cursor >= old(cursor) + (if found then 1 else 0)
      ensures Consume(old(Rest()), c) == Read(if found then Some(()) else None, Rest())
    {
      SkipWhitespace();
      found := cursor < |input| && input[cursor] == c;
      if found {
        assert Rest()[1..] == input[cursor + 1..];
        cursor := cursor + 1;
      }
    }

    method PeekFor(c: char) returns (found: bool)
      requires Valid()
      modifies this
      ensures Valid() && cursor >= old(cursor)
      ensures found == Peek(old(Rest()), c) && Rest() == SkipSpace(old(Rest()))
    {
      SkipWhitespace();
      found := cursor < |input| && input[cursor] == c;
    }

    method NextString() returns (value: Option<string>)
      requires Valid()
      modifies this
      ensures Valid() && cursor >= old(cursor) + (if value.Some? then 1 else 0)
      ensures ReadString(old(Rest())) == Read(value, Rest())
    {
      SkipWhitespace();
      if cursor >= |input| || input[cursor] != '\"' { return None; }
      assert Rest()[1..] == input[cursor + 1..];
      cursor := cursor + 1;
      ghost var body := ReadBody(Rest());
      var out := "";
      assert Onto("", body) == body by { if body.value.Some? { assert "" + body.value.value == body.value.value; } }
      while cursor < |input|
        invariant old(cursor) < cursor <= |input|
        invariant Onto(out, ReadBody(Rest())) == body
      {
        var c := input[cursor];
        ghost var here := Rest();
        cursor := cursor + 1;
        assert here[1..] == Rest();
        if c == '\"' {
          assert out + "" == out;
          return Some(out);
        }
        if c == '\\' && cursor < |input| {
          var next := input[cursor];
          cursor := cursor + 1;
          assert here[2..] == Rest();
          OntoStep(out, Unescape(next), ReadBody(Rest()));
          out := out + [Unescape(next)];
        } else {
          OntoStep(out, c, ReadBody(Rest()));
          out := out + [c];
        }
      }
      value := None;
    }

    method SkipDigits()
      requires Valid()
      modifies this
      ensures Valid() && cursor == old(cursor) + DigitsLength(old(Rest()))
    {
      while cursor < |input| && IsDigit(input[cursor])
        invariant old(cursor) <= cursor <= |input|
        invariant DigitsLength(old(Rest())) == cursor - old(cursor) + DigitsLength(Rest())
      {
        assert Rest()[1..] == input[cursor + 1..];
        cursor := cursor + 1;
      }
    }

    method NextInt() returns (value: Option<I64>)
      requires Valid()
      modifies this
      ensures Valid() && cursor >= old(cursor)
      ensures ReadInt(old(Rest())) == Read(value, Rest())
    {
      hide ReadInt, SkipSpace, DigitsLength, Stoll;
      SkipWhitespace();
      ReadIntAt(old(Rest()), input, cursor);
      var start := cursor;
      if cursor < |input| && (input[cursor] == '-' || input[cursor] == '+') { cursor := cursor + 1; }
      var first := cursor;
      assert first == start + SignLength(input[start..]);
      SkipDigits();
      assert AllDigits(input[first..cursor]) by { assert input[first..cursor] == input[first..][..cursor - first]; }
      value := Stoll(start < |input| && input[start] == '-', input[first..cursor]);
    }

    method NextBool() returns (value: Option<bool>)
      requires Valid()
      modifies this
      ensures Valid() && cursor >= old(cursor)
      ensures ReadBool(old(Rest())) == Read(value, Rest())
    {
      SkipWhitespace();
      if "true" <= input[cursor..] {
        RestMovesOn(input, cursor, cursor + 4);
        cursor := cursor + 4;
        return Some(true);
      }
      if "false" <= input[cursor..] {
        RestMovesOn(input, cursor, cursor + 5);
        cursor := cursor + 5;
        return Some(false);
      }
      value := None;
    }

    /** The value of one field, stored into `item`. */
    method NextValue(f: Field, item: Record) returns (value: Option<Record>)
      requires Valid()
      modifies this
      ensures Valid() && cursor >= old(cursor)
      ensures ReadValue(f, item, old(Rest())) == Read(value, Rest())
    {
      hide ReadString, ReadInt, ReadBool;
      value := None;
      match f {
        case Id => var v := NextString(); if v.Some? { value := Some(item.(id := v.value)); }
        case Original => var v := NextString(); if v.Some? { value := Some(item.(original := v.value)); }
        case Storage => var v := NextString(); if v.Some? { value := Some(item.(storage := v.value)); }
        case OriginalSize => var v := NextInt(); if v.Some? { value := Some(item.(originalSize := ToU64(v.value))); }
        case StoredSize => var v := NextInt(); if v.Some? { value := Some(item.(storedSize := ToU64(v.value))); }
        case CapturedNs => var v := NextInt(); if v.Some? { value := Some(item.(capturedNs := v.value)); }
        case ExpiresNs => var v := NextInt(); if v.Some? { value := Some(item.(expiresNs := v.value)); }
        case Compressed => var v := NextBool(); if v.Some? { value := Some(item.(compressed := v.value)); }
        case Reason => var v := NextString(); if v.Some? { value := Some(item.(reason := v.value)); }
        case Correlation => var v := NextString(); if v.Some? { value := Some(item.(correlation := v.value)); }
      }
    }

    /** One turn of the inner loop of `loadIndex` up to the separator. */
    method NextField(item: Record) returns (value: Option<Record>)
      requires Valid()
      modifies this
      ensures Valid() && cursor >= old(cursor) + (if value.Some? then 1 else 0)
      ensures ReadField(item, old(Rest())) == Read(value, Rest())
    {
      hide ReadString, Consume, ReadValue, FieldOf;
      var key := NextString();
      if key.None? { return None; }
      var colon := TryConsume(':');
      if !colon { return None; }
      var f := FieldOf(key.value);
      if f.None? { return None; }
      value := NextValue(f.value, item);
    }
  }

  lemma SkipTwice(r: string)
    ensures SkipSpace(SkipSpace(r)) == SkipSpace(r)
    ensures forall c :: Peek(SkipSpace(r), c) == Peek(r, c)
    ensures forall c :: Consume(SkipSpace(r), c) == Consume(r, c)
  {
  }

  lemma SkippedReadsTheSame(r: string)
    ensures ReadRecords(SkipSpace(r)) == ReadRecords(r)
    ensures forall acc :: ReadFields(acc, SkipSpace(r)) == ReadFields(acc, r)
  {
    SkipTwice(r);
    hide SkipSpace, Peek, Consume;
  }

  /** The inner loop of `loadIndex`: the fields of one object. */
  method LoadFields(scanner: JsonScanner) returns (valid: bool, item: Record)
    requires scanner.Valid()
    modifies scanner
    ensures scanner.Valid() && scanner.cursor >= old(scanner.cursor)
    ensures ReadFields(EMPTY, old(scanner.Rest())) == Read(if valid then Some(item) else None, scanner.Rest())
  {
    hide SkipSpace, Consume, Peek, ReadField;
    valid, item := true, EMPTY;
    ghost var whole := ReadFields(EMPTY, scanner.Rest());
    ghost var before := scanner.Rest();
    var closed := scanner.PeekFor('}');
    SkippedReadsTheSame(before);
    SkipTwice(before);
    while !closed
      invariant scanner.Valid() && scanner.cursor >= old(scanner.cursor)
      invariant SkipSpace(scanner.Rest()) == scanner.Rest() && closed == Peek(scanner.Rest(), '}')
      invariant ReadFields(item, scanner.Rest()) == whole
      decreases |scanner.input| - scanner.cursor
    {
      var value := scanner.NextField(item);
      if value.None? { return false, item; }
      item := value.value;
      before := scanner.Rest();
      var comma := scanner.TryConsume(',');
      ghost var after := scanner.Rest();
      closed := scanner.PeekFor('}');
      SkippedReadsTheSame(after);
      SkipTwice(after);
      if !comma {
        return closed, item;
      }
    }
  }

  /** One object of the list: `stop` when the outer loop breaks off. */
  method LoadObject(scanner: JsonScanner) returns (stop: bool, valid: bool, item: Record)
    requires scanner.Valid()
    modifies scanner
    ensures scanner.Valid() && scanner.cursor >= old(scanner.cursor) + (if stop then 0 else 1)
    ensures ReadObject(old(scanner.Rest())) ==
      Read(if stop then None else Some(if valid then Some(item) else None), scanner.Rest())
  {
    hide SkipSpace, Consume, Peek, ReadFields;
    stop, valid, item := true, false, EMPTY;
    var open := scanner.TryConsume('{');
    if !open { return; }
    valid, item := LoadFields(scanner);
    var close := scanner.TryConsume('}');
    stop := !close;
  }

  /** The checks before the list. */
  method OpenList(scanner: JsonScanner) returns (ok: bool)
    requires scanner.Valid()
    modifies scanner
    ensures scanner.Valid()
    ensures Load(old(scanner.Rest())) == if ok then ReadRecords(scanner.Rest()) else []
  {
    hide SkipSpace, Consume, Peek, ReadString, ReadRecords;
    ok := scanner.TryConsume('{');
    if !ok { return; }
    var key := scanner.NextString();
    if key.None? || key.value != "items" { return false; }
    ok := scanner.TryConsume(':');
    if !ok { return; }
    ok := scanner.TryConsume('[');
  }

  /** The outer loop of `loadIndex`. */
  method LoadList(scanner: JsonScanner) returns (items: seq<Record>)
    requires scanner.Valid()
    modifies scanner
    ensures scanner.Valid() && items == ReadRecords(old(scanner.Rest()))
  {
    hide SkipSpace, Consume, Peek, ReadObject, ReadRecords;
    items := [];
    var closed := scanner.PeekFor(']');
    SkippedReadsTheSame(old(scanner.Rest()));
    SkipTwice(old(scanner.Rest()));
    while !closed
      invariant scanner.Valid() && closed == Peek(scanner.Rest(), ']')
      invariant items + ReadRecords(scanner.Rest()) == ReadRecords(old(scanner.Rest()))
      decreases |scanner.input| - scanner.cursor
    {
      ReadRecordsStep(scanner.Rest());
      var stop, valid, item := LoadObject(scanner);
      if stop { return; }
      var comma := scanner.TryConsume(',');
      ghost var after := scanner.Rest();
      if valid { items := items + [item]; }
      closed := scanner.PeekFor(']');
      if !comma { return; }
      SkippedReadsTheSame(after);
      SkipTwice(after);
    }
    ReadRecordsAtEnd(scanner.Rest());
  }

  /** `loadIndex`, from the text of the index to its items. */
  method LoadIndex(raw: string) returns (items: seq<Record>)
    ensures items == Load(raw)
  {
    var scanner := new JsonScanner(raw);
    var ok := OpenList(scanner);
    if ok { items := LoadList(scanner); } else { items := []; }
  }

  lemma ReadRecordsAtEnd(r: string)
    ensures Peek(r, ']') ==> ReadRecords(r) == []
  {
  }

  /** Lower-case letters and underscores. */
  predicate IsPlain(s: string) {
    forall i :: 0 <= i < |s| ==> '_' <= s[i] <= 'z'
  }

  lemma {:induction false} PlainIsWritten(s: string)
    requires IsPlain(s)
    ensures Escape(s) == s
  {
    if s != "" {
      assert EscapeChar(s[0]) == [s[0]];
      PlainIsWritten(s[1..]);
    }
  }

  /** Escaping leaves the keys as they are. */
  lemma KeysArePlain(f: Field)
    ensures Quoted(KeyOf(f)) == ['\"'] + (KeyOf(f) + ['\"'])
  {
    hide Escape;
    assert IsPlain(KeyOf(f)) by {
      match f
      case Id =>
      case Original =>
      case Storage =>
      case OriginalSize =>
      case StoredSize =>
      case CapturedNs =>
      case ExpiresNs =>
      case Compressed =>
      case Reason =>
      case Correlation =>
    }
    PlainIsWritten(KeyOf(f));
  }

  lemma ItemsIsPlain()
    ensures Quoted("items") == ['\"'] + ("items" + ['\"'])
  {
    hide Escape;
    PlainIsWritten("items");
  }

  /** The value of one field; strings go through `escapeJson`. */
  method PrintValue(f: Field, e: Record) returns (text: string)
    ensures text == ValueText(f, e)
  {
    match f
    case OriginalSize => text := PrintInt(e.originalSize);
    case StoredSize => text := PrintInt(e.storedSize);
    case CapturedNs => text := PrintInt(e.capturedNs);
    case ExpiresNs => text := PrintInt(e.expiresNs);
    case Compressed => text := if e.compressed then "true" else "false";
    case _ =>
      var escaped := EscapeJson(
        match f
        case Id => e.id
        case Original => e.original
        case Storage => e.storage
        case Reason => e.reason
        case _ => e.correlation);
      text := ['\"'] + (escaped + ['\"']);
  }

  /** The text `persistIndex` writes for one item, without the separator after it. */
  method PrintItem(e: Record) returns (text: string)
    ensures text == PrintRecord(e)
  {
    hide PrintFields, ValueText, KeyOf;
    var body := "";
    assert FIELDS[0..] == FIELDS;
    PrintNoFields(e);
    for k := 0 to |FIELDS|
      invariant body + PrintFields(e, FIELDS[k..]) == PrintFields(e, FIELDS)
    {
      KeysArePlain(FIELDS[k]);
      var value := PrintValue(FIELDS[k], e);
      var field := (['\"'] + (KeyOf(FIELDS[k]) + ['\"'])) + ([':'] + value);
      var separator := if k + 1 == |FIELDS| then "" else [','];
      PrintFieldsOneMore(e, FIELDS, k);
      Associate(body, field, separator + PrintFields(e, FIELDS[k + 1..]));
      Associate(body + field, separator, PrintFields(e, FIELDS[k + 1..]));
      body := (body + field) + separator;
    }
    text := "    " + (['{'] + (body + ['}']));
  }

  lemma PrintNoFields(e: Record)
    ensures PrintFields(e, []) == "" && FIELDS[|FIELDS|..] == []
  {
  }

  lemma PrintFieldsOneMore(e: Record, fields: seq<Field>, k: nat)
    requires k < |fields|
    ensures PrintFields(e, fields[k..]) ==
      FieldText(fields[k], e) + ((if k + 1 == |fields| then "" else [',']) + PrintFields(e, fields[k + 1..]))
  {
  }

  /** `persistIndex`: the whole text. */
  method PersistIndex(items: seq<Record>) returns (text: string)
    ensures text == Print(items)
  {
    hide PrintRecord, PrintRecords, Quoted;
    var body := "";
    PrintNoRecords();
    assert items[0..] == items;
    for i := 0 to |items|
      invariant body + PrintRecords(items[i..]) == PrintRecords(items)
    {
      var line := PrintItem(items[i]);
      line := line + ((if i + 1 == |items| then "" else [',']) + "\n");
      PrintRecordsOneMore(items, i);
      Associate(body, line, PrintRecords(items[i + 1..]));
      body := body + line;
    }
    assert items[|items|..] == [];
    ItemsIsPlain();
    var key := ['\"'] + ("items" + ['\"']);
    text := ['{'] + ("\n  " + (key + ([':'] + (" " + (['['] + ("\n" +
      (body + ("  " + ([']'] + "\n}\n")))))))));
  }

  lemma PrintNoRecords()
    ensures PrintRecords([]) == ""
  {
  }

  lemma PrintRecordsOneMore(items: seq<Record>, i: nat)
    requires i < |items|
    ensures PrintRecords(items[i..]) ==
      (PrintRecord(items[i]) + ((if i + 1 == |items| then "" else [',']) + "\n")) + PrintRecords(items[i + 1..])
  {
  }
}
