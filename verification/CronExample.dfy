/** Cron texts in literals: how they are read, how they are refused, and one search answered. */
module CronExample {
  import opened Calendar
  import opened Cron
  import opened CronSearch
  import opened CronText
  import opened Decimal
  import opened Wrappers

  // ---------------------------------------------------------------- texts

  lemma Digits(n: nat)
    ensures n < 10 ==> PrintNat(n) == ['0' + n as char]
    ensures PrintNat(15) == "15" && PrintNat(28) == "28"
  {
    assert PrintNat(15) == PrintNat(1) + "5" && PrintNat(28) == PrintNat(2) + "8";
  }

  lemma OnlyText(n: nat)
    ensures FieldText(Only(n)) == PrintNat(n)
  {
    assert Texts(Only(n)) == [PrintNat(n) + ""];
  }

  lemma StarText()
    ensures FieldText(STAR) == "*"
  {
    assert Texts(STAR) == ["*" + ""];
  }

  /** The texts of the schedules above: minute, hour, day, month, weekday. */
  lemma TextsAre()
    ensures Written(EveryMinute()) == "* * * * *" && Written(FiveOClock()) == "0 5 * * *"
    ensures Written(June()) == "0 0 15 6 *" && Written(LeapDay()) == "0 0 28 1 *"
  {
    hide FieldText, PrintNat, Only;
    StarText();
    OnlyText(0);
    OnlyText(1);
    OnlyText(5);
    OnlyText(6);
    OnlyText(15);
    OnlyText(28);
    Digits(0);
    Digits(1);
    Digits(5);
    Digits(6);
  }

  // ---------------------------------------------------------------- a schedule with steps, spans and lists

  const EVERY_20: Part := Part(Star, Some("20"))
  const TO_2: Part := Part(Span("0", "2"), None)
  const AT_22: Part := Part(Number("22"), None)

  function Mixed(): Schedule {
    Schedule([EVERY_20], [TO_2, AT_22], Only(1), Only(1), Only(0))
  }

  lemma SmallNumbers()
    ensures NatValue("0") == 0 && NatValue("2") == 2 && NatValue("20") == 20 && NatValue("22") == 22
    ensures Numeral("0") && Numeral("2") && Numeral("20") && Numeral("22")
  {
    assert "0"[..0] == "" && "2"[..0] == "" && "20"[..1] == "2" && "22"[..1] == "2";
  }

  lemma PartTexts()
    ensures PartText(EVERY_20) == "*/20" && PartText(TO_2) == "0-2" && PartText(AT_22) == "22"
  {
    assert "*" + ("/" + "20") == "*/20" && "0" + "-" + "2" + "" == "0-2" && "22" + "" == "22";
  }

  lemma MixedText()
    ensures Written(Mixed()) == "*/20 0-2,22 1 1 0"
  {
    hide PartText, PrintNat, Only;
    PartTexts();
    assert Texts([EVERY_20]) == ["*/20"] && Texts([TO_2, AT_22]) == ["0-2", "22"];
    assert ["0-2", "22"][1..] == ["22"];
    OnlyText(1);
    OnlyText(0);
    Digits(0);
    Digits(1);
  }

  lemma MinutesMean(v: int)
    ensures EVERY_20.Valid() && Fits(EVERY_20, 0, 59)
    ensures Denotes(EVERY_20, 0, 59, v) <==> v in {0, 20, 40}
  {
    SmallNumbers();
    hide NatValue;
  }

  lemma HoursMean(v: int)
    ensures TO_2.Valid() && Fits(TO_2, 0, 23) && AT_22.Valid() && Fits(AT_22, 0, 23)
    ensures Denotes(TO_2, 0, 23, v) || Denotes(AT_22, 0, 23, v) <==> v in {0, 1, 2, 22}
  {
    SmallNumbers();
    hide NatValue;
  }

  lemma MixedFields()
    ensures IsField([EVERY_20], 0, 59) && IsField([TO_2, AT_22], 0, 23)
    ensures Denoted([EVERY_20], 0, 59) == {0, 20, 40} && Denoted([TO_2, AT_22], 0, 23) == {0, 1, 2, 22}
  {
    hide Denotes, Fits;
    MinutesMean(0);
    HoursMean(0);
    forall v: int ensures v in Denoted([EVERY_20], 0, 59) <==> v in {0, 20, 40} {
      MinutesMean(v);
      assert SomeDenotes([EVERY_20], 0, 59, v) <==> Denotes([EVERY_20][0], 0, 59, v);
    }
    forall v: int ensures v in Denoted([TO_2, AT_22], 0, 23) <==> v in {0, 1, 2, 22} {
      HoursMean(v);
      assert SomeDenotes([TO_2, AT_22], 0, 23, v)
        <==> Denotes([TO_2, AT_22][0], 0, 23, v) || Denotes([TO_2, AT_22][1], 0, 23, v);
    }
  }

  /** Steps, spans, lists and numbers, each field in its place. */
  lemma MixedIsRead()
    ensures Written(Mixed()) == "*/20 0-2,22 1 1 0"
    ensures Parsed("*/20 0-2,22 1 1 0") == Ok(Expression({0, 20, 40}, {0, 1, 2, 22}, {1}, {1}, {0}))
  {
    hide Written, Parsed, Denoted, IsField, Only, ReadValues;
    MixedText();
    MixedFields();
    OnlyDenotes(1, 1, 31);
    OnlyDenotes(1, 1, 12);
    OnlyDenotes(0, 0, 6);
    WrittenParses(Mixed());
    ParsedIs(Written(Mixed()));
    assert {1} - {31} == {1} && {1} - {12} == {1};
  }

  // ---------------------------------------------------------------- refusals and lenient readings

  /** The white space between fields. */
  lemma BlanksAre(c: char)
    ensures Blank(c) <==> c as int in {9, 10, 11, 12, 13, 32}
  {
  }

  /** A part is refused for its step when no number stands after its slash, and otherwise for its bounds. */
  lemma PartRefused(base: string, step: string, minValue: int, maxValue: int)
    requires forall i :: 0 <= i < |base| ==> base[i] != '/'
    ensures RangeOf(base + ['/'] + step, minValue, maxValue) == Err(BadStep) <==> FromChars(step).None?
    ensures RangeOf(base, minValue, maxValue) != Err(BadStep)
  {
    FoundAt(base, '/', step);
    assert (base + ['/'] + step)[|base| + 1..] == step;
    hide FromChars, IndexOf, RangeWritten, InBounds;
  }

  /** Zero is no step, and there is no minute 60. */
  lemma OutOfBoundsAre()
    ensures RangeOf("*/0", 0, 59) == Err(OutOfBounds) && RangeOf("60", 0, 59) == Err(OutOfBounds)
    ensures RangeOf("59", 0, 59) == Ok(Range(59, 59, 1))
  {
    var zero, sixty, last := Part(Star, Some("0")), Part(Number("60"), None), Part(Number("59"), None);
    assert "0"[..0] == "" && "60"[..1] == "6" && "6"[..0] == "" && "59"[..1] == "5" && "5"[..0] == "";
    assert NatValue("0") == 0 && NatValue("60") == 60 && NatValue("59") == 59;
    assert PartText(zero) == "*/0" && PartText(sixty) == "60" && PartText(last) == "59";
    hide NatValue, RangeOf, PartText;
    PartIsReadExactly(zero, 0, 59);
    PartIsReadExactly(sixty, 0, 59);
    PartIsReadExactly(last, 0, 59);
    NotForItsStep(zero, 0, 59);
    NotForItsStep(sixty, 0, 59);
  }

  lemma NotForItsStep(p: Part, minValue: int, maxValue: int)
    requires p.Valid() && (p.step.Some? ==> SmallNumeral(p.step.value))
    ensures RangeOf(PartText(p), minValue, maxValue) != Err(BadStep)
  {
    PartApart(p);
    if p.step.Some? { FromCharsNumeral(p.step.value); }
    hide FromChars, NatValue, IndexOf, PartText, RangeWritten;
  }

  lemma ReadsAsRange(text: string, lo: string, hi: string, minValue: int, maxValue: int)
    requires text == lo + ['-'] + hi && text != "*"
    requires (forall i :: 0 <= i < |lo| ==> lo[i] != '-') && forall i :: 0 <= i < |text| ==> text[i] != '/'
    ensures StepWritten(text) == Some(1) && text[..IndexOf(text, '/')] == text
    ensures RangeWritten(text, 1, minValue, maxValue)
         == Range(FromCharsOr(lo, minValue), FromCharsOr(hi, maxValue), 1)
    ensures WellWritten(text) ==> SmallNumeral(text) || (SmallNumeral(lo) && SmallNumeral(hi))
  {
    hide FromChars, IndexOf, SmallNumeral;
    FoundAt(text, '/', "");
    FoundAt(lo, '-', hi);
    assert text[..|lo|] == lo && text[|lo| + 1..] == hi && text[..|text|] == text;
  }

  /** A span with an end left out reaches to the bound of the field. */
  lemma OpenSpans(n: string, minValue: int, maxValue: int)
    requires SmallNumeral(n) && minValue <= NatValue(n) <= maxValue
    ensures RangeOf("-" + n, minValue, maxValue) == Ok(Range(minValue, NatValue(n), 1)) && !WellWritten("-" + n)
    ensures RangeOf(n + "-", minValue, maxValue) == Ok(Range(NatValue(n), maxValue, 1)) && !WellWritten(n + "-")
  {
    hide FromChars, IndexOf, NatValue, RangeWritten, StepWritten, WellWritten;
    NumeralHasNo(n, '-');
    NumeralHasNo(n, '/');
    FromCharsNumeral(n);
    NoNumber();
    var below, above := "-" + n, n + "-";
    assert below == "" + ['-'] + n && above == n + ['-'] + "";
    assert below[0] == '-' && above[|n|] == '-' && above[0] == n[0] && IsDigit(n[0]);
    ReadsAsRange(below, "", n, minValue, maxValue);
    ReadsAsRange(above, n, "", minValue, maxValue);
    assert !SmallNumeral(below) && !SmallNumeral(above);
  }

  lemma NoNumber()
    ensures FromChars("") == None && !SmallNumeral("")
  {
  }

  // ---------------------------------------------------------------- one search

  /** `0 9 * * 1`: Mondays at nine. */
  function Mondays(): Schedule {
    Schedule(Only(0), Only(9), STAR, STAR, Only(1))
  }

  lemma MondaysHit(minute: int)
    ensures Mondays().Valid() && Parsed(Written(Mondays())).Ok?
    ensures var tm := Broken(minute);
      Hits(Parsed(Written(Mondays())).value, minute) <==>
        tm.min == 0 && tm.hour == 9 && tm.wday == 1 && tm.mday != 1 && tm.mon != 0
  {
    hide Parsed, Written, Hits, Broken, Leap, Only, IsField, Denoted;
    OnlyDenotes(0, 0, 59);
    OnlyDenotes(9, 0, 23);
    StarIsField(1, 31);
    StarIsField(1, 12);
    OnlyDenotes(1, 0, 6);
    BrokenInRange(minute);
    ScheduleFires(Mondays(), minute);
  }

  const SUNDAY_2_JUNE_2024: int := 739038

  lemma SecondOfJune()
    ensures WeekdayOf(SUNDAY_2_JUNE_2024) == 0
    ensures MinutesOf(Tm(0, 8, 2, 5, 2024, 0)) == SUNDAY_2_JUNE_2024 * 1440 + 480
    ensures MinutesOf(Tm(0, 9, 3, 5, 2024, 1)) == SUNDAY_2_JUNE_2024 * 1440 + 1440 + 540
    ensures Tm(0, 8, 2, 5, 2024, 0).Valid() && Tm(0, 9, 3, 5, 2024, 1).Valid()
  {
    LeapYears();
    assert DaysBefore(2024) == 738885;
    assert DaysBeforeMonth(true, 3) == 91 && DaysBeforeMonth(true, 5) == 152;
  }

  lemma DayAndTime(minute: int)
    ensures var tm := Broken(minute);
      && minute == (minute / 60 / 24) * 1440 + tm.hour * 60 + tm.min && tm.wday == WeekdayOf(minute / 60 / 24)
  {
    hide OnDay, WeekdayOf;
    TimeOnDay(minute / 60 / 24, minute / 60 % 24, minute % 60);
  }

  lemma NotBeforeMonday(minute: int)
    requires SUNDAY_2_JUNE_2024 * 1440 + 480 < minute < SUNDAY_2_JUNE_2024 * 1440 + 1440 + 540
    ensures Mondays().Valid() && Parsed(Written(Mondays())).Ok?
    ensures !Hits(Parsed(Written(Mondays())).value, minute)
  {
    hide Parsed, Written, Hits, Broken, Mondays;
    MondaysHit(minute);
    DayAndTime(minute);
  }

  lemma FirstHitIsTheAnswer(e: Expression, now: int, later: int, offset: int, out: Outcome)
    requires Broken(now).min != 59 && now < later <= now + ATTEMPTS && Hits(e, later)
    requires forall k :: now < k < later ==> !Hits(e, k)
    ensures Answers(e, TimeOf(now, offset), offset, out) <==> out == FiresAt(TimeOf(later, offset))
  {
    hide Broken, Hits, HourHits, LocalMinute, TimeOf;
    MinuteOfTime(now, offset);
    MinuteOfTime(later, offset);
  }

  /** Asked on Sunday, 2 June 2024, at eight, it is answered with Monday at nine. */
  lemma MondayIsFound(offset: int, out: Outcome)
    ensures Written(Mondays()) == "0 9 * * 1" && Parsed("0 9 * * 1").Ok?
    ensures var now, later := MinutesOf(Tm(0, 8, 2, 5, 2024, 0)), MinutesOf(Tm(0, 9, 3, 5, 2024, 1));
      Answers(Parsed("0 9 * * 1").value, TimeOf(now, offset), offset, out) <==> out == FiresAt(TimeOf(later, offset))
  {
    hide Parsed, Written, Hits, Broken, Mondays, Answers, LocalMinute, TimeOf, MinutesOf, Tm.Valid;
    var now, later := MinutesOf(Tm(0, 8, 2, 5, 2024, 0)), MinutesOf(Tm(0, 9, 3, 5, 2024, 1));
    MondaysText();
    SecondOfJune();
    BrokenMinutesOf(Tm(0, 8, 2, 5, 2024, 0));
    BrokenMinutesOf(Tm(0, 9, 3, 5, 2024, 1));
    MondaysHit(later);
    var e := Parsed(Written(Mondays())).value;
    forall k | now < k < later ensures !Hits(e, k) {
      NotBeforeMonday(k);
    }
    FirstHitIsTheAnswer(e, now, later, offset, out);
  }

  lemma MondaysText()
    ensures Written(Mondays()) == "0 9 * * 1"
  {
    hide FieldText, PrintNat, Only;
    StarText();
    OnlyText(0);
    OnlyText(1);
    OnlyText(9);
    Digits(0);
    Digits(1);
    Digits(9);
  }
}
