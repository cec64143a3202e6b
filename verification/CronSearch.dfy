/** `nextFire` of src/core/scheduler/cron.cpp: the search for the next minute that an expression names. */
module CronSearch {
  import opened Calendar
  import opened Cron
  import opened CronText

  /** 366 days of minutes. */
  const ATTEMPTS: int := 366 * 24 * 60

  /** Minutes from the start of year 1 to the start of 1970. */
  const EPOCH: int := 719162 * 1440

  /** `test` on a bitset throws when the position lies past its end. */
  datatype Outcome = FiresAt(time: int) | Never | OutOfRange

  /** The local minute of a time in seconds; local time is `offset` seconds ahead of UTC. */
  function LocalMinute(time: int, offset: int): int {
    (time + offset) / 60 + EPOCH
  }

  function TimeOf(minute: int, offset: int): int {
    (minute - EPOCH) * 60 - offset
  }

  /** Time 0 is midnight of Thursday, 1 January 1970, and time passes a minute every 60 seconds. */
  lemma EpochIs(time: int, offset: int)
    ensures Broken(LocalMinute(0, 0)) == Tm(0, 0, 1, 0, 1970, 4)
    ensures LocalMinute(time + 60, offset) == LocalMinute(time, offset) + 1
    ensures LocalMinute(time, offset) == LocalMinute(time + offset, 0)
  {
    hide Broken;
    NewYear1970();
  }

  lemma TimeOfLaterMinute(time: int, offset: int, minute: int)
    requires minute > LocalMinute(time, offset)
    ensures TimeOf(minute, offset) > time && LocalMinute(TimeOf(minute, offset), offset) == minute
    ensures (TimeOf(minute, offset) + offset) % 60 == 0
  {
  }

  /** The four fields that are tested before the minute. */
  predicate HourHits(e: Expression, tm: Tm) {
    tm.mon in e.months && tm.mday - 1 in e.daysOfMonth && tm.wday in e.daysOfWeek && tm.hour in e.hours
  }

  predicate Hits(e: Expression, minute: int) {
    HourHits(e, Broken(minute)) && Broken(minute).min in e.minutes
  }

  /** The outcome is the first hit among the minutes from `lo` to `hi`, and nothing only if there is none. */
  ghost predicate IsEarliest(e: Expression, lo: int, hi: int, offset: int, out: Outcome) {
    match out
    case FiresAt(time) =>
      var minute := LocalMinute(time, offset);
      && time == TimeOf(minute, offset) && lo <= minute <= hi && Hits(e, minute)
      && forall k :: lo <= k < minute ==> !Hits(e, k)
    case Never => forall k :: lo <= k <= hi ==> !Hits(e, k)
    case OutOfRange => false
  }

  lemma NextMinute(minute: int)
    requires Broken(minute).min != 59
    ensures Broken(minute).(min := Broken(minute).min + 1) == Broken(minute + 1)
  {
    MinutesOfBroken(minute);
    var tm := Broken(minute).(min := Broken(minute).min + 1);
    hide Broken, DaysBefore, DaysBeforeMonth, Leap, MonthLength;
    assert MinutesOf(tm) == minute + 1;
    BrokenMinutesOf(tm);
  }

  /**
   What `nextFire` answers. From a start outside minute 59 it is the earliest hit among the next 366 days of
   minutes. From minute 59 the first probe has a minute field of 60: when the four other fields of the
   current hour hit, that throws, and otherwise the first minute of the next hour is passed over.
   */
  ghost predicate Answers(e: Expression, from: int, offset: int, out: Outcome) {
    var now := LocalMinute(from, offset);
    if Broken(now).min != 59 then IsEarliest(e, now + 1, now + ATTEMPTS, offset, out)
    else if HourHits(e, Broken(now)) then out == OutOfRange
    else IsEarliest(e, now + 2, now + ATTEMPTS, offset, out)
  }

  /** From outside minute 59, a minute of the next 366 days that hits is not missed. */
  lemma FoundWithinAYear(e: Expression, from: int, offset: int, out: Outcome, minute: int)
    requires Answers(e, from, offset, out) && Broken(LocalMinute(from, offset)).min != 59 && Hits(e, minute)
    requires LocalMinute(from, offset) < minute <= LocalMinute(from, offset) + 366 * 24 * 60
    ensures out.FiresAt? && from < out.time <= TimeOf(minute, offset)
  {
    hide Broken, Hits, HourHits;
  }

  /** `nextFire`. */
  method NextFire(e: Expression, from: int, offset: int) returns (out: Outcome)
    ensures Answers(e, from, offset, out)
    ensures out.FiresAt? ==> out.time > from && (out.time + offset) % 60 == 0
  {
    ghost var now := LocalMinute(from, offset);
    ghost var first := if Broken(now).min != 59 then now + 1 else now + 2;
    var tm := Broken(LocalMinute(from, offset));
    tm := tm.(min := tm.min + 1);
    var attempt := 0;
    hide Broken, HourHits, Hits, Normalised, MinutesOf, LocalMinute, TimeOf, Probes;
    ProbeStarts(now);
    while attempt < ATTEMPTS
      invariant 0 <= attempt <= ATTEMPTS && Probes(now, attempt, tm)
      invariant attempt > 0 && first == now + 2 ==> !HourHits(e, Broken(now))
      invariant forall k :: first <= k <= now + attempt ==> !Hits(e, k)
    {
      ProbeTests(e, now, attempt, tm);
      if HourHits(e, tm) {
        if tm.min >= 60 { return OutOfRange; }
        if tm.min in e.minutes {
          TimeOfLaterMinute(from, offset, now + 1 + attempt);
          return FiresAt(TimeOf(MinutesOf(tm), offset));
        }
      }
      ProbeMoves(now, attempt, tm);
      tm := Normalised(tm.(min := tm.min + 1));
      attempt := attempt + 1;
    }
    out := Never;
  }

  /** What is probed at each attempt: only the first one can have a minute field of 60. */
  ghost predicate Probes(now: int, attempt: int, tm: Tm) {
    if attempt == 0 then tm == Broken(now).(min := Broken(now).min + 1) else tm == Broken(now + 1 + attempt)
  }

  lemma ProbeStarts(now: int)
    ensures Probes(now, 0, Broken(now).(min := Broken(now).min + 1))
  {
  }

  lemma ProbeMoves(now: int, attempt: int, tm: Tm)
    requires attempt >= 0 && Probes(now, attempt, tm)
    ensures Probes(now, attempt + 1, Normalised(tm.(min := tm.min + 1)))
  {
    hide Broken, Normalised;
    if attempt == 0 {
      LaterMinute(now, 2);
    } else {
      LaterMinute(now + 1 + attempt, 1);
    }
  }

  lemma ProbeTests(e: Expression, now: int, attempt: int, tm: Tm)
    requires attempt >= 0 && Probes(now, attempt, tm)
    ensures tm.min >= 60 <==> attempt == 0 && Broken(now).min == 59
    ensures tm.min >= 60 ==> HourHits(e, tm) == HourHits(e, Broken(now))
    ensures tm.min < 60 ==> MinutesOf(tm) == now + 1 + attempt
    ensures tm.min < 60 ==> (Hits(e, now + 1 + attempt) <==> HourHits(e, tm) && tm.min in e.minutes)
  {
    hide Broken, MinutesOf, DayOf, WeekdayOf, Leap, MonthLength;
    MinutesOfBroken(now);
    MinutesOfBroken(now + 1 + attempt);
    if attempt == 0 && Broken(now).min != 59 {
      NextMinute(now);
    }
  }

  // ---------------------------------------------------------------- expressions as written

  /**
   When an accepted text fires, whatever it holds: minute, hour and weekday are the ones read, but the day
   of the month and the month are each one later than read.
   */
  lemma FiresAsWritten(text: string, minute: int)
    requires Parsed(text).Ok?
    ensures var v, tm := ReadValues(text), Broken(minute);
      Hits(Parsed(text).value, minute) <==>
        && tm.min in v.minutes && tm.hour in v.hours && tm.wday in v.daysOfWeek
        && tm.mday - 1 in v.daysOfMonth && tm.mon in v.months
  {
    ParsedIs(text);
    hide Parsed, ReadValues;
    HitsWithout(ReadValues(text), minute);
    hide Broken, Hits;
  }

  /** Day 31 and month 12 have no bit, and none is asked for. */
  lemma HitsWithout(v: Values, minute: int)
    ensures var tm := Broken(minute);
      Hits(Expression(v.minutes, v.hours, v.daysOfMonth - {31}, v.months - {12}, v.daysOfWeek), minute) <==>
        && tm.min in v.minutes && tm.hour in v.hours && tm.wday in v.daysOfWeek
        && tm.mday - 1 in v.daysOfMonth && tm.mon in v.months
  {
    hide Broken, Leap;
    BrokenInRange(minute);
  }

  /** The same for a written schedule, in terms of what its parts stand for. */
  lemma ScheduleFires(s: Schedule, minute: int)
    requires s.Valid()
    ensures Parsed(Written(s)).Ok?
    ensures var v, tm := Denotation(s), Broken(minute);
      Hits(Parsed(Written(s)).value, minute) <==>
        && tm.min in v.minutes && tm.hour in v.hours && tm.wday in v.daysOfWeek
        && tm.mday - 1 in v.daysOfMonth && tm.mon in v.months
  {
    WrittenParses(s);
    FiresAsWritten(Written(s), minute);
  }

  /** When the values say it is to fire; months are counted from 1. */
  ghost predicate Meant(v: Values, tm: Tm) {
    && tm.min in v.minutes && tm.hour in v.hours && tm.wday in v.daysOfWeek
    && tm.mday in v.daysOfMonth && tm.mon + 1 in v.months
  }

  /** Whatever is written, stars included, nothing ever fires in January or on the first of a month. */
  lemma NeverInJanuaryOrOnTheFirst(text: string, minute: int)
    requires Parsed(text).Ok? && Hits(Parsed(text).value, minute)
    ensures Broken(minute).mon != 0 && Broken(minute).mday != 1
  {
    ParsedIs(text);
    FiresAsWritten(text, minute);
    hide Parsed, ReadValues, Hits, Broken;
  }

  // ---------------------------------------------------------------- when the shift does no harm

  ghost predicate FiresAsMeant(text: string)
    requires Parsed(text).Ok?
  {
    forall minute :: Hits(Parsed(text).value, minute) <==> Meant(ReadValues(text), Broken(minute))
  }

  ghost predicate SomeFieldEmpty(v: Values) {
    v.minutes == {} || v.hours == {} || v.daysOfMonth == {} || v.months == {} || v.daysOfWeek == {}
  }

  /** Only day 31, and only in months that have none. */
  ghost predicate OnlyMissingDays(v: Values) {
    v.daysOfMonth == {31} && v.months <= {2, 4, 6, 9, 11}
  }

  lemma {:induction false} Least(values: set<int>, v: int) returns (least: int)
    requires v in values && forall u :: u in values ==> u >= 1
    ensures least in values && forall u :: u in values ==> least <= u
    decreases v
  {
    if u :| u in values && u < v {
      least := Least(values, u);
    } else {
      least := v;
    }
  }

  lemma AnyOf<T>(values: set<T>) returns (v: T)
    requires values != {}
    ensures v in values
  {
    v :| v in values;
  }

  /** The minute at which values of the first three fields meet on a date. */
  lemma MinuteOn(v: Values, mon: Month, mday: int) returns (minute: int)
    requires v.InBounds() && v.minutes != {} && v.hours != {} && v.daysOfWeek != {}
    requires 1 <= mday <= MonthLength(true, mon)
    ensures var tm := Broken(minute);
      && tm.min in v.minutes && tm.hour in v.hours && tm.wday in v.daysOfWeek && tm.mday == mday && tm.mon == mon
  {
    var min := AnyOf(v.minutes);
    var hour := AnyOf(v.hours);
    var wday := AnyOf(v.daysOfWeek);
    var year := EveryDateOnEveryWeekday(mon, mday, wday);
    var tm := Tm(min, hour, mday, mon, year, wday);
    hide Leap, DaysBefore, DaysBeforeMonth, WeekdayOf, Broken;
    assert DayOf(tm) == DayOf(Tm(0, 0, mday, mon, year, 0));
    assert tm.Valid();
    minute := MinutesOf(tm);
    BrokenMinutesOf(tm);
  }

  ghost predicate SomeMonthHas(v: Values, mday: int)
    requires v.InBounds()
  {
    exists m :: m in v.months && mday <= MonthLength(true, m - 1)
  }

  lemma MonthsWithout(v: Values, mday: int)
    requires v.InBounds() && v.months != {} && mday in v.daysOfMonth && forall u :: u in v.daysOfMonth ==> mday <= u
    ensures SomeMonthHas(v, mday) || (mday == 30 && v.months == {2}) || OnlyMissingDays(v)
  {
    if !SomeMonthHas(v, mday) {
      var m := AnyOf(v.months);
      assert mday > MonthLength(true, m - 1) >= 29;
      if mday == 30 {
        assert forall m :: m in v.months ==> m == 2;
        assert v.months == {2};
      } else {
        assert forall u :: u in v.daysOfMonth ==> u == 31;
        assert v.daysOfMonth == {31};
        assert forall m :: m in v.months ==> m in {2, 4, 6, 9, 11};
      }
    }
  }

  /** A date on which the values are meant to fire and do not, or the other way round. */
  lemma ShiftedDate(v: Values) returns (mon: Month, mday: int)
    requires v.InBounds() && v.daysOfMonth != {} && v.months != {} && !OnlyMissingDays(v)
    ensures 1 <= mday <= MonthLength(true, mon)
    ensures (mday in v.daysOfMonth && mon + 1 in v.months) != (mday - 1 in v.daysOfMonth && mon in v.months)
  {
    var some := AnyOf(v.daysOfMonth);
    var least := Least(v.daysOfMonth, some);
    MonthsWithout(v, least);
    if least == 30 && v.months == {2} {
      mon, mday := 2, 31;
    } else {
      hide OnlyMissingDays;
      var m :| m in v.months && least <= MonthLength(true, m - 1);
      mon, mday := m - 1, least;
    }
  }

  /**
   An accepted text fires exactly when it is meant to, at every minute, if and only if one of its fields is
   empty, or it names day 31 alone, of months that have no such day: then it never fires and never should.
   */
  lemma FiresAsMeantExactly(text: string)
    requires Parsed(text).Ok?
    ensures FiresAsMeant(text) <==> SomeFieldEmpty(ReadValues(text)) || OnlyMissingDays(ReadValues(text))
  {
    ParsedIs(text);
    hide Parsed, ReadValues, Hits, Meant, SomeFieldEmpty, OnlyMissingDays, Values.InBounds;
    if SomeFieldEmpty(ReadValues(text)) || OnlyMissingDays(ReadValues(text)) {
      forall minute ensures Hits(Parsed(text).value, minute) <==> Meant(ReadValues(text), Broken(minute)) {
        NeverFires(text, minute);
      }
    } else {
      var minute := ShiftedMinute(text);
    }
  }

  lemma NeverFires(text: string, minute: int)
    requires Parsed(text).Ok? && (SomeFieldEmpty(ReadValues(text)) || OnlyMissingDays(ReadValues(text)))
    ensures !Hits(Parsed(text).value, minute) && !Meant(ReadValues(text), Broken(minute))
  {
    FiresAsWritten(text, minute);
    var v := ReadValues(text);
    if OnlyMissingDays(v) {
      NoSuchDay(v, minute);
    }
    hide Parsed, ReadValues, Hits, Broken, OnlyMissingDays;
  }

  ghost predicate Shifted(v: Values, tm: Tm) {
    && tm.min in v.minutes && tm.hour in v.hours && tm.wday in v.daysOfWeek
    && tm.mday - 1 in v.daysOfMonth && tm.mon in v.months
  }

  lemma ShiftedSomewhere(v: Values) returns (minute: int)
    requires v.InBounds() && !SomeFieldEmpty(v) && !OnlyMissingDays(v)
    ensures Shifted(v, Broken(minute)) != Meant(v, Broken(minute))
  {
    hide Broken, OnlyMissingDays;
    var mon, mday := ShiftedDate(v);
    minute := MinuteOn(v, mon, mday);
    hide Values.InBounds, MonthLength;
  }

  lemma ShiftedMinute(text: string) returns (minute: int)
    requires Parsed(text).Ok? && !SomeFieldEmpty(ReadValues(text)) && !OnlyMissingDays(ReadValues(text))
    ensures !(Hits(Parsed(text).value, minute) <==> Meant(ReadValues(text), Broken(minute)))
  {
    ParsedIs(text);
    hide Parsed, ReadValues, Hits, Broken, OnlyMissingDays;
    minute := ShiftedSomewhere(ReadValues(text));
    FiresAsWritten(text, minute);
  }

  lemma NoSuchDay(v: Values, minute: int)
    requires OnlyMissingDays(v)
    ensures !Meant(v, Broken(minute)) && Broken(minute).mday - 1 !in v.daysOfMonth
  {
    hide Broken, Leap;
    BrokenInRange(minute);
  }

  /** In particular for schedules as they are written, whose fields are never empty. */
  lemma ScheduleFiresAsMeantExactly(s: Schedule)
    requires s.Valid()
    ensures Parsed(Written(s)).Ok?
    ensures (forall minute :: Hits(Parsed(Written(s)).value, minute) <==> Meant(Denotation(s), Broken(minute)))
            <==> Denoted(s.daysOfMonth, 1, 31) == {31} && Denoted(s.months, 1, 12) <= {2, 4, 6, 9, 11}
  {
    hide Parsed, Written, ReadValues, Denoted, Hits, Broken, Meant;
    WrittenParses(s);
    FiresAsMeantExactly(Written(s));
    DenotedIsNotEmpty(s.minutes, 0, 59);
    DenotedIsNotEmpty(s.hours, 0, 23);
    DenotedIsNotEmpty(s.daysOfMonth, 1, 31);
    DenotedIsNotEmpty(s.months, 1, 12);
    DenotedIsNotEmpty(s.daysOfWeek, 0, 6);
  }

  // ---------------------------------------------------------------- witnesses

  function Only(n: nat): (parts: seq<Part>)
    ensures |parts| == 1
  {
    Numbers([n])
  }

  lemma OnlyDenotes(n: nat, minValue: int, maxValue: int)
    requires minValue <= n <= maxValue < INT_LIMIT
    ensures IsField(Only(n), minValue, maxValue) && Denoted(Only(n), minValue, maxValue) == {n}
  {
    NumbersDenote([n], minValue, maxValue);
  }

  lemma StarIsField(minValue: int, maxValue: int)
    requires minValue <= maxValue
    ensures IsField(STAR, minValue, maxValue)
    ensures forall v: int :: v in Denoted(STAR, minValue, maxValue) <==> minValue <= v <= maxValue
  {
    StarDenotes(minValue, maxValue);
  }

  function DateTime(year: int, mon: Month, mday: int, hour: int, min: int): Tm {
    Tm(min, hour, mday, mon, year, WeekdayOf(DayOf(Tm(0, 0, mday, mon, year, 0))))
  }

  lemma DateTimeIs(year: int, mon: Month, mday: int, hour: int, min: int)
    requires 1 <= mday <= 28 && 0 <= hour < 24 && 0 <= min < 60
    ensures Broken(MinutesOf(DateTime(year, mon, mday, hour, min))) == DateTime(year, mon, mday, hour, min)
    ensures 0 <= DateTime(year, mon, mday, hour, min).wday <= 6
  {
    hide Leap, DaysBefore, DaysBeforeMonth;
    BrokenMinutesOf(DateTime(year, mon, mday, hour, min));
  }

  /** `0 0 15 6 *`: midnight of 15 June. */
  function June(): Schedule {
    Schedule(Only(0), Only(0), Only(15), Only(6), STAR)
  }

  lemma JuneAt(year: int, mon: Month, mday: int)
    requires 1 <= mday <= 28
    ensures June().Valid() && Parsed(Written(June())).Ok?
    ensures var midnight := DateTime(year, mon, mday, 0, 0);
      && (Meant(Denotation(June()), midnight) <==> mday == 15 && mon == 5)
      && (Hits(Parsed(Written(June())).value, MinutesOf(midnight)) <==> mday == 16 && mon == 6)
  {
    hide Parsed, Written, Hits, Broken, MinutesOf, Only, IsField, Denoted;
    OnlyDenotes(0, 0, 59);
    OnlyDenotes(0, 0, 23);
    OnlyDenotes(15, 1, 31);
    OnlyDenotes(6, 1, 12);
    StarIsField(0, 6);
    DateTimeIs(year, mon, mday, 0, 0);
    ScheduleFires(June(), MinutesOf(DateTime(year, mon, mday, 0, 0)));
  }

  /** Midnight of 15 June, in any year, is passed over for midnight of 16 July. */
  lemma JuneFiresInJuly(year: int)
    ensures June().Valid() && Parsed(Written(June())).Ok?
    ensures var june, july := DateTime(year, 5, 15, 0, 0), DateTime(year, 6, 16, 0, 0);
      && Meant(Denotation(June()), june) && !Hits(Parsed(Written(June())).value, MinutesOf(june))
      && !Meant(Denotation(June()), july) && Hits(Parsed(Written(June())).value, MinutesOf(july))
  {
    hide Parsed, Written, Meant, Hits, MinutesOf, DateTime, June, Denotation;
    JuneAt(year, 5, 15);
    JuneAt(year, 6, 16);
  }

  // ---------------------------------------------------------------- minute 59

  lemma MinuteOfTime(minute: int, offset: int)
    ensures LocalMinute(TimeOf(minute, offset), offset) == minute
  {
  }

  /**
   From minute 59 the answer is the earliest hit after the start exactly when the fields of the current hour
   do not all hit and the first minute of the next hour does not either.
   */
  lemma Minute59Exactly(e: Expression, from: int, offset: int, out: Outcome)
    requires Answers(e, from, offset, out) && Broken(LocalMinute(from, offset)).min == 59
    ensures var now := LocalMinute(from, offset);
      IsEarliest(e, now + 1, now + ATTEMPTS, offset, out) <==> !HourHits(e, Broken(now)) && !Hits(e, now + 1)
  {
    hide Broken, Hits, HourHits, LocalMinute, TimeOf;
    var now := LocalMinute(from, offset);
    if !HourHits(e, Broken(now)) && out.FiresAt? {
      forall k | now + 1 <= k < LocalMinute(out.time, offset) ensures Hits(e, k) ==> k == now + 1 {
      }
    }
  }

  /** The first minute of the next hour is never the answer. */
  lemma FirstMinuteIsSkipped(e: Expression, now: int, offset: int, out: Outcome)
    requires Answers(e, TimeOf(now, offset), offset, out) && Broken(now).min == 59
    ensures out != FiresAt(TimeOf(now + 1, offset))
  {
    hide Broken, Hits, HourHits, LocalMinute, TimeOf;
    MinuteOfTime(now, offset);
    MinuteOfTime(now + 1, offset);
  }

  /** `* * * * *`. */
  function EveryMinute(): Schedule {
    Schedule(STAR, STAR, STAR, STAR, STAR)
  }

  lemma EveryMinuteHits(tm: Tm)
    requires tm.Valid() && tm.mon != 0 && tm.mday != 1
    ensures EveryMinute().Valid() && Parsed(Written(EveryMinute())).Ok?
    ensures Hits(Parsed(Written(EveryMinute())).value, MinutesOf(tm))
  {
    hide Parsed, Written, Hits, Broken, MinutesOf, IsField, Denoted, Leap, DayOf;
    StarIsField(0, 59);
    StarIsField(0, 23);
    StarIsField(1, 31);
    StarIsField(1, 12);
    StarIsField(0, 6);
    BrokenMinutesOf(tm);
    ScheduleFires(EveryMinute(), MinutesOf(tm));
  }

  /** `* * * * *`, asked at 00:59 on 2 February of any year, throws. */
  lemma EveryMinuteThrows(year: int, offset: int, out: Outcome)
    ensures EveryMinute().Valid() && Parsed(Written(EveryMinute())).Ok?
    ensures var from := TimeOf(MinutesOf(DateTime(year, 1, 2, 0, 59)), offset);
      Answers(Parsed(Written(EveryMinute())).value, from, offset, out) <==> out == OutOfRange
  {
    hide Parsed, Written, Broken, MinutesOf, LocalMinute, TimeOf, IsEarliest, EveryMinute, Leap, DaysBefore,
      DaysBeforeMonth;
    var tm := DateTime(year, 1, 2, 0, 59);
    DateTimeIs(year, 1, 2, 0, 59);
    MinuteOfTime(MinutesOf(tm), offset);
    EveryMinuteHits(tm);
  }

  /** `0 5 * * *`: five o'clock. */
  function FiveOClock(): Schedule {
    Schedule(Only(0), Only(5), STAR, STAR, STAR)
  }

  lemma FiveOClockHits(minute: int)
    requires Broken(minute).mon != 0 && Broken(minute).mday != 1
    ensures FiveOClock().Valid() && Parsed(Written(FiveOClock())).Ok?
    ensures Hits(Parsed(Written(FiveOClock())).value, minute) <==> Broken(minute).hour == 5 && Broken(minute).min == 0
    ensures Broken(minute).hour != 5 ==> !HourHits(Parsed(Written(FiveOClock())).value, Broken(minute))
  {
    hide Parsed, Written, Broken, Leap, IsField, Denoted, Only, ReadValues;
    OnlyDenotes(0, 0, 59);
    OnlyDenotes(5, 0, 23);
    StarIsField(1, 31);
    StarIsField(1, 12);
    StarIsField(0, 6);
    BrokenInRange(minute);
    WrittenParses(FiveOClock());
    ParsedIs(Written(FiveOClock()));
  }

  ghost predicate BeforeFive(now: int) {
    && Broken(now).mon != 0 && Broken(now).mday != 1 && Broken(now).hour == 4 && Broken(now).min == 59
    && Broken(now + 1).mon != 0 && Broken(now + 1).mday != 1 && Broken(now + 1).hour == 5 && Broken(now + 1).min == 0
  }

  lemma OneMinuteToFive(year: int)
    ensures BeforeFive(MinutesOf(DateTime(year, 1, 2, 4, 59)))
  {
    hide Broken, Leap, DaysBefore, DaysBeforeMonth;
    DateTimeIs(year, 1, 2, 4, 59);
    DateTimeIs(year, 1, 2, 5, 0);
    assert MinutesOf(DateTime(year, 1, 2, 5, 0)) == MinutesOf(DateTime(year, 1, 2, 4, 59)) + 1;
  }

  /** `0 5 * * *`, asked at 04:59, does not answer five o'clock that day. */
  lemma FiveOClockIsSkipped(now: int, offset: int, out: Outcome)
    requires BeforeFive(now)
    ensures FiveOClock().Valid() && Parsed(Written(FiveOClock())).Ok?
    ensures var e := Parsed(Written(FiveOClock())).value;
      && Hits(e, now + 1)
      && (Answers(e, TimeOf(now, offset), offset, out) ==> out != OutOfRange && out != FiresAt(TimeOf(now + 1, offset)))
  {
    hide Parsed, Written, Broken, LocalMinute, TimeOf, Hits, HourHits, FiveOClock, IsEarliest;
    FiveOClockHits(now);
    FiveOClockHits(now + 1);
    MinuteOfTime(now, offset);
    NeverOutOfRange(Parsed(Written(FiveOClock())).value, now + 2, now + ATTEMPTS, offset, out);
    if Answers(Parsed(Written(FiveOClock())).value, TimeOf(now, offset), offset, out) {
      FirstMinuteIsSkipped(Parsed(Written(FiveOClock())).value, now, offset, out);
    }
  }

  lemma NeverOutOfRange(e: Expression, lo: int, hi: int, offset: int, out: Outcome)
    ensures IsEarliest(e, lo, hi, offset, out) ==> out != OutOfRange
  {
  }

  // ---------------------------------------------------------------- never is only the next 366 days

  /** `0 0 28 1 *`, which fires at midnight of 29 February. */
  function LeapDay(): Schedule {
    Schedule(Only(0), Only(0), Only(28), Only(1), STAR)
  }

  lemma LeapDayHits(minute: int)
    ensures LeapDay().Valid() && Parsed(Written(LeapDay())).Ok?
    ensures var tm := Broken(minute);
      Hits(Parsed(Written(LeapDay())).value, minute) <==> tm.mon == 1 && tm.mday == 29 && tm.hour == 0 && tm.min == 0
  {
    hide Parsed, Written, Hits, Broken, Leap, Only, IsField, Denoted;
    OnlyDenotes(0, 0, 59);
    OnlyDenotes(0, 0, 23);
    OnlyDenotes(28, 1, 31);
    OnlyDenotes(1, 1, 12);
    StarIsField(0, 6);
    BrokenInRange(minute);
    ScheduleFires(LeapDay(), minute);
  }

  lemma LeapDayOf(tm: Tm)
    requires tm.Valid() && tm.mon == 1 && tm.mday == 29
    ensures Leap(tm.year) && DayOf(tm) == DaysBefore(tm.year) + 59
  {
    assert DaysBeforeMonth(true, 1) == 31;
    hide DaysBefore, Leap, WeekdayOf;
  }

  lemma LeapYearsApart(a: int, b: int)
    requires Leap(a) && Leap(b)
    ensures if a < b then DaysBefore(b) >= DaysBefore(a) + 1460 else DaysBefore(b) <= DaysBefore(a)
  {
    if a < b {
      assert b >= a + 4;
      YearsGrow(a, b);
    } else {
      YearsGrow(b, a);
    }
  }

  lemma FirstOfMarch(year: int)
    requires Leap(year)
    ensures MinutesOf(DateTime(year, 2, 1, 0, 0)) == (DaysBefore(year) + 60) * 1440
  {
    assert DaysBeforeMonth(true, 2) == 60;
    hide DaysBefore, WeekdayOf, Leap;
  }

  /** There is no leap day in the 366 days from 1 March of a leap year on. */
  lemma NoLeapDaySoon(year: int, minute: int)
    requires Leap(year) && Broken(minute).mon == 1 && Broken(minute).mday == 29
    ensures var now := MinutesOf(DateTime(year, 2, 1, 0, 0)); !(now < minute <= now + ATTEMPTS)
  {
    var tm := Broken(minute);
    MinutesOfBroken(minute);
    hide Broken;
    LeapDayOf(tm);
    FirstOfMarch(year);
    LeapYearsApart(year, tm.year);
    hide Leap, DaysBefore, DaysBeforeMonth, DayOf, WeekdayOf;
    assert MinutesOf(tm) == (DaysBefore(tm.year) + 59) * 1440 + tm.hour * 60 + tm.min;
  }

  lemma NextLeapYear(year: int) returns (next: int)
    requires Leap(year)
    ensures Leap(next) && year + 4 <= next <= year + 8
  {
    DivOf(year + 4, 4, year / 4 + 1, 0);
    DivOf(year + 8, 4, year / 4 + 2, 0);
    if (year + 4) % 100 == 0 {
      DivOf(year + 8, 100, (year + 4) / 100, 4);
      next := year + 8;
    } else {
      next := year + 4;
    }
  }

  lemma OnlyNever(e: Expression, now: int, offset: int, out: Outcome)
    requires Broken(now).min != 59 && forall k :: now < k <= now + ATTEMPTS ==> !Hits(e, k)
    ensures Answers(e, TimeOf(now, offset), offset, out) <==> out == Never
  {
    hide Broken, Hits, LocalMinute, TimeOf;
    MinuteOfTime(now, offset);
  }

  lemma NoLeapDayHits(year: int)
    requires Leap(year)
    ensures LeapDay().Valid() && Parsed(Written(LeapDay())).Ok?
    ensures var e, now := Parsed(Written(LeapDay())).value, MinutesOf(DateTime(year, 2, 1, 0, 0));
      forall k :: now < k <= now + ATTEMPTS ==> !Hits(e, k)
  {
    LeapDayHits(0);
    var e, now := Parsed(Written(LeapDay())).value, MinutesOf(DateTime(year, 2, 1, 0, 0));
    hide Parsed, Written, Broken, Hits, LeapDay, DateTime, MinutesOf, Leap;
    forall k | now < k <= now + ATTEMPTS ensures !Hits(e, k) {
      LeapDayHits(k);
      if Broken(k).mon == 1 && Broken(k).mday == 29 { NoLeapDaySoon(year, k); }
    }
  }

  lemma FirstOfMarchIs(year: int)
    ensures Broken(MinutesOf(DateTime(year, 2, 1, 0, 0))).min == 0
  {
    DateTimeIs(year, 2, 1, 0, 0);
  }

  lemma LeapDayReturns(year: int, next: int)
    requires Leap(year) && Leap(next) && year < next
    ensures LeapDay().Valid() && Parsed(Written(LeapDay())).Ok?
    ensures var later := MinutesOf(DateTime(next, 1, 29, 0, 0));
      Hits(Parsed(Written(LeapDay())).value, later) && later > MinutesOf(DateTime(year, 2, 1, 0, 0))
  {
    var tm := DateTime(next, 1, 29, 0, 0);
    hide Parsed, Written, Broken, Hits, LeapDay;
    BrokenMinutesOf(tm);
    LeapDayHits(MinutesOf(tm));
    LeapDayOf(tm);
    FirstOfMarch(year);
    LeapYearsApart(year, next);
    hide Leap, DaysBefore, DaysBeforeMonth, DayOf, WeekdayOf;
    assert MinutesOf(tm) == (DaysBefore(next) + 59) * 1440;
  }

  /**
   Midnight of 29 February, asked on 1 March of a leap year, is answered with never, although the expression
   fires again at most eight years later.
   */
  lemma LeapDayIsNotFound(year: int, offset: int, out: Outcome) returns (next: int)
    requires Leap(year)
    ensures LeapDay().Valid() && Parsed(Written(LeapDay())).Ok? && year + 4 <= next <= year + 8
    ensures var e, now := Parsed(Written(LeapDay())).value, MinutesOf(DateTime(year, 2, 1, 0, 0));
      var later := MinutesOf(DateTime(next, 1, 29, 0, 0));
      && (Answers(e, TimeOf(now, offset), offset, out) <==> out == Never)
      && Hits(e, later) && later > now
  {
    next := NextLeapYear(year);
    LeapDayReturns(year, next);
    NoLeapDayHits(year);
    FirstOfMarchIs(year);
    hide Parsed, Written, Broken, Hits, LeapDay, DateTime, MinutesOf, LocalMinute, TimeOf, Leap, Answers;
    OnlyNever(Parsed(Written(LeapDay())).value, MinutesOf(DateTime(year, 2, 1, 0, 0)), offset, out);
  }
}
