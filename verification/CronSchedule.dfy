/** Cron schedules: when an expression is due, and the next time it is. */
module CronSchedule {
  import opened Text
  import opened CronFields

  datatype Schedule = Schedule(minutes: set<int>, hours: set<int>, monthDays: set<int>, months: set<int>,
                               weekdays: set<int>, anyMonthDay: bool, anyWeekday: bool)

  /** The fields of a point in time in the schedule's location; weekdays run from Sunday, 0. */
  datatype Civil = Civil(minute: int, hour: int, day: int, month: int, weekday: int)

  // ----- the words of an expression -----

  function WordLength(s: string): (n: nat)
    ensures n <= |s|
  {
    if s == [] || IsSpace(s[0]) then 0 else 1 + WordLength(s[1..])
  }

  /** `strings.Fields`: the maximal runs of characters that are not white space. */
  function Words(s: string): (r: seq<string>) {
    if s == [] then []
    else if IsSpace(s[0]) then Words(s[1..])
    else [s[..WordLength(s)]] + Words(s[WordLength(s)..])
  }

  // ----- parsing -----

  function FoldSunday(weekdays: set<int>): (r: set<int>) {
    if 7 in weekdays then weekdays - {7} + {0} else weekdays
  }

  function ScheduleOfFields(f: seq<string>): (r: Option<Schedule>) {
    if |f| != 5 then None
    else
      match (FieldValue(f[0], 0, 59), FieldValue(f[1], 0, 23), FieldValue(f[2], 1, 31), FieldValue(f[3], 1, 12), FieldValue(f[4], 0, 7))
      case (Some(m), Some(h), Some(d), Some(mon), Some(w)) =>
        Some(Schedule(m.0, h.0, d.0, mon.0, FoldSunday(w.0), d.1, w.1))
      case _ => None
  }

  function ScheduleOf(expression: string): (r: Option<Schedule>) {
    ScheduleOfFields(Words(Trim(expression)))
  }

  method ParseCronSchedule(expression: string) returns (r: Option<Schedule>)
    ensures r == ScheduleOf(expression)
  {
    var fields := Words(Trim(expression));
    if |fields| != 5 {
      return None;
    }
    var minutes := ParseCronField(fields[0], 0, 59);
    if minutes.None? {
      return None;
    }
    var hours := ParseCronField(fields[1], 0, 23);
    if hours.None? {
      return None;
    }
    var monthDays := ParseCronField(fields[2], 1, 31);
    if monthDays.None? {
      return None;
    }
    var months := ParseCronField(fields[3], 1, 12);
    if months.None? {
      return None;
    }
    var weekdays := ParseCronField(fields[4], 0, 7);
    if weekdays.None? {
      return None;
    }
    var days := weekdays.value.0;
    if 7 in days {
      days := days - {7};
      days := days + {0};
    }
    return Some(Schedule(minutes.value.0, hours.value.0, monthDays.value.0, months.value.0, days,
                         monthDays.value.1, weekdays.value.1));
  }

  predicate Matches(s: Schedule, t: Civil) {
    && t.minute in s.minutes && t.hour in s.hours && t.month in s.months
    && if !s.anyMonthDay && !s.anyWeekday
       then t.day in s.monthDays || t.weekday in s.weekdays
       else t.day in s.monthDays && t.weekday in s.weekdays
  }

  /** When an expression is due, by what its schedule says. */
  predicate Due(expression: string, t: Civil) {
    FieldsDue(Words(Trim(expression)), t)
  }

  predicate FieldsDue(f: seq<string>, t: Civil) {
    ScheduleOfFields(f).Some? && Matches(ScheduleOfFields(f).value, t)
  }

  // ----- what an expression means -----

  datatype Expression = Expression(minutes: seq<Item>, hours: seq<Item>, monthDays: seq<Item>, months: seq<Item>, weekdays: seq<Item>)

  /** The items of the five fields. */
  function ItemsOf(expression: string): (r: Option<Expression>) {
    ItemsOfFields(Words(Trim(expression)))
  }

  function ItemsOfFields(f: seq<string>): (r: Option<Expression>) {
    if |f| != 5 then None
    else
      match (Items(f[0], 0, 59), Items(f[1], 0, 23), Items(f[2], 1, 31), Items(f[3], 1, 12), Items(f[4], 0, 7))
      case (Some(m), Some(h), Some(d), Some(mon), Some(w)) => Some(Expression(m, h, d, mon, w))
      case _ => None
  }

  function Items(field: string, min: int, max: int): (r: Option<seq<Item>>) {
    ParseItems(Split(field, ','), min, max)
  }

  /** Every value that a wrapping step of the expression comes back to is listed. */
  ghost predicate Faithful(e: Expression) {
    && ReturnsListed(e.minutes, 0) && ReturnsListed(e.hours, 0) && ReturnsListed(e.monthDays, 1)
    && ReturnsListed(e.months, 1) && ReturnsListed(e.weekdays, 0)
  }

  ghost predicate DayListed(e: Expression, t: Civil) {
    Listed(e.monthDays, t.day)
  }

  /** Sunday may be written 0 or 7. */
  ghost predicate WeekdayListed(e: Expression, t: Civil) {
    Listed(e.weekdays, t.weekday) || (t.weekday == 0 && Listed(e.weekdays, 7))
  }

  /** The days an expression selects: the day fields combine by OR exactly when neither has a `*`. */
  ghost predicate DaySelected(e: Expression, t: Civil) {
    && Listed(e.months, t.month)
    && if AnyStar(e.monthDays) || AnyStar(e.weekdays)
       then DayListed(e, t) && WeekdayListed(e, t)
       else DayListed(e, t) || WeekdayListed(e, t)
  }

  ghost predicate Satisfies(e: Expression, t: Civil) {
    Listed(e.minutes, t.minute) && Listed(e.hours, t.hour) && DaySelected(e, t)
  }

  lemma FieldMeans(field: string, min: int, max: int, v: int)
    requires 0 <= min <= v <= max <= 0xFFFF_FFFF
    ensures FieldValue(field, min, max).Some? <==> Items(field, min, max).Some?
    ensures Items(field, min, max).Some? && ReturnsListed(Items(field, min, max).value, min) ==>
              && (v in FieldValue(field, min, max).value.0 <==> Listed(Items(field, min, max).value, v))
              && FieldValue(field, min, max).value.1 == AnyStar(Items(field, min, max).value)
  {
    ItemsAreInRange(Split(field, ','), min, max);
    if Items(field, min, max).Some? && ReturnsListed(Items(field, min, max).value, min) {
      FieldSelectsIff(Items(field, min, max).value, min, max);
    }
  }

  lemma ParsesAlike(expression: string)
    ensures ScheduleOf(expression).Some? <==> ItemsOf(expression).Some?
  {
    var f := Words(Trim(expression));
    if |f| == 5 {
      FieldMeans(f[0], 0, 59, 0);
      FieldMeans(f[1], 0, 23, 0);
      FieldMeans(f[2], 1, 31, 1);
      FieldMeans(f[3], 1, 12, 1);
      FieldMeans(f[4], 0, 7, 0);
    }
  }

  /** Sets that hold what the items list make a schedule that matches what the items select. */
  lemma MatchesIffSatisfied(s: Schedule, e: Expression, weekdays: set<int>, t: Civil)
    requires 0 <= t.weekday <= 6 && s.weekdays == FoldSunday(weekdays)
    requires t.minute in s.minutes <==> Listed(e.minutes, t.minute)
    requires t.hour in s.hours <==> Listed(e.hours, t.hour)
    requires t.day in s.monthDays <==> Listed(e.monthDays, t.day)
    requires t.month in s.months <==> Listed(e.months, t.month)
    requires t.weekday in weekdays <==> Listed(e.weekdays, t.weekday)
    requires 7 in weekdays <==> Listed(e.weekdays, 7)
    requires s.anyMonthDay == AnyStar(e.monthDays) && s.anyWeekday == AnyStar(e.weekdays)
    ensures Matches(s, t) <==> Satisfies(e, t)
  {
  }

  /** A point in time as a calendar gives it. */
  predicate IsTime(t: Civil) {
    0 <= t.minute <= 59 && 0 <= t.hour <= 23 && IsDate(t)
  }

  /** An expression is due when its fields say so, as long as no step comes back to other values. */
  lemma DueIffSatisfied(expression: string, t: Civil)
    requires IsTime(t) && ItemsOf(expression).Some? && Faithful(ItemsOf(expression).value)
    ensures Due(expression, t) <==> Satisfies(ItemsOf(expression).value, t)
  {
    var f := Words(Trim(expression));
    FieldMeans(f[0], 0, 59, t.minute);
    FieldMeans(f[1], 0, 23, t.hour);
    FieldMeans(f[2], 1, 31, t.day);
    FieldMeans(f[3], 1, 12, t.month);
    FieldMeans(f[4], 0, 7, t.weekday);
    FieldMeans(f[4], 0, 7, 7);
    ParsesAlike(expression);
    MatchesIffSatisfied(ScheduleOf(expression).value, ItemsOf(expression).value, FieldValue(f[4], 0, 7).value.0, t);
  }

  // ----- the next time -----

  const MINUTE := 60_000_000_000

  datatype Next = At(time: int) | BadExpression | NoTime

  /** The number of the first whole minute after a point in time given in nanoseconds. */
  function MinuteAfter(time: int): (m: int)
    ensures (m - 1) * MINUTE <= time < m * MINUTE
  {
    time / MINUTE + 1
  }

  /** The whole minute m is after `after`, no later than `deadline`, and the schedule matches it. */
  predicate Candidate(s: Schedule, civil: int -> Civil, after: int, deadline: int, m: int) {
    after < m * MINUTE <= deadline && Matches(s, civil(m * MINUTE))
  }

  /** `time` is the earliest candidate. */
  ghost predicate Earliest(s: Schedule, civil: int -> Civil, after: int, deadline: int, time: int) {
    exists m :: time == m * MINUTE && Candidate(s, civil, after, deadline, m)
      && forall k :: Candidate(s, civil, after, deadline, k) ==> m <= k
  }

  method FirstMatch(s: Schedule, civil: int -> Civil, addYear: int -> int, after: int) returns (r: Option<int>)
    ensures var deadline := addYear(MinuteAfter(after) * MINUTE);
            if r.Some? then Earliest(s, civil, after, deadline, r.value)
            else forall m :: !Candidate(s, civil, after, deadline, m)
  {
    ghost var m := MinuteAfter(after);
    var cursor := MinuteAfter(after) * MINUTE;
    var deadline := addYear(cursor);
    while cursor <= deadline
      invariant cursor == m * MINUTE && after < cursor
      invariant forall k :: Candidate(s, civil, after, deadline, k) ==> m <= k
      decreases deadline - cursor
    {
      if Matches(s, civil(cursor)) {
        assert Candidate(s, civil, after, deadline, m);
        return Some(cursor);
      }
      cursor := cursor + MINUTE;
      m := m + 1;
    }
    return None;
  }

  /** The earliest minute strictly after the input that the expression selects, up to one year, by
      the calendar of the location, after the first minute looked at. */
  method NextCronTime(expression: string, civil: int -> Civil, addYear: int -> int, after: int) returns (r: Next)
    ensures r == BadExpression <==> ScheduleOf(expression).None?
    ensures var deadline := addYear(MinuteAfter(after) * MINUTE);
            match r
            case BadExpression => true
            case At(time) => Earliest(ScheduleOf(expression).value, civil, after, deadline, time)
            case NoTime => forall m :: !Candidate(ScheduleOf(expression).value, civil, after, deadline, m)
  {
    var schedule := ParseCronSchedule(expression);
    if schedule.None? {
      return BadExpression;
    }
    var found := FirstMatch(schedule.value, civil, addYear, after);
    return if found.Some? then At(found.value) else NoTime;
  }

  // ----- writing expressions -----

  datatype WrittenExpression = WrittenExpression(minutes: seq<Written>, hours: seq<Written>, monthDays: seq<Written>,
                                                 months: seq<Written>, weekdays: seq<Written>)

  predicate FieldWritable(ws: seq<Written>, min: int, max: int) {
    ws != [] && forall i :: 0 <= i < |ws| ==> Writable(ws[i], min, max)
  }

  predicate ExpressionWritable(w: WrittenExpression) {
    && FieldWritable(w.minutes, 0, 59) && FieldWritable(w.hours, 0, 23) && FieldWritable(w.monthDays, 1, 31)
    && FieldWritable(w.months, 1, 12) && FieldWritable(w.weekdays, 0, 7)
  }

  function RenderField(ws: seq<Written>): string {
    Join(RenderAll(ws), ',')
  }

  function RenderExpression(w: WrittenExpression): string {
    RenderField(w.minutes) + (" " + (RenderField(w.hours) + (" " + (RenderField(w.monthDays)
    + (" " + (RenderField(w.months) + (" " + RenderField(w.weekdays))))))))
  }

  function MeantBy(w: WrittenExpression): Expression {
    Expression(MeantAll(w.minutes, 0, 59), MeantAll(w.hours, 0, 23), MeantAll(w.monthDays, 1, 31),
               MeantAll(w.months, 1, 12), MeantAll(w.weekdays, 0, 7))
  }

  predicate IsWord(s: string) {
    s != "" && forall i :: 0 <= i < |s| ==> !IsSpace(s[i])
  }

  predicate Separates(rest: string) {
    rest == "" || IsSpace(rest[0])
  }

  lemma {:induction false} WordLengthOf(word: string, rest: string)
    requires (forall i :: 0 <= i < |word| ==> !IsSpace(word[i])) && Separates(rest)
    ensures WordLength(word + rest) == |word|
  {
    if word == "" {
      assert word + rest == rest;
    } else {
      assert (word + rest)[1..] == word[1..] + rest;
      WordLengthOf(word[1..], rest);
    }
  }

  lemma FirstWord(word: string, rest: string)
    requires IsWord(word) && Separates(rest)
    ensures Words(word + rest) == [word] + Words(rest)
  {
    WordLengthOf(word, rest);
    assert (word + rest)[..|word|] == word && (word + rest)[|word|..] == rest;
  }

  lemma WordThenSpace(word: string, rest: string)
    requires IsWord(word)
    ensures Words(word + (" " + rest)) == [word] + Words(rest)
  {
    FirstWord(word, " " + rest);
    assert (" " + rest)[1..] == rest;
  }

  lemma LastWord(word: string)
    requires IsWord(word)
    ensures Words(word) == [word]
  {
    FirstWord(word, "");
    assert word + "" == word;
  }

  lemma {:induction false} JoinIsWord(pieces: seq<string>)
    requires pieces != [] && forall i :: 0 <= i < |pieces| ==> IsWord(pieces[i])
    ensures IsWord(Join(pieces, ','))
  {
    if |pieces| > 1 {
      JoinIsWord(pieces[..|pieces| - 1]);
    }
  }

  lemma FieldIsWord(ws: seq<Written>)
    requires ws != []
    ensures IsWord(RenderField(ws))
  {
    forall i | 0 <= i < |ws| ensures IsWord(RenderAll(ws)[i]) {
      RenderIsPlain(ws[i]);
      forall j | 0 <= j < |Render(ws[i])| ensures !IsSpace(Render(ws[i])[j]) {
        assert Render(ws[i])[j] in Render(ws[i]);
      }
    }
    JoinIsWord(RenderAll(ws));
  }

  lemma FiveWords(a: string, b: string, c: string, d: string, e: string)
    requires IsWord(a) && IsWord(b) && IsWord(c) && IsWord(d) && IsWord(e)
    ensures Words(Trim(a + (" " + (b + (" " + (c + (" " + (d + (" " + e))))))))) == [a, b, c, d, e]
  {
    var s3 := d + (" " + e);
    var s2 := c + (" " + s3);
    var s1 := b + (" " + s2);
    LastWord(e);
    WordThenSpace(d, e);
    WordThenSpace(c, s3);
    WordThenSpace(b, s2);
    WordThenSpace(a, s1);
    var s := a + (" " + s1);
    assert s[0] == a[0] && s[|s| - 1] == e[|e| - 1];
    TrimOfTrimmed(s);
  }

  function FieldsOf(w: WrittenExpression): seq<string> {
    [RenderField(w.minutes), RenderField(w.hours), RenderField(w.monthDays), RenderField(w.months), RenderField(w.weekdays)]
  }

  predicate NoEmptyField(w: WrittenExpression) {
    w.minutes != [] && w.hours != [] && w.monthDays != [] && w.months != [] && w.weekdays != []
  }

  lemma RenderedWords(w: WrittenExpression)
    requires NoEmptyField(w)
    ensures Words(Trim(RenderExpression(w))) == FieldsOf(w)
  {
    FieldIsWord(w.minutes);
    FieldIsWord(w.hours);
    FieldIsWord(w.monthDays);
    FieldIsWord(w.months);
    FieldIsWord(w.weekdays);
    FiveWords(RenderField(w.minutes), RenderField(w.hours), RenderField(w.monthDays), RenderField(w.months), RenderField(w.weekdays));
  }

  lemma FieldsRoundTrip(w: WrittenExpression, f: seq<string>)
    requires ExpressionWritable(w) && f == FieldsOf(w)
    ensures ItemsOfFields(f) == Some(MeantBy(w))
  {
    FieldRoundTrip(w.minutes, 0, 59);
    FieldRoundTrip(w.hours, 0, 23);
    FieldRoundTrip(w.monthDays, 1, 31);
    FieldRoundTrip(w.months, 1, 12);
    FieldRoundTrip(w.weekdays, 0, 7);
  }

  /** Every expression that can be written is read back as it was meant. */
  lemma ExpressionRoundTrip(w: WrittenExpression)
    requires ExpressionWritable(w)
    ensures ItemsOf(RenderExpression(w)) == Some(MeantBy(w))
  {
    RenderedWords(w);
    FieldsRoundTrip(w, FieldsOf(w));
  }

  predicate Holds(field: string, min: int, max: int, v: int) {
    FieldValue(field, min, max).Some? && v in FieldValue(field, min, max).value.0
  }

  lemma DueWhenAllHold(f: seq<string>, t: Civil)
    requires |f| == 5 && 0 <= t.weekday <= 6
    requires Holds(f[0], 0, 59, t.minute) && Holds(f[1], 0, 23, t.hour) && Holds(f[2], 1, 31, t.day)
    requires Holds(f[3], 1, 12, t.month) && Holds(f[4], 0, 7, t.weekday)
    ensures FieldsDue(f, t)
  {
  }

  predicate IsWrapped(w: WrittenExpression) {
    && w.minutes == [Written(Value(59), Some(MAX_INT))]
    && w.hours == w.monthDays == w.months == w.weekdays == [Written(Star, None)]
  }

  /** An accepted expression that is due at a minute it does not list: 59/9223372036854775807 in the
      minute field and `*` elsewhere, at minute 57. */
  lemma WrappedExpressionIsDue(w: WrittenExpression, t: Civil)
    requires IsWrapped(w) && IsDate(t) && 0 <= t.hour <= 23 && t.minute == 57
    ensures Due(RenderExpression(w), t) && !Satisfies(MeantBy(w), t)
  {
    WrappedField(w.minutes);
    var minute, star := RenderField(w.minutes), RenderField(w.hours);
    WrappedFieldsDue(minute, w.hours, star, t);
    DueWhenRendered(w, [minute, star, star, star, star], t);
  }

  lemma WrappedFieldsDue(minute: string, any: seq<Written>, star: string, t: Civil)
    requires Holds(minute, 0, 59, t.minute) && any == [Written(Star, None)] && star == RenderField(any)
    requires IsDate(t) && 0 <= t.hour <= 23
    ensures FieldsDue([minute, star, star, star, star], t)
  {
    StarField(any, 0, 23, t.hour);
    StarField(any, 1, 31, t.day);
    StarField(any, 1, 12, t.month);
    StarField(any, 0, 7, t.weekday);
    DueWhenAllHold([minute, star, star, star, star], t);
  }

  lemma DueWhenRendered(w: WrittenExpression, f: seq<string>, t: Civil)
    requires NoEmptyField(w) && f == FieldsOf(w) && FieldsDue(f, t)
    ensures Due(RenderExpression(w), t)
  {
    RenderedWords(w);
    assert Words(Trim(RenderExpression(w))) == f;
  }

  lemma WrappedField(minutes: seq<Written>)
    requires minutes == [Written(Value(59), Some(MAX_INT))]
    ensures FieldWritable(minutes, 0, 59) && Holds(RenderField(minutes), 0, 59, 57)
    ensures !Listed(MeantAll(minutes, 0, 59), 57)
  {
    var item := Item(false, 59, 59, MAX_INT);
    WrappedStepSelectsMore();
    FieldRoundTrip(minutes, 0, 59);
    assert MeantAll(minutes, 0, 59) == [item];
    InUnion([item], 57);
    assert [item][0] == item;
  }

  /** The field `*` holds the whole range. */
  lemma StarField(ws: seq<Written>, min: int, max: int, v: int)
    requires ws == [Written(Star, None)] && 0 <= min <= v <= max <= 59
    ensures FieldWritable(ws, min, max) && Holds(RenderField(ws), min, max, v)
  {
    var items := [Item(true, min, max, 1)];
    FieldRoundTrip(ws, min, max);
    assert MeantAll(ws, min, max) == items;
    FieldMeans(RenderField(ws), min, max, v);
    assert v == min + (v - min) * 1;
    assert Denotes(items[0], v);
  }

  // ----- the day rule of POSIX -----

  /** A field in the form POSIX knows: `*` alone, or a list without `*`; no steps. */
  predicate PosixField(items: seq<Item>, min: int, max: int) {
    || items == [Item(true, min, max, 1)]
    || (!AnyStar(items) && forall k :: 0 <= k < |items| ==> items[k].step == 1)
  }

  predicate PosixForm(e: Expression) {
    && PosixField(e.minutes, 0, 59) && PosixField(e.hours, 0, 23)
    && PosixField(e.monthDays, 1, 31) && PosixField(e.months, 1, 12) && PosixField(e.weekdays, 0, 7)
  }

  /** The INPUT FILES section of crontab in POSIX.1-2017: which days match. */
  ghost predicate PosixDay(e: Expression, t: Civil) {
    var month, day, weekday := Listed(e.months, t.month), DayListed(e, t), WeekdayListed(e, t);
    var listed := !AnyStar(e.months) || !AnyStar(e.monthDays);
    if !listed && AnyStar(e.weekdays) then true
    else if listed && AnyStar(e.weekdays) then month && day
    else if !listed then weekday
    else (month && day) || weekday
  }

  /** The most days the month has in any year. */
  function DaysIn(month: int): int {
    if month == 2 then 29 else if month == 4 || month == 6 || month == 9 || month == 11 then 30 else 31
  }

  /** A day of some year; every day of the year falls on every weekday in some year. */
  predicate IsDate(t: Civil) {
    1 <= t.month <= 12 && 1 <= t.day <= DaysIn(t.month) && 0 <= t.weekday <= 6
  }

  lemma StarListsAll(items: seq<Item>, min: int, max: int, v: int)
    requires PosixField(items, min, max) && AnyStar(items) && min <= v <= max
    ensures Listed(items, v)
  {
    assert items == [Item(true, min, max, 1)];
    assert v == min + (v - min) * 1;
    assert Denotes(items[0], v);
  }

  /** Which dates the code and POSIX agree on: where they differ, the code lets the month restrict the
      weekday as well. */
  lemma PosixAgreesOn(e: Expression, t: Civil)
    requires PosixForm(e) && IsDate(t)
    ensures (DaySelected(e, t) <==> PosixDay(e, t)) <==>
            (|| AnyStar(e.months) || AnyStar(e.weekdays)
             || if AnyStar(e.monthDays) then Listed(e.months, t.month) == WeekdayListed(e, t)
                else (WeekdayListed(e, t) ==> Listed(e.months, t.month)))
  {
    if AnyStar(e.months) {
      StarListsAll(e.months, 1, 12, t.month);
    }
    if AnyStar(e.monthDays) {
      StarListsAll(e.monthDays, 1, 31, t.day);
    }
    if AnyStar(e.weekdays) {
      StarListsAll(e.weekdays, 0, 7, t.weekday);
    }
  }

  ghost predicate EveryMonth(e: Expression) {
    forall m :: 1 <= m <= 12 ==> Listed(e.months, m)
  }

  ghost predicate EveryWeekday(e: Expression) {
    forall w :: 0 <= w <= 6 ==> WeekdayListed(e, OnDay(1, w))
  }

  /** The first of a month, on a weekday. */
  function OnDay(month: int, weekday: int): Civil {
    Civil(0, 0, 1, month, weekday)
  }

  /** Fields as the parser gives them: not empty, every item in range. */
  predicate ParsedField(items: seq<Item>, min: int, max: int) {
    items != [] && forall k :: 0 <= k < |items| ==> InRange(items[k], min, max)
  }

  predicate Parsed(e: Expression) {
    && ParsedField(e.minutes, 0, 59) && ParsedField(e.hours, 0, 23)
    && ParsedField(e.monthDays, 1, 31) && ParsedField(e.months, 1, 12) && ParsedField(e.weekdays, 0, 7)
  }

  ghost predicate DaysAgree(e: Expression) {
    forall t :: IsDate(t) ==> (DaySelected(e, t) <==> PosixDay(e, t))
  }

  lemma FirstIsListed(items: seq<Item>, min: int, max: int)
    requires ParsedField(items, min, max)
    ensures Listed(items, items[0].start)
  {
    assert items[0].start == items[0].start + 0 * items[0].step;
    assert Denotes(items[0], items[0].start);
  }

  lemma SomeWeekday(e: Expression) returns (w: int)
    requires Parsed(e)
    ensures 0 <= w <= 6 && WeekdayListed(e, OnDay(1, w))
  {
    FirstIsListed(e.weekdays, 0, 7);
    assert InRange(e.weekdays[0], 0, 7);
    w := if e.weekdays[0].start == 7 then 0 else e.weekdays[0].start;
  }

  /** What a caller can check: the month or the weekday is `*`, or every month is listed and either the
      day of the month is restricted or every weekday is listed. */
  ghost predicate FollowsPosix(e: Expression) {
    AnyStar(e.months) || AnyStar(e.weekdays) || (EveryMonth(e) && (!AnyStar(e.monthDays) || EveryWeekday(e)))
  }

  lemma DaysAgreeIff(e: Expression)
    requires PosixForm(e) && Parsed(e)
    ensures DaysAgree(e) <==> FollowsPosix(e)
  {
    if FollowsPosix(e) {
      forall t | IsDate(t) ensures DaySelected(e, t) <==> PosixDay(e, t) {
        PosixAgreesOn(e, t);
        assert EveryWeekday(e) ==> WeekdayListed(e, OnDay(1, t.weekday));
      }
    } else {
      var t := PosixDiffersAt(e);
    }
  }

  /** When POSIX makes an expression due. */
  ghost predicate PosixDue(e: Expression, t: Civil) {
    Listed(e.minutes, t.minute) && Listed(e.hours, t.hour) && PosixDay(e, t)
  }

  lemma PosixFieldIsFaithful(items: seq<Item>, min: int, max: int)
    requires PosixField(items, min, max) && ParsedField(items, min, max) && max <= 59
    ensures ReturnsListed(items, min)
  {
    assert forall k :: 0 <= k < |items| ==> items[k].step == 1 && InRange(items[k], min, max);
  }

  lemma PosixIsFaithful(e: Expression)
    requires PosixForm(e) && Parsed(e)
    ensures Faithful(e)
  {
    PosixFieldIsFaithful(e.minutes, 0, 59);
    PosixFieldIsFaithful(e.hours, 0, 23);
    PosixFieldIsFaithful(e.monthDays, 1, 31);
    PosixFieldIsFaithful(e.months, 1, 12);
    PosixFieldIsFaithful(e.weekdays, 0, 7);
  }

  /** Some listed minute and hour of a date. */
  lemma SomeTime(e: Expression, t: Civil) returns (u: Civil)
    requires Parsed(e) && IsDate(t)
    ensures IsTime(u) && u == t.(minute := u.minute, hour := u.hour) && Listed(e.minutes, u.minute) && Listed(e.hours, u.hour)
  {
    FirstIsListed(e.minutes, 0, 59);
    FirstIsListed(e.hours, 0, 23);
    assert InRange(e.minutes[0], 0, 59) && InRange(e.hours[0], 0, 23);
    u := t.(minute := e.minutes[0].start, hour := e.hours[0].start);
  }

  ghost predicate DueAsPosix(expression: string, e: Expression) {
    forall t :: IsTime(t) ==> (Due(expression, t) <==> PosixDue(e, t))
  }

  /** An accepted expression in POSIX form is due at all times exactly when POSIX makes it due, if and only
      if its month or its weekday is `*`, or it lists every month and either restricts the day of the
      month or lists every weekday. */
  lemma PosixAgreesIff(expression: string)
    requires ItemsOf(expression).Some? && PosixForm(ItemsOf(expression).value)
    ensures DueAsPosix(expression, ItemsOf(expression).value) <==> FollowsPosix(ItemsOf(expression).value)
  {
    var e := ItemsOf(expression).value;
    ItemsAreParsed(expression);
    DaysAgreeIff(e);
    if FollowsPosix(e) {
      forall t | IsTime(t) ensures Due(expression, t) <==> PosixDue(e, t) {
        PosixTextIsDueIff(expression, e, t);
      }
    } else {
      var t := PosixDueDiffersAt(expression, e);
    }
  }

  lemma PosixDueDiffersAt(expression: string, e: Expression) returns (u: Civil)
    requires ItemsOf(expression) == Some(e) && PosixForm(e) && Parsed(e) && !FollowsPosix(e)
    ensures IsTime(u) && !(Due(expression, u) <==> PosixDue(e, u))
  {
    var t := PosixDiffersAt(e);
    u := SomeTime(e, t);
    PosixTextIsDueIff(expression, e, u);
    assert DaySelected(e, u) == DaySelected(e, t) && PosixDay(e, u) == PosixDay(e, t);
  }

  lemma PosixDiffersAt(e: Expression) returns (t: Civil)
    requires PosixForm(e) && Parsed(e) && !AnyStar(e.months) && !AnyStar(e.weekdays)
    requires !EveryMonth(e) || (AnyStar(e.monthDays) && !EveryWeekday(e))
    ensures IsDate(t) && !(DaySelected(e, t) <==> PosixDay(e, t))
  {
    if !EveryMonth(e) {
      var m :| 1 <= m <= 12 && !Listed(e.months, m);
      var w := SomeWeekday(e);
      t := OnDay(m, w);
    } else {
      var w :| 0 <= w <= 6 && !WeekdayListed(e, OnDay(1, w));
      t := OnDay(1, w);
    }
    PosixAgreesOn(e, t);
  }

  /** What the parser gives is parsed in this sense. */
  lemma ItemsAreParsed(expression: string)
    requires ItemsOf(expression).Some?
    ensures Parsed(ItemsOf(expression).value)
  {
    var f := Words(Trim(expression));
    ItemsAreInRange(Split(f[0], ','), 0, 59);
    ItemsAreInRange(Split(f[1], ','), 0, 23);
    ItemsAreInRange(Split(f[2], ','), 1, 31);
    ItemsAreInRange(Split(f[3], ','), 1, 12);
    ItemsAreInRange(Split(f[4], ','), 0, 7);
  }

  /** "* * * 6 1" */
  const JUNE_MONDAYS := WrittenExpression([Written(Star, None)], [Written(Star, None)], [Written(Star, None)],
                                          [Written(Value(6), None)], [Written(Value(1), None)])

  lemma OneWritten(base: Base, text: string)
    requires RenderBase(base) == text
    ensures RenderField([Written(base, None)]) == text
  {
    var ws := [Written(base, None)];
    assert RenderAll(ws) == [text];
  }

  lemma JuneMondaysText()
    ensures RenderExpression(JUNE_MONDAYS) == "* * * 6 1" && ExpressionWritable(JUNE_MONDAYS)
  {
    OneWritten(Star, "*");
    OneWritten(Value(6), "6");
    OneWritten(Value(1), "1");
    assert "*" + (" " + ("*" + (" " + ("*" + (" " + ("6" + (" " + "1"))))))) == "* * * 6 1";
  }

  lemma JuneMondaysItems(text: string)
    requires text == "* * * 6 1"
    ensures ItemsOf(text) == Some(Expression([Item(true, 0, 59, 1)], [Item(true, 0, 23, 1)], [Item(true, 1, 31, 1)],
                                             [Item(false, 6, 6, 1)], [Item(false, 1, 1, 1)]))
  {
    JuneMondaysText();
    ExpressionRoundTrip(JUNE_MONDAYS);
    assert MeantBy(JUNE_MONDAYS) == Expression([Item(true, 0, 59, 1)], [Item(true, 0, 23, 1)], [Item(true, 1, 31, 1)],
                                               [Item(false, 6, 6, 1)], [Item(false, 1, 1, 1)]);
  }

  /** A Monday in May: not due by the code under "* * * 6 1", due by POSIX. */
  lemma MonthAndWeekdayDiffer(text: string, t: Civil)
    requires text == "* * * 6 1" && t == Civil(0, 0, 5, 5, 1)
    ensures ItemsOf(text).Some? && PosixForm(ItemsOf(text).value)
    ensures IsTime(t) && PosixDue(ItemsOf(text).value, t) && !Due(text, t)
  {
    JuneMondaysItems(text);
    var e := ItemsOf(text).value;
    MondayInMay(e, t);
    PosixTextIsDueIff(text, e, t);
  }

  /** A text in POSIX form is due exactly when its items are satisfied. */
  lemma PosixTextIsDueIff(text: string, e: Expression, t: Civil)
    requires ItemsOf(text) == Some(e) && PosixForm(e) && IsTime(t)
    ensures Due(text, t) <==> Satisfies(e, t)
  {
    ItemsAreParsed(text);
    PosixIsFaithful(e);
    DueIffSatisfied(text, t);
  }

  lemma MondayInMay(e: Expression, t: Civil)
    requires e == Expression([Item(true, 0, 59, 1)], [Item(true, 0, 23, 1)], [Item(true, 1, 31, 1)], [Item(false, 6, 6, 1)], [Item(false, 1, 1, 1)])
    requires t == Civil(0, 0, 5, 5, 1)
    ensures PosixForm(e) && PosixDue(e, t) && !Satisfies(e, t)
  {
    assert AnyStar(e.minutes) && AnyStar(e.hours) by {
      assert e.minutes[0].star && e.hours[0].star;
    }
    StarListsAll(e.minutes, 0, 59, 0);
    StarListsAll(e.hours, 0, 23, 0);
    assert Listed(e.weekdays, 1) by {
      assert 1 == 1 + 0 * 1;
      assert Denotes(e.weekdays[0], 1);
    }
    assert !Listed(e.months, 5) by {
      if Denotes(e.months[0], 5) {
        ProgressionIsAbove(5, 6, 6, 1);
      }
    }
    assert !AnyStar(e.months) && !AnyStar(e.weekdays);
  }
}
