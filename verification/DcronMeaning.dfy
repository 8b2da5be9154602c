/** What calendar specifications and crontab lines match, and that translation keeps it. */
module DcronMeaning {
  import opened Common
  import opened Text
  import opened Decimal
  import opened CronFields
  import opened Ordering
  import opened Dcron

  // --- systemd.time(7) ---

  /** A weekday, or a range of weekdays. */
  datatype DayRangeOf = DayRange(first: string, last: Option<string>)

  type DayRange = r: DayRangeOf | DayOfWeek(r.first).Some? && (r.last.Some? ==> DayOfWeek(r.last.value).Some?)
    witness DayRange("sun", None)

  datatype Date = Date(year: Option<Field>, month: Field, day: Field)

  datatype TimeOf = Time(hour: Field, minute: Field, second: Option<string>)

  type Time = t: TimeOf | t.second.Some? ==> IsNumber(t.second.value) witness Time(Any, Any, None)

  datatype SpecOf = Spec(weekdays: Option<seq<DayRange>>, date: Option<Date>, time: Option<Time>)

  /** At least one of weekdays, date and time. */
  type Spec = s: SpecOf | (s.weekdays.Some? ==> s.weekdays.value != [])
                          && (s.weekdays.Some? || s.date.Some? || s.time.Some?)
    witness Spec(None, None, Some(Time(Any, Any, None)))

  function RangeText(r: DayRange): string {
    match r.last case None => r.first case Some(last) => r.first + "-" + last
  }

  function RangeTexts(rs: seq<DayRange>): (t: seq<string>)
    ensures |t| == |rs| && forall i | 0 <= i < |rs| :: t[i] == RangeText(rs[i])
  {
    seq(|rs|, i requires 0 <= i < |rs| => RangeText(rs[i]))
  }

  function DatePieces(d: Date): seq<string> {
    (match d.year case None => [] case Some(y) => [FieldText(y)]) + [FieldText(d.month), FieldText(d.day)]
  }

  function DateText(d: Date): string { Join(DatePieces(d), "-") }

  function TimePieces(t: Time): seq<string> {
    [FieldText(t.hour), FieldText(t.minute)] + (match t.second case None => [] case Some(s) => [s])
  }

  function TimeText(t: Time): string { Join(TimePieces(t), ":") }

  function DateTimeWords(s: Spec): seq<string> {
    (match s.date case None => [] case Some(d) => [DateText(d)])
    + (match s.time case None => [] case Some(t) => [TimeText(t)])
  }

  function Words(s: Spec): seq<string> {
    (match s.weekdays case None => [] case Some(rs) => [Join(RangeTexts(rs), ",")]) + DateTimeWords(s)
  }

  function SpecText(s: Spec): string { Join(Words(s), " ") }

  /** Without a date, every day; without a time, midnight. */
  function DateOf(s: Spec): Date { match s.date case None => Date(None, Any, Any) case Some(d) => d }

  const MIDNIGHT: Time := Time(List([Element("0", None)]), List([Element("0", None)]), None)

  function TimeOfDay(s: Spec): Time { match s.time case None => MIDNIGHT case Some(t) => t }

  /** Any values of the five fields, of the calendar or not; Sunday is weekday 0. */
  datatype Moment = Moment(minute: nat, hour: nat, day: nat, month: nat, weekday: nat)

  predicate IsMoment(m: Moment) {
    m.minute < 60 && m.hour < 24 && 1 <= m.day <= 31 && 1 <= m.month <= 12 && m.weekday < 7
  }

  /** The place of a weekday in a week that starts on Monday. */
  function FromMonday(d: nat): nat { (d + 6) % 7 }

  const WEEK: seq<string> := ["sunday", "monday", "tuesday", "wednesday", "thursday", "friday", "saturday"]

  /** The name of weekday `d` or its first three letters, in upper or lower case. */
  predicate IsNamed(name: string, d: nat) {
    d < 7 && (Lower(name) == WEEK[d] || Lower(name) == WEEK[d][..3])
  }

  lemma ShortNames()
    ensures WEEK[0][..3] == "sun" && WEEK[1][..3] == "mon" && WEEK[2][..3] == "tue" && WEEK[3][..3] == "wed"
    ensures WEEK[4][..3] == "thu" && WEEK[5][..3] == "fri" && WEEK[6][..3] == "sat"
  {
  }

  /** The number of a weekday is its place in the week. */
  lemma DayOfWeekExactly(name: string, d: nat)
    ensures DayOfWeek(name) == Some(d) <==> IsNamed(name, d)
  {
    ShortNames();
  }

  /** An item that is a single weekday is translated to its place in the week. */
  lemma WeekdayIsNumber(name: string, d: nat)
    requires IsNamed(name, d)
    ensures WeekdayItem(name) == Some(["0123456"[d]])
  {
    DayOfWeekExactly(name, d);
    WeekdayIsLetters(name);
    assert '-' !in name;
    SplitAtFirst(name, "", '-');
    assert Digits(d) == [(d + 48) as char];
  }

  /** From the first day on to the last one, in a week that starts on Monday. */
  predicate RangeHas(r: DayRange, d: nat) {
    exists first, last | 0 <= first < 7 && 0 <= last < 7 ::
      IsNamed(r.first, first) && IsNamed(r.last.GetOr(r.first), last)
      && FromMonday(first) <= FromMonday(d) <= FromMonday(last)
  }

  lemma RangeHasIs(r: DayRange, d: nat)
    ensures var first := DayOfWeek(r.first).value;
      var last := match r.last case None => first case Some(l) => DayOfWeek(l).value;
      RangeHas(r, d) <==> FromMonday(first) <= FromMonday(d) <= FromMonday(last)
  {
    var first := DayOfWeek(r.first).value;
    var last := match r.last case None => first case Some(l) => DayOfWeek(l).value;
    forall k ensures IsNamed(r.first, k) <==> k == first { DayOfWeekExactly(r.first, k); }
    forall k ensures IsNamed(r.last.GetOr(r.first), k) <==> k == last { DayOfWeekExactly(r.last.GetOr(r.first), k); }
  }

  predicate WeekdaysHave(rs: seq<DayRange>, d: nat) {
    exists i :: 0 <= i < |rs| && RangeHas(rs[i], d)
  }

  predicate DowHas(s: Spec, d: nat) { s.weekdays.Some? ==> WeekdaysHave(s.weekdays.value, d) }

  predicate SpecHas(s: Spec, m: Moment) {
    && FieldHas(TimeOfDay(s).minute, 0, 60, m.minute) && FieldHas(TimeOfDay(s).hour, 0, 24, m.hour)
    && FieldHas(DateOf(s).day, 1, 31, m.day) && FieldHas(DateOf(s).month, 1, 12, m.month)
    && DowHas(s, m.weekday)
  }

  // --- crontab(5) ---

  /** When both days are restricted, either of them is enough. */
  predicate CronLineHas(line: string, m: Moment) {
    var f := Split(line, ' ');
    && |f| == 5
    && CronFieldHas(f[0], m.minute) && CronFieldHas(f[1], m.hour) && CronFieldHas(f[3], m.month)
    && (if f[2] == "*" || f[4] == "*" then CronFieldHas(f[2], m.day) && CronFieldHas(f[4], m.weekday)
        else CronFieldHas(f[2], m.day) || CronFieldHas(f[4], m.weekday))
  }

  // --- Texts and their pieces ---

  /** A field is written with digits, stars, commas and slashes. */
  lemma FieldTextLacks(f: Field, c: char)
    requires !IsDigit(c) && c != '*' && c != ',' && c != '/'
    ensures c !in FieldText(f)
  {
    if f.List? {
      forall i | 0 <= i < |f.elements| ensures c !in ElementTexts(f.elements)[i] {
        var e := f.elements[i];
        NumberHasOnlyDigits(e.first, c);
        if e.step.Some? { NumberHasOnlyDigits(e.step.value, c); }
      }
      JoinLacks(ElementTexts(f.elements), ",", c);
    }
  }

  lemma FieldTextStarts(f: Field)
    ensures FieldText(f) != "" && (IsDigit(FieldText(f)[0]) || FieldText(f)[0] == '*')
    ensures FieldText(f) == "*" <==> f.Any?
  {
    if f.List? {
      FieldTextSplits(f.elements);
      ElementTextHasNoComma(f.elements[0]);
      assert FieldText(f)[0] == ElementTexts(f.elements)[0][0];
    }
  }

  lemma DateTextSplits(d: Date)
    ensures Split(DateText(d), '-') == DatePieces(d)
    ensures ':' !in DateText(d) && ' ' !in DateText(d)
    ensures DateText(d) != "" && (IsDigit(DateText(d)[0]) || DateText(d)[0] == '*')
  {
    var pieces := DatePieces(d);
    forall c, f: Field | c in {'-', ':', ' '} ensures c !in FieldText(f) { FieldTextLacks(f, c); }
    forall i | 0 <= i < |pieces| ensures '-' !in pieces[i] && ':' !in pieces[i] && ' ' !in pieces[i] {}
    SplitJoin(pieces, '-');
    JoinLacks(pieces, "-", ':');
    JoinLacks(pieces, "-", ' ');
    FieldTextStarts(match d.year case None => d.month case Some(y) => y);
    assert DateText(d)[0] == pieces[0][0];
  }

  lemma TimeTextSplits(t: Time)
    ensures Split(TimeText(t), ':') == TimePieces(t)
    ensures ':' in TimeText(t) && ' ' !in TimeText(t)
    ensures TimeText(t) != "" && (IsDigit(TimeText(t)[0]) || TimeText(t)[0] == '*')
  {
    var pieces := TimePieces(t);
    forall c, f: Field | c in {':', ' '} ensures c !in FieldText(f) { FieldTextLacks(f, c); }
    if t.second.Some? {
      NumberHasOnlyDigits(t.second.value, ':');
      NumberHasOnlyDigits(t.second.value, ' ');
    }
    forall i | 0 <= i < |pieces| ensures ':' !in pieces[i] && ' ' !in pieces[i] {}
    SplitJoin(pieces, ':');
    JoinLacks(pieces, ":", ' ');
    FieldTextStarts(t.hour);
    assert TimeText(t) == pieces[0] + ":" + Join(pieces[1..], ":");
    assert TimeText(t)[0] == pieces[0][0] && TimeText(t)[|pieces[0]|] == ':';
  }

  // --- Weekdays ---

  predicate IsLetter(c: char) { 'a' <= c <= 'z' || 'A' <= c <= 'Z' }

  lemma WeekdayIsLetters(name: string)
    requires DayOfWeek(name).Some?
    ensures name != "" && forall i | 0 <= i < |name| :: IsLetter(name[i])
  {
    var n := Lower(name);
    assert forall i | 0 <= i < |n| :: 'a' <= n[i] <= 'z';
    forall i | 0 <= i < |name| ensures IsLetter(name[i]) {
      assert n[i] == LowerChar(name[i]);
    }
  }

  lemma RangeTextIs(r: DayRange)
    ensures ',' !in RangeText(r) && ' ' !in RangeText(r) && RangeText(r) != ""
    ensures SplitOnce(RangeText(r), '-') == match r.last case None => [r.first] case Some(l) => [r.first, l]
  {
    WeekdayIsLetters(r.first);
    assert '-' !in r.first && ',' !in r.first && ' ' !in r.first;
    match r.last
    case None => SplitAtFirst(r.first, "", '-');
    case Some(l) =>
      WeekdayIsLetters(l);
      assert ',' !in l && ' ' !in l;
      assert RangeText(r) == r.first + ['-'] + l;
      SplitAtFirst(r.first, l, '-');
      assert RangeText(r)[|r.first| + 1..] == l;
  }

  /** The range by numbers. */
  function NumberText(r: DayRange): string {
    var first := DayOfWeek(r.first).value;
    match r.last
    case None => Digits(first)
    case Some(l) => Digits(first) + "-" + Digits(DayOfWeek(l).value)
  }

  function NumberTexts(rs: seq<DayRange>): (t: seq<string>)
    ensures |t| == |rs| && forall i | 0 <= i < |rs| :: t[i] == NumberText(rs[i])
  {
    seq(|rs|, i requires 0 <= i < |rs| => NumberText(rs[i]))
  }

  lemma RangeConverts(r: DayRange)
    ensures RangeText(r) != "" && WeekdayItem(RangeText(r)) == Some(NumberText(r))
  {
    RangeTextIs(r);
  }

  lemma WeekdayItemsAppend(items: seq<string>, x: string)
    requires WeekdayItems(items).Some? && x != "" && WeekdayItem(x).Some?
    ensures WeekdayItems(items + [x]) == Some(WeekdayItems(items).value + [WeekdayItem(x).value])
  {
    assert (items + [x])[..|items|] == items;
  }

  lemma AppendLast<T>(all: seq<T>, front: seq<T>, last: T)
    requires |all| == |front| + 1 && all[|front|] == last && forall i | 0 <= i < |front| :: all[i] == front[i]
    ensures all == front + [last]
  {
  }

  lemma TextsAppend(rs: seq<DayRange>)
    requires rs != []
    ensures RangeTexts(rs) == RangeTexts(rs[..|rs| - 1]) + [RangeText(rs[|rs| - 1])]
    ensures NumberTexts(rs) == NumberTexts(rs[..|rs| - 1]) + [NumberText(rs[|rs| - 1])]
  {
    var front, last := rs[..|rs| - 1], rs[|rs| - 1];
    AppendLast(RangeTexts(rs), RangeTexts(front), RangeText(last));
    AppendLast(NumberTexts(rs), NumberTexts(front), NumberText(last));
  }

  lemma {:induction false} RangesConvert(rs: seq<DayRange>)
    ensures WeekdayItems(RangeTexts(rs)) == Some(NumberTexts(rs))
    decreases |rs|
  {
    if rs == [] {
      assert RangeTexts(rs) == [] && NumberTexts(rs) == [];
    } else {
      var front, r := rs[..|rs| - 1], rs[|rs| - 1];
      RangesConvert(front);
      RangeConverts(r);
      WeekdayItemsAppend(RangeTexts(front), RangeText(r));
      TextsAppend(rs);
    }
  }

  /** The last field of the line. */
  function DowText(rs: seq<DayRange>): string { Join(Sorted(NumberTexts(rs)), ",") }

  lemma WeekdaysConvert(rs: seq<DayRange>)
    requires rs != []
    ensures Weekdays(Join(RangeTexts(rs), ",")) == Some(DowText(rs))
    ensures ' ' !in Join(RangeTexts(rs), ",") && Join(RangeTexts(rs), ",") != ""
  {
    forall i | 0 <= i < |rs| ensures ',' !in RangeTexts(rs)[i] && ' ' !in RangeTexts(rs)[i] && RangeTexts(rs)[i] != "" {
      RangeTextIs(rs[i]);
    }
    SplitJoin(RangeTexts(rs), ',');
    JoinLacks(RangeTexts(rs), ",", ' ');
    RangesConvert(rs);
  }

  // --- Which specifications are accepted ---

  lemma {:induction false} FirstItemFails(items: seq<string>)
    requires items != [] && items[0] != "" && WeekdayItem(items[0]).None?
    ensures WeekdayItems(items).None?
    decreases |items|
  {
    if |items| > 1 { FirstItemFails(items[..|items| - 1]); }
  }

  /** A text that starts with no letter is not read as weekdays. */
  lemma NotWeekdays(text: string)
    requires text != "" && !IsLetter(text[0]) && text[0] != ',' && text[0] != '-'
    ensures Weekdays(text).None?
  {
    var item := Split(text, ',')[0];
    assert item[0] == text[0];
    var name := SplitOnce(item, '-')[0];
    assert name[0] == text[0];
    if DayOfWeek(name).Some? {
      WeekdayIsLetters(name);
      assert false;
    }
    FirstItemFails(Split(text, ','));
  }

  lemma SymbolicIsLetters(text: string)
    requires Symbolic(text).Some?
    ensures text != "" && forall i | 0 <= i < |text| :: IsLetter(text[i])
  {
  }

  lemma SymbolicIsNoDay(text: string)
    requires Symbolic(text).Some?
    ensures DayOfWeek(text).None?
  {
    assert |Lower(text)| == |text| && Lower(text)[0] == LowerChar(text[0]);
  }

  lemma SymbolicIsNoWeekday(text: string)
    requires Symbolic(text).Some?
    ensures Weekdays(text).None? && ' ' !in text && text != "" && IsLetter(text[0])
  {
    SymbolicIsLetters(text);
    SplitAtFirst(text, "", ',');
    SplitAtFirst(text, "", '-');
    SymbolicIsNoDay(text);
    FirstItemFails([text]);
  }

  predicate IsPlainWord(w: string) { ' ' !in w && w != "" && !IsSpace(w[0]) }

  lemma WeekdaysStart(rs: seq<DayRange>)
    requires rs != []
    ensures IsPlainWord(Join(RangeTexts(rs), ","))
  {
    WeekdaysConvert(rs);
    RangeTextIs(rs[0]);
    WeekdayIsLetters(rs[0].first);
    assert RangeTexts(rs)[0][0] == rs[0].first[0];
    assert Join(RangeTexts(rs), ",")[0] == RangeTexts(rs)[0][0];
  }

  lemma WordIsPlain(s: Spec, i: nat)
    requires i < |Words(s)|
    ensures IsPlainWord(Words(s)[i])
  {
    if s.date.Some? { DateTextSplits(s.date.value); }
    if s.time.Some? { TimeTextSplits(s.time.value); }
    if s.weekdays.Some? { WeekdaysStart(s.weekdays.value); }
    PlainWordsJoin(s, i);
  }

  lemma PlainWordsJoin(s: Spec, i: nat)
    requires i < |Words(s)|
    ensures (s.weekdays.Some? && Words(s)[i] == Join(RangeTexts(s.weekdays.value), ","))
         || (s.date.Some? && Words(s)[i] == DateText(s.date.value))
         || (s.time.Some? && Words(s)[i] == TimeText(s.time.value))
  {
  }

  lemma WordsSplit(s: Spec)
    ensures Split(SpecText(s), ' ') == Words(s) && Strip(SpecText(s)) != ""
    ensures Symbolic(SpecText(s)).None?
  {
    var text := SpecText(s);
    forall i | 0 <= i < |Words(s)| ensures ' ' !in Words(s)[i] { WordIsPlain(s, i); }
    SplitJoin(Words(s), ' ');
    WordIsPlain(s, 0);
    assert text[0] == Words(s)[0][0];
    LStripIs(text);
    RStripIs(text);
    if Symbolic(text).Some? {
      SymbolicIsNoWeekday(text);
      SplitAtFirst(text, "", ' ');
      assert Words(s) == [text];
      match s.weekdays
      case Some(rs) => WeekdaysConvert(rs);
      case None => DateOrTimeStarts(s);
    }
  }

  lemma DateOrTimeStarts(s: Spec)
    requires DateTimeWords(s) != []
    ensures DateTimeWords(s)[0] != "" && (IsDigit(DateTimeWords(s)[0][0]) || DateTimeWords(s)[0][0] == '*')
  {
    match s.date
    case Some(d) => DateTextSplits(d);
    case None => TimeTextSplits(s.time.value);
  }

  lemma DefaultTexts()
    ensures DateText(Date(None, Any, Any)) == "*-*" && TimeText(MIDNIGHT) == "0:0"
  {
    assert Join(["*", "*"][1..], "-") == "*";
    assert FieldText(List([Element("0", None)])) == "0";
    assert TimePieces(MIDNIGHT) == ["0", "0"];
    assert Join(["0", "0"][1..], ":") == "0";
  }

  lemma DateAndTimeOf(s: Spec)
    ensures DateAndTime(DateTimeWords(s)) == Some((DateText(DateOf(s)), TimeText(TimeOfDay(s))))
  {
    assert DateText(Date(None, Any, Any)) == "*-*" && TimeText(MIDNIGHT) == "0:0" by { DefaultTexts(); }
    match (s.date, s.time)
    case (None, None) =>
    case (Some(d), None) => assert ':' !in DateText(d) by { DateTextSplits(d); }
    case (None, Some(t)) => assert ':' in TimeText(t) by { TimeTextSplits(t); }
    case _ =>
  }

  predicate FieldFits(f: Field, y: nat, z: nat) { f.Any? || AllAccepted(f.elements, y, z) }

  /** Any year; no day of month together with weekdays; no seconds; each field within its bounds,
      and no stepped value that stands for itself alone. */
  predicate IsSupported(s: Spec) {
    var d, t := DateOf(s), TimeOfDay(s);
    && (d.year.None? || d.year.value.Any?)
    && (s.weekdays.Some? ==> d.day.Any?)
    && (t.second.Some? ==> Value(t.second.value) == 0)
    && FieldFits(t.minute, 0, 60) && FieldFits(t.hour, 0, 24)
    && FieldFits(d.day, 1, 31) && FieldFits(d.month, 1, 12)
  }

  function DowOf(s: Spec): string { match s.weekdays case None => "*" case Some(rs) => DowText(rs) }

  lemma {:induction false} DowTextIsNoStar(rs: seq<DayRange>)
    requires rs != []
    ensures DowText(rs) != "*" && ' ' !in DowText(rs)
    ensures Split(DowText(rs), ',') == Sorted(NumberTexts(rs))
  {
    var items := Sorted(NumberTexts(rs));
    SortedHas(NumberTexts(rs));
    forall i | 0 <= i < |items| ensures ',' !in items[i] && ' ' !in items[i] && items[i] != "*" {
      assert items[i] in items;
      var k :| 0 <= k < |rs| && NumberTexts(rs)[k] == items[i];
      NumberTextIs(rs[k]);
    }
    SplitJoin(items, ',');
    JoinLacks(items, ",", ' ');
    SplitAtFirst("*", "", ',');
    assert items[0] != "*";
  }

  lemma NumberTextIs(r: DayRange)
    ensures ',' !in NumberText(r) && ' ' !in NumberText(r) && NumberText(r) != "*"
  {
    ValueOfDigits(DayOfWeek(r.first).value);
    var first := Digits(DayOfWeek(r.first).value);
    NumberHasOnlyDigits(first, ',');
    NumberHasOnlyDigits(first, ' ');
    assert IsDigit(first[0]);
    match r.last
    case None =>
    case Some(l) =>
      ValueOfDigits(DayOfWeek(l).value);
      NumberHasOnlyDigits(Digits(DayOfWeek(l).value), ',');
      NumberHasOnlyDigits(Digits(DayOfWeek(l).value), ' ');
  }

  lemma MonthAndDayOf(s: Spec)
    ensures MonthAndDay(DateText(DateOf(s)), DowOf(s))
         == var d := DateOf(s);
            if (d.year.None? || d.year.value.Any?) && (s.weekdays.Some? ==> d.day.Any?)
            then Some((FieldText(d.month), FieldText(d.day))) else None
  {
    var d := DateOf(s);
    DateTextSplits(d);
    FieldTextStarts(d.day);
    match d.year { case None => case Some(y) => FieldTextStarts(y); }
    match s.weekdays { case None => case Some(rs) => DowTextIsNoStar(rs); }
  }

  lemma HourAndMinuteOf(t: Time)
    ensures HourAndMinute(TimeText(t))
         == if t.second.Some? && Value(t.second.value) != 0 then None
            else Some((FieldText(t.hour), FieldText(t.minute)))
  {
    TimeTextSplits(t);
    if t.second.Some? { ParseIntOfNumber(t.second.value); }
  }

  /** The converted texts of the four numeric fields. */
  function Minutes(s: Spec): Option<string> { Convert(FieldText(TimeOfDay(s).minute), 0, 60) }
  function Hours(s: Spec): Option<string> { Convert(FieldText(TimeOfDay(s).hour), 0, 24) }
  function Days(s: Spec): Option<string> { Convert(FieldText(DateOf(s).day), 1, 31) }
  function Months(s: Spec): Option<string> { Convert(FieldText(DateOf(s).month), 1, 12) }

  lemma FieldsFit(s: Spec)
    ensures Minutes(s).Some? <==> FieldFits(TimeOfDay(s).minute, 0, 60)
    ensures Hours(s).Some? <==> FieldFits(TimeOfDay(s).hour, 0, 24)
    ensures Days(s).Some? <==> FieldFits(DateOf(s).day, 1, 31)
    ensures Months(s).Some? <==> FieldFits(DateOf(s).month, 1, 12)
  {
    AcceptsExactly(TimeOfDay(s).minute, 0, 60);
    AcceptsExactly(TimeOfDay(s).hour, 0, 24);
    AcceptsExactly(DateOf(s).day, 1, 31);
    AcceptsExactly(DateOf(s).month, 1, 12);
  }

  lemma WeekdaysComeFirst(text: string, dow: string, words: seq<string>)
    requires Symbolic(text).None? && Strip(text) != ""
    requires words != [] && Split(text, ' ') == words && Weekdays(words[0]) == Some(dow)
    requires DateAndTime(words[1..]).Some?
    ensures Translate(text) == CronLine(DateAndTime(words[1..]).value.0, DateAndTime(words[1..]).value.1, dow)
  {
  }

  lemma NoWeekdays(text: string, words: seq<string>)
    requires Symbolic(text).None? && Strip(text) != ""
    requires words != [] && Split(text, ' ') == words && Weekdays(words[0]).None? && DateAndTime(words).Some?
    ensures Translate(text) == CronLine(DateAndTime(words).value.0, DateAndTime(words).value.1, "*")
  {
  }

  lemma TranslateOf(s: Spec)
    ensures Translate(SpecText(s)) == CronLine(DateText(DateOf(s)), TimeText(TimeOfDay(s)), DowOf(s))
  {
    WordsSplit(s);
    DateAndTimeOf(s);
    match s.weekdays
    case None =>
      assert Weekdays(Words(s)[0]).None? by {
        DateOrTimeStarts(s);
        NotWeekdays(Words(s)[0]);
      }
      NoWeekdays(SpecText(s), Words(s));
    case Some(rs) =>
      assert Weekdays(Words(s)[0]) == Some(DowText(rs)) by { WeekdaysConvert(rs); }
      assert Words(s)[1..] == DateTimeWords(s);
      WeekdaysComeFirst(SpecText(s), DowText(rs), Words(s));
  }

  /** Exactly the supported specifications are translated. */
  lemma TranslatesExactly(s: Spec)
    ensures Translate(SpecText(s)).Some? <==> IsSupported(s)
    ensures IsSupported(s) ==> Minutes(s).Some? && Hours(s).Some? && Days(s).Some? && Months(s).Some?
    ensures IsSupported(s) ==>
      Translate(SpecText(s))
          == Some(Join([Minutes(s).value, Hours(s).value, Days(s).value, Months(s).value, DowOf(s)], " "))
  {
    TranslateOf(s);
    MonthAndDayOf(s);
    HourAndMinuteOf(TimeOfDay(s));
    FieldsFit(s);
  }

  // --- What the line means ---

  lemma StepTextIsPlain(first: nat, last: nat, step: nat)
    ensures ' ' !in StepText(first, last, step) && StepText(first, last, step) != "*"
  {
    StepTextIsItem(first, last, step);
    ValueOfDigits(first);
    ValueOfDigits(last);
    ValueOfDigits(step);
    NumberHasOnlyDigits(Digits(first), ' ');
    NumberHasOnlyDigits(Digits(last), ' ');
    NumberHasOnlyDigits(Digits(step), ' ');
  }

  lemma ConvertedIs(es: seq<Element>, y: nat, z: nat)
    requires es != [] && AllAccepted(es, y, z)
    ensures Convert(FieldText(List(es)), y, z)
         == Some(match LastStepped(es) case None => FieldText(List(es)) case Some(e) => RangeOf(e, y, z))
  {
    FieldTextSplits(es);
    ElementsConvert(es, FieldText(List(es)), y, z);
  }

  predicate IsPlainField(text: string) { ' ' !in text && text != "*" }

  lemma RangeOfIsPlain(e: Element, y: nat, z: nat)
    requires e.step.Some? && IsAccepted(e, y, z)
    ensures IsPlainField(RangeOf(e, y, z))
  {
    var first, step := Value(e.first), Value(e.step.value);
    StepTextIsPlain(first, first + Span(y + z - first - 1, step), step);
  }

  lemma ListTextIsPlain(es: seq<Element>)
    requires es != []
    ensures IsPlainField(FieldText(List(es)))
  {
    FieldTextLacks(List(es), ' ');
    FieldTextSplits(es);
  }

  lemma ConvertedListIsPlain(es: seq<Element>, y: nat, z: nat)
    requires es != [] && AllAccepted(es, y, z)
    ensures Convert(FieldText(List(es)), y, z).Some? && IsPlainField(Convert(FieldText(List(es)), y, z).value)
  {
    ConvertedIs(es, y, z);
    ListTextIsPlain(es);
    if LastStepped(es).Some? {
      LastSteppedIs(es);
      RangeOfIsPlain(LastStepped(es).value, y, z);
    }
  }

  lemma ConvertedIsPlain(f: Field, y: nat, z: nat)
    requires FieldFits(f, y, z)
    ensures Convert(FieldText(f), y, z).Some? && ' ' !in Convert(FieldText(f), y, z).value
    ensures Convert(FieldText(f), y, z).value == "*" <==> f.Any?
  {
    match f
    case Any =>
    case List(es) => ConvertedListIsPlain(es, y, z);
  }

  /** The numbers of a range, as cron reads them. */
  predicate NumbersHave(r: DayRange, d: nat) {
    var first := DayOfWeek(r.first).value;
    first <= d <= (match r.last case None => first case Some(l) => DayOfWeek(l).value)
  }

  lemma NumberTextMeans(r: DayRange, d: nat)
    ensures CronItemHas(NumberText(r), d) <==> NumbersHave(r, d)
  {
    var a := Digits(DayOfWeek(r.first).value);
    ValueOfDigits(DayOfWeek(r.first).value);
    match r.last
    case None => PlainItemMeans(a, d);
    case Some(l) =>
      var b := Digits(DayOfWeek(l).value);
      ValueOfDigits(DayOfWeek(l).value);
      PlainRangeMeans(a, b, d);
  }

  lemma PlainRangeMeans(a: string, b: string, d: nat)
    requires IsNumber(a) && IsNumber(b)
    ensures CronItemHas(a + "-" + b, d) <==> Value(a) <= d <= Value(b)
  {
    assert '/' !in a + "-" + b by {
      NumberHasOnlyDigits(a, '/');
      NumberHasOnlyDigits(b, '/');
    }
    SplitAtFirst(a + "-" + b, "", '/');
    assert [a + "-" + b][1..] == [];
    assert Split(a + "-" + b, '-') == [a, b] by { RangeTextSplits(a, b, a); }
    RangeOfTwoMeans(a, b, d);
  }

  lemma RangeOfTwoMeans(a: string, b: string, d: nat)
    requires IsNumber(a) && IsNumber(b)
    ensures CronRangeHas([a, b], [], d) <==> Value(a) <= d <= Value(b)
  {
  }

  predicate CronWeekdaysHave(rs: seq<DayRange>, d: nat) {
    exists i :: 0 <= i < |rs| && NumbersHave(rs[i], d)
  }

  lemma DowTextMeans(rs: seq<DayRange>, d: nat)
    requires rs != []
    ensures CronFieldHas(DowText(rs), d) <==> CronWeekdaysHave(rs, d)
  {
    DowTextIsNoStar(rs);
    var items, texts := Sorted(NumberTexts(rs)), NumberTexts(rs);
    SortedHas(texts);
    forall i | 0 <= i < |rs| ensures CronItemHas(texts[i], d) <==> NumbersHave(rs[i], d) {
      NumberTextMeans(rs[i], d);
    }
    if CronFieldHas(DowText(rs), d) {
      var i :| 0 <= i < |items| && CronItemHas(items[i], d);
      assert items[i] in items;
      var k :| 0 <= k < |rs| && texts[k] == items[i];
      assert NumbersHave(rs[k], d);
    }
    if CronWeekdaysHave(rs, d) {
      var k :| 0 <= k < |rs| && NumbersHave(rs[k], d);
      assert texts[k] in texts;
      var i :| 0 <= i < |items| && items[i] == texts[k];
      assert CronItemHas(items[i], d);
    }
  }

  predicate CronDowHas(s: Spec, d: nat) { s.weekdays.Some? ==> CronWeekdaysHave(s.weekdays.value, d) }

  predicate LineHas(s: Spec, m: Moment)
    requires IsSupported(s)
  {
    && ConvertedHas(TimeOfDay(s).minute, 0, 60, m.minute) && ConvertedHas(TimeOfDay(s).hour, 0, 24, m.hour)
    && ConvertedHas(DateOf(s).day, 1, 31, m.day) && ConvertedHas(DateOf(s).month, 1, 12, m.month)
    && CronDowHas(s, m.weekday)
  }

  lemma FieldsArePlain(s: Spec)
    requires IsSupported(s)
    ensures Minutes(s).Some? && ' ' !in Minutes(s).value && Hours(s).Some? && ' ' !in Hours(s).value
    ensures Days(s).Some? && ' ' !in Days(s).value && Months(s).Some? && ' ' !in Months(s).value
    ensures ' ' !in DowOf(s) && (Days(s).value == "*" || DowOf(s) == "*")
  {
    ConvertedIsPlain(TimeOfDay(s).minute, 0, 60);
    ConvertedIsPlain(TimeOfDay(s).hour, 0, 24);
    ConvertedIsPlain(DateOf(s).day, 1, 31);
    ConvertedIsPlain(DateOf(s).month, 1, 12);
    if s.weekdays.Some? { DowTextIsNoStar(s.weekdays.value); }
  }

  lemma LineSplits(s: Spec)
    requires IsSupported(s)
    ensures Translate(SpecText(s)).Some? && Minutes(s).Some? && Hours(s).Some? && Days(s).Some? && Months(s).Some?
    ensures Split(Translate(SpecText(s)).value, ' ')
         == [Minutes(s).value, Hours(s).value, Days(s).value, Months(s).value, DowOf(s)]
    ensures Days(s).value == "*" || DowOf(s) == "*"
  {
    FieldsArePlain(s);
    TranslatesExactly(s);
    SplitJoin([Minutes(s).value, Hours(s).value, Days(s).value, Months(s).value, DowOf(s)], ' ');
  }

  lemma DowOfMeans(s: Spec, d: nat)
    ensures CronFieldHas(DowOf(s), d) <==> CronDowHas(s, d)
  {
    if s.weekdays.Some? { DowTextMeans(s.weekdays.value, d); }
  }

  lemma FiveFieldsHave(line: string, f: seq<string>, m: Moment)
    requires Split(line, ' ') == f && |f| == 5 && (f[2] == "*" || f[4] == "*")
    ensures CronLineHas(line, m)
       <==> (CronFieldHas(f[0], m.minute) && CronFieldHas(f[1], m.hour) && CronFieldHas(f[2], m.day)
             && CronFieldHas(f[3], m.month) && CronFieldHas(f[4], m.weekday))
  {
  }

  /** A line matches a moment when each of its fields does. */
  lemma LineMeans(s: Spec, m: Moment)
    requires IsSupported(s) && IsMoment(m)
    ensures Translate(SpecText(s)).Some?
    ensures CronLineHas(Translate(SpecText(s)).value, m) <==> LineHas(s, m)
  {
    LineSplits(s);
    FieldsMean(s, m);
    FiveFieldsMean(Translate(SpecText(s)).value, Minutes(s).value, Hours(s).value, Days(s).value, Months(s).value,
        DowOf(s), m,
                   ConvertedHas(TimeOfDay(s).minute, 0, 60, m.minute), ConvertedHas(TimeOfDay(s).hour, 0, 24, m.hour),
                   ConvertedHas(DateOf(s).day, 1, 31, m.day), ConvertedHas(DateOf(s).month, 1, 12, m.month),
                   CronDowHas(s, m.weekday));
  }

  lemma FiveFieldsMean(line: string, minute: string, hour: string, day: string, month: string, dow: string, m: Moment,
                       a: bool, b: bool, c: bool, d: bool, e: bool)
    requires Split(line, ' ') == [minute, hour, day, month, dow] && (day == "*" || dow == "*")
    requires CronFieldHas(minute, m.minute) == a && CronFieldHas(hour, m.hour) == b && CronFieldHas(day, m.day) == c
    requires CronFieldHas(month, m.month) == d && CronFieldHas(dow, m.weekday) == e
    ensures CronLineHas(line, m) == (a && b && c && d && e)
  {
    FiveFieldsHave(line, [minute, hour, day, month, dow], m);
  }

  lemma FieldsMean(s: Spec, m: Moment)
    requires Minutes(s).Some? && Hours(s).Some? && Days(s).Some? && Months(s).Some? && IsMoment(m)
    ensures CronFieldHas(Minutes(s).value, m.minute) <==> ConvertedHas(TimeOfDay(s).minute, 0, 60, m.minute)
    ensures CronFieldHas(Hours(s).value, m.hour) <==> ConvertedHas(TimeOfDay(s).hour, 0, 24, m.hour)
    ensures CronFieldHas(Days(s).value, m.day) <==> ConvertedHas(DateOf(s).day, 1, 31, m.day)
    ensures CronFieldHas(Months(s).value, m.month) <==> ConvertedHas(DateOf(s).month, 1, 12, m.month)
    ensures CronFieldHas(DowOf(s), m.weekday) <==> CronDowHas(s, m.weekday)
  {
    ConvertMeans(TimeOfDay(s).minute, 0, 60, m.minute);
    ConvertMeans(TimeOfDay(s).hour, 0, 24, m.hour);
    ConvertMeans(DateOf(s).day, 1, 31, m.day);
    ConvertMeans(DateOf(s).month, 1, 12, m.month);
    DowOfMeans(s, m.weekday);
  }

  ghost predicate WeekdaysAgree(s: Spec) {
    forall d | 0 <= d < 7 :: CronDowHas(s, d) <==> DowHas(s, d)
  }

  predicate FieldsAreCovered(s: Spec) {
    && LastStepCovers(TimeOfDay(s).minute) && LastStepCovers(TimeOfDay(s).hour)
    && LastStepCovers(DateOf(s).day) && LastStepCovers(DateOf(s).month)
  }

  ghost predicate MeaningIsKept(s: Spec)
    requires Translate(SpecText(s)).Some?
  {
    forall m | IsMoment(m) :: CronLineHas(Translate(SpecText(s)).value, m) <==> SpecHas(s, m)
  }

  lemma SomeValue(f: Field, y: nat, z: nat) returns (n: nat)
    requires FieldFits(f, y, z) && z > 0
    ensures FieldHas(f, y, z, n)
    ensures ConvertedHas(f, y, z, n)
  {
    match f
    case Any => n := y;
    case List(es) =>
      LastSteppedIs(es);
      var e := match LastStepped(es) case None => es[0] case Some(e) => e;
      assert IsAccepted(e, y, z);
      n := Value(e.first);
      assert ElementHas(e, y, z, n);
  }

  /** A moment in the specification, and one in the line. */
  lemma SomeMoment(s: Spec, day: nat) returns (m: Moment)
    requires IsSupported(s) && day < 7
    ensures IsMoment(m) && m.weekday == day
    ensures SpecHas(s, m) <==> DowHas(s, day)
    ensures LineHas(s, m) <==> CronDowHas(s, day)
  {
    var minute := SomeValue(TimeOfDay(s).minute, 0, 60);
    var hour := SomeValue(TimeOfDay(s).hour, 0, 24);
    var dayOfMonth := SomeValue(DateOf(s).day, 1, 31);
    var month := SomeValue(DateOf(s).month, 1, 12);
    m := Moment(minute, hour, dayOfMonth, month, day);
  }

  lemma CoveredAgrees(f: Field, y: nat, z: nat, n: nat)
    requires FieldFits(f, y, z) && LastStepCovers(f)
    ensures ConvertedHas(f, y, z, n) <==> FieldHas(f, y, z, n)
  {
    CoversExactly(f, y, z);
    if ConvertedHas(f, y, z, n) { ConvertedWithin(f, y, z, n); }
  }

  ghost predicate HasWeekday(s: Spec) { exists d :: 0 <= d < 7 && DowHas(s, d) }

  lemma KeptWhenCovered(s: Spec, m: Moment)
    requires IsSupported(s) && IsMoment(m)
    requires WeekdaysAgree(s) && (FieldsAreCovered(s) || !HasWeekday(s))
    ensures LineHas(s, m) <==> SpecHas(s, m)
  {
    assert CronDowHas(s, m.weekday) <==> DowHas(s, m.weekday);
    if FieldsAreCovered(s) {
      CoveredAgrees(TimeOfDay(s).minute, 0, 60, m.minute);
      CoveredAgrees(TimeOfDay(s).hour, 0, 24, m.hour);
      CoveredAgrees(DateOf(s).day, 1, 31, m.day);
      CoveredAgrees(DateOf(s).month, 1, 12, m.month);
    }
  }

  lemma WeekdaysAgreeWhenKept(s: Spec)
    requires IsSupported(s) && forall m | IsMoment(m) :: LineHas(s, m) <==> SpecHas(s, m)
    ensures WeekdaysAgree(s)
  {
    forall d | 0 <= d < 7 ensures CronDowHas(s, d) <==> DowHas(s, d) {
      var m := SomeMoment(s, d);
      assert LineHas(s, m) <==> SpecHas(s, m);
    }
  }

  lemma CoveredWhenKept(s: Spec)
    requires IsSupported(s) && forall m | IsMoment(m) :: LineHas(s, m) <==> SpecHas(s, m)
    requires HasWeekday(s)
    ensures FieldsAreCovered(s)
  {
    var d :| 0 <= d < 7 && DowHas(s, d);
    var m := SomeMoment(s, d);
    forall n | FieldHas(TimeOfDay(s).minute, 0, 60, n) ensures ConvertedHas(TimeOfDay(s).minute, 0, 60, n) {
      assert SpecHas(s, m.(minute := n)) && LineHas(s, m.(minute := n));
    }
    forall n | FieldHas(TimeOfDay(s).hour, 0, 24, n) ensures ConvertedHas(TimeOfDay(s).hour, 0, 24, n) {
      assert SpecHas(s, m.(hour := n)) && LineHas(s, m.(hour := n));
    }
    forall n | FieldHas(DateOf(s).day, 1, 31, n) ensures ConvertedHas(DateOf(s).day, 1, 31, n) {
      assert SpecHas(s, m.(day := n)) && LineHas(s, m.(day := n));
    }
    forall n | FieldHas(DateOf(s).month, 1, 12, n) ensures ConvertedHas(DateOf(s).month, 1, 12, n) {
      assert SpecHas(s, m.(month := n)) && LineHas(s, m.(month := n));
    }
    CoveredFields(s);
  }

  lemma CoveredFields(s: Spec)
    requires IsSupported(s)
    requires forall n | FieldHas(TimeOfDay(s).minute, 0, 60, n) :: ConvertedHas(TimeOfDay(s).minute, 0, 60, n)
    requires forall n | FieldHas(TimeOfDay(s).hour, 0, 24, n) :: ConvertedHas(TimeOfDay(s).hour, 0, 24, n)
    requires forall n | FieldHas(DateOf(s).day, 1, 31, n) :: ConvertedHas(DateOf(s).day, 1, 31, n)
    requires forall n | FieldHas(DateOf(s).month, 1, 12, n) :: ConvertedHas(DateOf(s).month, 1, 12, n)
    ensures FieldsAreCovered(s)
  {
    CoversExactly(TimeOfDay(s).minute, 0, 60);
    CoversExactly(TimeOfDay(s).hour, 0, 24);
    CoversExactly(DateOf(s).day, 1, 31);
    CoversExactly(DateOf(s).month, 1, 12);
  }

  /** The line matches the same minutes as the specification exactly when cron's reading of the
      weekdays agrees and the last stepped element of each field covers it (or the weekdays,
      which then wrap around the week, exclude every day anyway). */
  lemma MeaningKeptExactly(s: Spec)
    requires IsSupported(s)
    ensures Translate(SpecText(s)).Some?
    ensures MeaningIsKept(s) <==> WeekdaysAgree(s) && (FieldsAreCovered(s) || !HasWeekday(s))
  {
    TranslatesExactly(s);
    forall m | IsMoment(m) ensures CronLineHas(Translate(SpecText(s)).value, m) <==> LineHas(s, m) {
      LineMeans(s, m);
    }
    if WeekdaysAgree(s) && (FieldsAreCovered(s) || !HasWeekday(s)) {
      forall m | IsMoment(m) ensures LineHas(s, m) <==> SpecHas(s, m) { KeptWhenCovered(s, m); }
    }
    if MeaningIsKept(s) {
      forall m | IsMoment(m) ensures LineHas(s, m) <==> SpecHas(s, m) {
        assert CronLineHas(Translate(SpecText(s)).value, m) <==> SpecHas(s, m);
      }
      WeekdaysAgreeWhenKept(s);
      if HasWeekday(s) { CoveredWhenKept(s); }
    }
  }

  /** Sunday, which ends systemd's week and starts cron's, is both ends of the range or none. */
  predicate IsRegular(r: DayRange) {
    r.last.None? || (IsNamed(r.first, 0) <==> IsNamed(r.last.value, 0))
  }

  lemma FromMondayKeepsOrder(first: nat, last: nat, d: nat)
    requires first < 7 && last < 7 && d < 7 && (first == 0 <==> last == 0)
    ensures first <= d <= last <==> FromMonday(first) <= FromMonday(d) <= FromMonday(last)
  {
  }

  lemma RegularRangeAgrees(r: DayRange, d: nat)
    requires IsRegular(r) && d < 7
    ensures NumbersHave(r, d) <==> RangeHas(r, d)
  {
    var first := DayOfWeek(r.first).value;
    RangeHasIs(r, d);
    DayOfWeekExactly(r.first, 0);
    if r.last.Some? { DayOfWeekExactly(r.last.value, 0); }
    FromMondayKeepsOrder(first, match r.last case None => first case Some(l) => DayOfWeek(l).value, d);
  }

  lemma IrregularRangeDiffers(r: DayRange)
    requires !IsRegular(r)
    ensures exists d :: 0 <= d < 7 && NumbersHave(r, d) != RangeHas(r, d)
  {
    var first, last := DayOfWeek(r.first).value, DayOfWeek(r.last.value).value;
    var d := if first == 0 then last else first;
    DayOfWeekExactly(r.first, 0);
    DayOfWeekExactly(r.last.value, 0);
    RangeHasIs(r, d);
    assert NumbersHave(r, d) != RangeHas(r, d);
  }

  lemma RangeAgreesExactly(r: DayRange)
    ensures (forall d | 0 <= d < 7 :: NumbersHave(r, d) <==> RangeHas(r, d)) <==> IsRegular(r)
  {
    if IsRegular(r) {
      forall d | 0 <= d < 7 ensures NumbersHave(r, d) <==> RangeHas(r, d) { RegularRangeAgrees(r, d); }
    } else {
      IrregularRangeDiffers(r);
    }
  }

  lemma RegularRangesAgree(rs: seq<DayRange>, d: nat)
    requires d < 7 && forall i | 0 <= i < |rs| :: IsRegular(rs[i])
    ensures CronWeekdaysHave(rs, d) <==> WeekdaysHave(rs, d)
  {
    forall i | 0 <= i < |rs| ensures NumbersHave(rs[i], d) <==> RangeHas(rs[i], d) {
      RegularRangeAgrees(rs[i], d);
    }
  }

  /** Weekdays without a range that has Sunday at one end only, and fields that are a star, plain
      values or one stepped value, keep their meaning. */
  lemma SimpleMeaningIsKept(s: Spec)
    requires IsSupported(s)
    requires s.weekdays.Some? ==> forall i | 0 <= i < |s.weekdays.value| :: IsRegular(s.weekdays.value[i])
    requires IsSimple(TimeOfDay(s).minute) && IsSimple(TimeOfDay(s).hour)
    requires IsSimple(DateOf(s).day) && IsSimple(DateOf(s).month)
    ensures Translate(SpecText(s)).Some? && MeaningIsKept(s)
  {
    MeaningKeptExactly(s);
    FieldsFit(s);
    PreservesExactly(TimeOfDay(s).minute, 0, 60);
    PreservesExactly(TimeOfDay(s).hour, 0, 24);
    PreservesExactly(DateOf(s).day, 1, 31);
    PreservesExactly(DateOf(s).month, 1, 12);
    if s.weekdays.Some? {
      var rs := s.weekdays.value;
      forall d | 0 <= d < 7 ensures CronDowHas(s, d) <==> DowHas(s, d) { RegularRangesAgree(rs, d); }
    }
  }

  // --- Where translation and systemd.time(7) disagree: the shorthands ---

  /** A star or a digit, as a field of its own. */
  predicate Has(c: char, n: nat) { c == '*' || (IsDigit(c) && n == c as int - 48) }

  lemma ValueOfOne(c: char)
    requires IsDigit(c)
    ensures IsNumber([c]) && Value([c]) == c as int - 48
  {
    assert [c][..0] == "";
  }

  lemma OneCharacterMeans(c: char, n: nat)
    requires c == '*' || IsDigit(c)
    ensures CronFieldHas([c], n) <==> Has(c, n)
  {
    if c == '*' {
      assert [c] == "*";
    } else {
      ValueOfOne(c);
      OneItem([c], n);
      PlainItemMeans([c], n);
    }
  }

  /** A line of five one-character fields. */
  function ShortLine(f: seq<char>): string
    requires |f| == 5
  {
    [f[0], ' ', f[1], ' ', f[2], ' ', f[3], ' ', f[4]]
  }

  lemma ShortLineSplits(f: seq<char>)
    requires |f| == 5 && ' ' !in f
    ensures Split(ShortLine(f), ' ') == [[f[0]], [f[1]], [f[2]], [f[3]], [f[4]]]
  {
    var a, b, c, d, e := [f[0]], [f[1]], [f[2]], [f[3]], [f[4]];
    SplitAtFirst(e, "", ' ');
    SplitAtFirst(d, e, ' ');
    SplitAtFirst(c, d + [' '] + e, ' ');
    SplitAtFirst(b, c + [' '] + (d + [' '] + e), ' ');
    SplitAtFirst(a, b + [' '] + (c + [' '] + (d + [' '] + e)), ' ');
    assert ShortLine(f) == a + [' '] + (b + [' '] + (c + [' '] + (d + [' '] + e)));
  }

  lemma ShortLineMeans(f: seq<char>, m: Moment)
    requires |f| == 5 && (forall i | 0 <= i < 5 :: f[i] == '*' || IsDigit(f[i])) && (f[2] == '*' || f[4] == '*')
    ensures CronLineHas(ShortLine(f), m)
       <==> (Has(f[0], m.minute) && Has(f[1], m.hour) && Has(f[2], m.day) && Has(f[3], m.month) && Has(f[4], m.weekday))
  {
    ShortLineSplits(f);
    FiveFieldsHave(ShortLine(f), [[f[0]], [f[1]], [f[2]], [f[3]], [f[4]]], m);
    OneCharacterMeans(f[0], m.minute);
    OneCharacterMeans(f[1], m.hour);
    OneCharacterMeans(f[2], m.day);
    OneCharacterMeans(f[3], m.month);
    OneCharacterMeans(f[4], m.weekday);
  }

  function Only(c: char): Field { if IsDigit(c) then ValueOfOne(c); List([Element([c], None)]) else Any }

  lemma OnlyMeans(c: char, y: nat, z: nat, n: nat)
    requires (c == '*' || IsDigit(c)) && y <= n < y + z
    ensures FieldHas(Only(c), y, z, n) <==> Has(c, n)
  {
    if IsDigit(c) {
      ValueOfOne(c);
      assert ElementHas(Only(c).elements[0], y, z, n) <==> Has(c, n);
    }
  }

  const SHORTHANDS: seq<string> := ["minutely", "hourly", "daily", "weekly", "monthly", "yearly"]

  /** These are all shorthands. */
  lemma ShorthandsExactly(text: string)
    ensures Symbolic(text).Some? <==> text in SHORTHANDS
  {
    assert SHORTHANDS[0] == "minutely" && SHORTHANDS[1] == "hourly" && SHORTHANDS[2] == "daily";
    assert SHORTHANDS[3] == "weekly" && SHORTHANDS[4] == "monthly" && SHORTHANDS[5] == "yearly";
  }

  /** The fields of a shorthand; systemd.time(7) gives a week the day on which it starts. */
  function ShortFields(name: string, weekStart: char): seq<char>
    requires name in SHORTHANDS
  {
    if name == "minutely" then ['*', '*', '*', '*', '*']
    else if name == "hourly" then ['0', '*', '*', '*', '*']
    else if name == "daily" then ['0', '0', '*', '*', '*']
    else if name == "weekly" then ['0', '0', '*', '*', weekStart]
    else if name == "monthly" then ['0', '0', '1', '*', '*']
    else ['0', '0', '1', '1', '*']
  }

  /** The normalized form of a shorthand as systemd.time(7) lists it, a week starting on Monday. */
  function Normalized(name: string): Spec
    requires name in SHORTHANDS
  {
    var f := ShortFields(name, '1');
    MondayIs();
    Spec(if f[4] == '*' then None else Some([Monday()]), Some(Date(None, Only(f[3]), Only(f[2]))),
         Some(Time(Only(f[1]), Only(f[0]), None)))
  }

  lemma MondayIs()
    ensures DayOfWeek("mon") == Some(1)
  {
    assert Lower("mon") == "mon";
  }

  function Monday(): DayRange {
    MondayIs();
    DayRange("mon", None)
  }

  lemma NormalizedMeans(name: string, m: Moment)
    requires name in SHORTHANDS && IsMoment(m)
    ensures var f := ShortFields(name, '1');
      SpecHas(Normalized(name), m)
      <==> (Has(f[0], m.minute) && Has(f[1], m.hour) && Has(f[2], m.day) && Has(f[3], m.month) && Has(f[4], m.weekday))
  {
    var f := ShortFields(name, '1');
    OnlyMeans(f[0], 0, 60, m.minute);
    OnlyMeans(f[1], 0, 24, m.hour);
    OnlyMeans(f[2], 1, 31, m.day);
    OnlyMeans(f[3], 1, 12, m.month);
    MondayIs();
    RangeHasIs(Monday(), m.weekday);
    assert RangeHas(Monday(), m.weekday) <==> m.weekday == 1;
    assert WeekdaysHave([Monday()], m.weekday) <==> m.weekday == 1 by {
      assert [Monday()][0] == Monday();
    }
  }

  lemma ShorthandMeans(name: string, m: Moment)
    requires name in SHORTHANDS
    ensures var f := ShortFields(name, '0');
      CronLineHas(Symbolic(name).value, m)
      <==> (Has(f[0], m.minute) && Has(f[1], m.hour) && Has(f[2], m.day) && Has(f[3], m.month) && Has(f[4], m.weekday))
  {
    assert Symbolic(name).value == ShortLine(ShortFields(name, '0'));
    ShortLineMeans(ShortFields(name, '0'), m);
  }

  /** A weekly job runs on Sunday instead of Monday; the other shorthands mean what
      systemd.time(7) says. */
  lemma ShorthandMeaning(name: string)
    requires name in SHORTHANDS
    ensures Translate(name).Some?
    ensures (forall m | IsMoment(m) :: CronLineHas(Translate(name).value, m) <==> SpecHas(Normalized(name), m))
       <==> name != "weekly"
  {
    if name == "weekly" {
      var m := Moment(0, 0, 1, 1, 0);
      ShorthandMeans(name, m);
      NormalizedMeans(name, m);
    } else {
      assert ShortFields(name, '0') == ShortFields(name, '1');
      forall m | IsMoment(m) ensures CronLineHas(Translate(name).value, m) <==> SpecHas(Normalized(name), m) {
        ShorthandMeans(name, m);
        NormalizedMeans(name, m);
      }
    }
  }

  // --- ... and texts that start with commas or a blank ---

  predicate OnlyCommas(word: string) { forall i | 0 <= i < |word| :: word[i] == ',' }

  predicate AllEmpty(items: seq<string>) { forall i | 0 <= i < |items| :: items[i] == "" }

  lemma {:induction false} CommasSplit(word: string)
    ensures AllEmpty(Split(word, ',')) <==> OnlyCommas(word)
  {
    if word != "" {
      var tail := word[1..];
      CommasSplit(tail);
      assert OnlyCommas(word) <==> word[0] == ',' && OnlyCommas(tail) by {
        assert forall i | 0 < i < |word| :: word[i] == tail[i - 1];
      }
      var rest := Split(tail, ',');
      if word[0] == ',' {
        assert Split(word, ',') == [""] + rest;
        assert AllEmpty(rest) <==> AllEmpty([""] + rest) by {
          assert forall i | 0 <= i < |rest| :: ([""] + rest)[i + 1] == rest[i];
        }
      } else {
        assert Split(word, ',')[0] != "";
      }
    }
  }

  /** One weekday or range as it is printed. */
  predicate IsItem(x: string) { x != "" && ' ' !in x && x != "*" }

  lemma WeekdayItemIs(x: string)
    requires WeekdayItem(x).Some?
    ensures IsItem(WeekdayItem(x).value)
  {
    var pieces := SplitOnce(x, '-');
    var first := DayOfWeek(pieces[0]).value;
    ValueOfDigits(first);
    NumberHasOnlyDigits(Digits(first), ' ');
    assert IsDigit(Digits(first)[0]);
    if |pieces| == 2 {
      var last := DayOfWeek(pieces[1]).value;
      ValueOfDigits(last);
      NumberHasOnlyDigits(Digits(last), ' ');
    }
  }

  lemma {:induction false} WeekdayItemsAre(items: seq<string>)
    requires WeekdayItems(items).Some?
    ensures forall x | x in WeekdayItems(items).value :: IsItem(x)
    ensures WeekdayItems(items).value == [] <==> AllEmpty(items)
    decreases |items|
  {
    if items != [] {
      var front, last := items[..|items| - 1], items[|items| - 1];
      WeekdayItemsAre(front);
      assert AllEmpty(items) <==> AllEmpty(front) && last == "" by {
        assert forall i | 0 <= i < |front| :: front[i] == items[i];
      }
      if last != "" { WeekdayItemIs(last); }
    }
  }

  lemma {:induction false} AllEmptyConvert(items: seq<string>)
    requires AllEmpty(items)
    ensures WeekdayItems(items) == Some([])
    decreases |items|
  {
    if items != [] {
      assert forall i | 0 <= i < |items| - 1 :: items[..|items| - 1][i] == items[i];
      AllEmptyConvert(items[..|items| - 1]);
    }
  }

  lemma JoinedItems(items: seq<string>)
    requires forall x | x in items :: IsItem(x)
    ensures ' ' !in Join(items, ",") && (Join(items, ",") == "" <==> items == [])
  {
    forall i | 0 <= i < |items| ensures ' ' !in items[i] && items[i] != "" { assert items[i] in items; }
    JoinLacks(items, ",", ' ');
    if items != [] { assert Join(items, ",")[0] == items[0][0]; }
  }

  /** The weekdays of a word are empty exactly when it has only commas. */
  lemma WeekdaysOf(word: string)
    ensures OnlyCommas(word) ==> Weekdays(word) == Some("")
    ensures Weekdays(word).Some? ==> ' ' !in Weekdays(word).value && (Weekdays(word).value == "" <==> OnlyCommas(word))
  {
    CommasSplit(word);
    var items := Split(word, ',');
    if OnlyCommas(word) { AllEmptyConvert(items); }
    if WeekdayItems(items).Some? {
      WeekdayItemsAre(items);
      var found := WeekdayItems(items).value;
      SortedHas(found);
      JoinedItems(Sorted(found));
    }
  }

  lemma {:induction false} ConvertedLacksBlank(elements: seq<string>, field: string, y: nat, z: nat)
    requires ' ' !in field && ConvertElements(elements, field, y, z).Some?
    ensures ' ' !in ConvertElements(elements, field, y, z).value
    decreases |elements|
  {
    if elements != [] {
      var front, last := elements[..|elements| - 1], elements[|elements| - 1];
      ConvertedLacksBlank(front, field, y, z);
      match ParseInts(SplitOnce(last, '/'))
      case None =>
      case Some(x) => if |x| > 1 { StepTextIsPlain(x[0], x[0] + Span(z - (x[0] - y) - 1, x[1]), x[1]); }
    }
  }

  lemma ConvertLacksBlank(field: string, y: nat, z: nat)
    requires ' ' !in field && Convert(field, y, z).Some?
    ensures ' ' !in Convert(field, y, z).value
  {
    if field != "*" { ConvertedLacksBlank(Split(field, ','), field, y, z); }
  }

  lemma DateAndTimeLackBlank(words: seq<string>)
    requires (forall i | 0 <= i < |words| :: ' ' !in words[i]) && DateAndTime(words).Some?
    ensures ' ' !in DateAndTime(words).value.0 && ' ' !in DateAndTime(words).value.1
  {
  }

  /** A line has five fields, the last one being the weekdays. */
  lemma LineEndsWith(date: string, time: string, dow: string)
    requires ' ' !in date && ' ' !in time && ' ' !in dow && CronLine(date, time, dow).Some?
    ensures var f := Split(CronLine(date, time, dow).value, ' '); |f| == 5 && f[4] == dow
  {
    var (month, day) := MonthAndDay(date, dow).value;
    var (hour, minute) := HourAndMinute(time).value;
    PiecesLack(date, '-', ' ');
    PiecesLack(time, ':', ' ');
    assert ' ' !in month && ' ' !in day && ' ' !in hour && ' ' !in minute;
    ConvertLacksBlank(minute, 0, 60);
    ConvertLacksBlank(hour, 0, 24);
    ConvertLacksBlank(day, 1, 31);
    ConvertLacksBlank(month, 1, 12);
    SplitJoin([Convert(minute, 0, 60).value, Convert(hour, 0, 24).value, Convert(day, 1, 31).value,
               Convert(month, 1, 12).value, dow], ' ');
  }

  /** For every text that is translated without being a shorthand: the last field of the line is
      empty if and only if the first word has nothing but commas. */
  lemma EmptyWeekdaysExactly(text: string)
    requires Symbolic(text).None? && Translate(text).Some?
    ensures var f := Split(Translate(text).value, ' ');
            |f| == 5 && (f[4] == "" <==> OnlyCommas(Split(text, ' ')[0]))
  {
    var words := Split(text, ' ');
    SplitHasNoSeparator(text, ' ');
    WeekdaysOf(words[0]);
    var dow := Weekdays(words[0]);
    var rest := if dow.Some? then words[1..] else words;
    DateAndTimeLackBlank(rest);
    var (date, time) := DateAndTime(rest).value;
    LineEndsWith(date, time, if dow.Some? then dow.value else "*");
  }

  lemma BlankText(text: string)
    ensures Split(" " + text, ' ') == [""] + Split(text, ' ') && Strip(" " + text) == Strip(text)
    ensures Symbolic(" " + text).None?
    ensures Weekdays("") == Some("")
  {
    SplitAtFirst("", text, ' ');
    assert " " + text == "" + [' '] + text && (" " + text)[1..] == text;
    assert WeekdayItems([""]) == Some([]);
    if Symbolic(" " + text).Some? { SymbolicIsNoWeekday(" " + text); }
  }

  /** A blank before a date and time is read as an empty list of weekdays: the line then has an
      empty last field. */
  lemma LeadingBlankLosesWeekdays(s: Spec)
    requires IsSupported(s) && s.weekdays.None? && DateOf(s).day.Any?
    ensures Minutes(s).Some? && Hours(s).Some? && Months(s).Some?
    ensures Translate(" " + SpecText(s))
         == Some(Join([Minutes(s).value, Hours(s).value, "*", Months(s).value, ""], " "))
  {
    BlankIsWeekdays(s);
    TranslatesExactly(s);
    BlankDate(s);
    HourAndMinuteOf(TimeOfDay(s));
  }

  lemma BlankIsWeekdays(s: Spec)
    requires s.weekdays.None?
    ensures Translate(" " + SpecText(s)) == CronLine(DateText(DateOf(s)), TimeText(TimeOfDay(s)), "")
  {
    WordsSplit(s);
    BlankText(SpecText(s));
    var words := [""] + Words(s);
    assert words[1..] == Words(s) == DateTimeWords(s);
    DateAndTimeOf(s);
    WeekdaysComeFirst(" " + SpecText(s), "", words);
  }

  lemma BlankDate(s: Spec)
    requires IsSupported(s) && DateOf(s).day.Any?
    ensures MonthAndDay(DateText(DateOf(s)), "") == Some((FieldText(DateOf(s).month), "*"))
  {
    var d := DateOf(s);
    DateTextSplits(d);
  }

  // --- Every text that is translated ---

  /** A month and a day, perhaps after a star for the year. */
  predicate IsDateWord(word: string) {
    var d := Split(word, '-');
    |d| == 2 || (|d| == 3 && d[0] == "*")
  }

  /** An hour and a minute, perhaps before seconds that are zero. */
  predicate IsTimeWord(word: string) {
    var t := Split(word, ':');
    |t| == 2 || (|t| == 3 && ParseInt(t[2]) == Some(0))
  }

  /** Besides weekdays, at most a date and then a time. */
  predicate AreDateAndTime(words: seq<string>) {
    match |words|
    case 0 => true
    case 1 => if ':' in words[0] then IsTimeWord(words[0]) else IsDateWord(words[0])
    case 2 => IsDateWord(words[0]) && IsTimeWord(words[1])
    case _ => false
  }

  lemma DateIsWord(date: string, dow: string)
    requires MonthAndDay(date, dow).Some?
    ensures IsDateWord(date)
  {
  }

  lemma TimeIsWord(time: string)
    requires HourAndMinute(time).Some?
    ensures IsTimeWord(time)
  {
  }

  /** Whatever a text is, if it is translated it is a shorthand, or weekdays, a date and a time, some
      of them left out: it has no other words, no year other than a star, and no seconds. */
  lemma TranslatedShape(text: string)
    requires text !in SHORTHANDS && Translate(text).Some?
    ensures var words := Split(text, ' ');
            AreDateAndTime(if Weekdays(words[0]).Some? then words[1..] else words)
  {
    ShorthandsExactly(text);
    var words := Split(text, ' ');
    var dow := Weekdays(words[0]);
    var rest := if dow.Some? then words[1..] else words;
    var (date, time) := DateAndTime(rest).value;
    DateIsWord(date, if dow.Some? then dow.value else "*");
    TimeIsWord(time);
  }
}
