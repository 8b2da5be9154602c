/** `systemd_to_cron`: from a systemd calendar specification to a crontab line. */
module Dcron {
  import opened Common
  import opened Text
  import opened Decimal
  import opened CronFields
  import opened Ordering

  // --- The function ---

  /** `day_of_week_dict[name.lower()]` */
  function DayOfWeek(name: string): (r: Option<nat>)
    ensures r.Some? ==> r.value < 7
  {
    var n := Lower(name);
    if n == "sunday" || n == "sun" then Some(0)
    else if n == "monday" || n == "mon" then Some(1)
    else if n == "tuesday" || n == "tue" then Some(2)
    else if n == "wednesday" || n == "wed" then Some(3)
    else if n == "thursday" || n == "thu" then Some(4)
    else if n == "friday" || n == "fri" then Some(5)
    else if n == "saturday" || n == "sat" then Some(6)
    else None
  }

  function Symbolic(spec: string): Option<string> {
    if spec == "minutely" then Some("* * * * *")
    else if spec == "hourly" then Some("0 * * * *")
    else if spec == "daily" then Some("0 0 * * *")
    else if spec == "weekly" then Some("0 0 * * 0")
    else if spec == "monthly" then Some("0 0 1 * *")
    else if spec == "yearly" then Some("0 0 1 1 *")
    else None
  }

  /** One weekday or a range of them, by number; None is a KeyError. */
  function WeekdayItem(x: string): Option<string> {
    var pieces := SplitOnce(x, '-');
    var first := DayOfWeek(pieces[0]);
    if first.None? then None
    else if |pieces| == 1 then Some(Digits(first.value))
    else
      var last := DayOfWeek(pieces[1]);
      if last.None? then None else Some(Digits(first.value) + "-" + Digits(last.value))
  }

  /** The comprehension over `spec[0].split(',')`, which skips empty items. */
  function WeekdayItems(items: seq<string>): Option<seq<string>> {
    if items == [] then Some([])
    else match WeekdayItems(items[..|items| - 1])
      case None => None
      case Some(before) =>
        var x := items[|items| - 1];
        if x == "" then Some(before)
        else match WeekdayItem(x)
          case None => None
          case Some(text) => Some(before + [text])
  }

  function Weekdays(text: string): Option<string> {
    match WeekdayItems(Split(text, ','))
    case None => None
    case Some(items) => Some(Join(Sorted(items), ","))
  }

  /** Which of the remaining words are the date and the time. */
  function DateAndTime(words: seq<string>): Option<(string, string)> {
    if |words| == 0 then Some(("*-*", "0:0"))
    else if |words| == 1 then Some(if ':' in words[0] then ("*-*", words[0]) else (words[0], "0:0"))
    else if |words| == 2 then Some((words[0], words[1]))
    else None
  }

  /** Month and day of month, when the year is any year and no day of month is given together
      with weekdays. */
  function MonthAndDay(date: string, dow: string): Option<(string, string)> {
    var pieces := Split(date, '-');
    if |pieces| > 2 && pieces[0] != "*" then None
    else
      var rest := if |pieces| > 2 then pieces[1..] else pieces;
      if |rest| != 2 || (dow != "*" && rest[1] != "*") then None else Some((rest[0], rest[1]))
  }

  /** Hour and minute, when the seconds, if given, are zero. */
  function HourAndMinute(time: string): Option<(string, string)> {
    var pieces := Split(time, ':');
    if |pieces| > 2 && ParseInt(pieces[|pieces| - 1]) != Some(0) then None
    else
      var rest := if |pieces| > 2 then pieces[..|pieces| - 1] else pieces;
      if |rest| != 2 then None else Some((rest[0], rest[1]))
  }

  function CronLine(date: string, time: string, dow: string): Option<string> {
    match (MonthAndDay(date, dow), HourAndMinute(time))
    case (Some((month, day)), Some((hour, minute))) =>
      (match (Convert(minute, 0, 60), Convert(hour, 0, 24), Convert(day, 1, 31), Convert(month, 1, 12))
       case (Some(m), Some(h), Some(d), Some(mo)) => Some(Join([m, h, d, mo, dow], " "))
       case _ => None)
    case _ => None
  }

  function Translate(spec: string): Option<string> {
    if Symbolic(spec).Some? then Symbolic(spec)
    else if Strip(spec) == "" then None
    else
      var words := Split(spec, ' ');
      var dow := Weekdays(words[0]);
      match DateAndTime(if dow.Some? then words[1..] else words)
      case None => None
      case Some((date, time)) => CronLine(date, time, if dow.Some? then dow.value else "*")
  }

  /** The statements from the date and the time on. */
  method TranslateFields(date: string, time: string, dow: string) returns (r: Option<string>)
    ensures r == CronLine(date, time, dow)
  {
    var monthDay, hourMinute := MonthAndDay(date, dow), HourAndMinute(time);
    if monthDay.None? || hourMinute.None? {
      return None;
    }
    var (month, day) := monthDay.value;
    var (hour, minute) := hourMinute.value;
    var m := ConvertField(minute, 0, 60);
    var h := ConvertField(hour, 0, 24);
    var d := ConvertField(day, 1, 31);
    var mo := ConvertField(month, 1, 12);
    if m.None? || h.None? || d.None? || mo.None? {
      return None;
    }
    r := Some(Join([m.value, h.value, d.value, mo.value, dow], " "));
  }

  /** `systemd_to_cron`, with every exception as None. */
  method SystemdToCron(spec: string) returns (r: Option<string>)
    ensures r == Translate(spec)
  {
    r := Symbolic(spec);
    if r.Some? {
      return;
    }
    if Strip(spec) == "" {
      return None;
    }
    var words := Split(spec, ' ');
    var weekdays := Weekdays(words[0]);
    var dow := "*";
    if weekdays.Some? {
      dow := weekdays.value;
      words := words[1..];
    }
    var date, time := "*-*", "0:0";
    if |words| > 2 {
      return None;
    } else if |words| == 2 {
      date, time := words[0], words[1];
    } else if |words| == 1 {
      if ':' in words[0] {
        time := words[0];
      } else {
        date := words[0];
      }
    }
    r := TranslateFields(date, time, dow);
  }
}
