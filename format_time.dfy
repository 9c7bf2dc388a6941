/**
 * The client's relative-time label for a timestamp: blank for a missing or
 * unparsable timestamp, then "Just now", minutes, hours and days, and a
 * calendar date from one week on.
 */
module FormatTime {
  import opened Common
  import opened ClientData

  const MinuteMs: int := 60000
  const HourMs: int := 3600000
  const DayMs: int := 86400000
  const WeekMs: int := 604800000

  /** The bucket chosen; `Dated` stands for the locale-formatted date. */
  datatype Label = Blank | JustNow | MinutesAgo(n: int) | HoursAgo(n: int) | DaysAgo(n: int) | Dated(ms: int)

  /** `formatTimestamp`, up to the locale-date branch. Elapsed time below one
      minute, including a timestamp in the future, is "Just now"; each later
      bucket counts whole units with `Math.floor`. */
  function FormatTimestamp(ts: Stamp, now: int): (r: Label)
    ensures (ts.Falsy? || ts.Unparsable?) <==> r.Blank?
    ensures ts.At? ==> (r.JustNow? <==> now - ts.ms < MinuteMs)
    ensures r.MinutesAgo? ==> 1 <= r.n <= 59 && r.n * MinuteMs <= now - ts.ms < (r.n + 1) * MinuteMs
    ensures r.HoursAgo? ==> 1 <= r.n <= 23 && r.n * HourMs <= now - ts.ms < (r.n + 1) * HourMs
    ensures r.DaysAgo? ==> 1 <= r.n <= 6 && r.n * DayMs <= now - ts.ms < (r.n + 1) * DayMs
    ensures ts.At? ==> (r.Dated? <==> now - ts.ms >= WeekMs)
  {
    match ts
    case Falsy => Blank
    case Unparsable => Blank
    case At(t) =>
      var diff := now - t;
      if diff < MinuteMs then JustNow
      else if diff < HourMs then MinutesAgo(diff / MinuteMs)
      else if diff < DayMs then HoursAgo(diff / HourMs)
      else if diff < WeekMs then DaysAgo(diff / DayMs)
      else Dated(t)
  }

  /** The text shown for a relative bucket. */
  function LabelText(l: Label): (s: string)
    requires !l.Dated?
    requires l.MinutesAgo? || l.HoursAgo? || l.DaysAgo? ==> l.n >= 0
    ensures s == "" <==> l.Blank?
  {
    match l
    case Blank => ""
    case JustNow => "Just now"
    case MinutesAgo(n) => NatToString(n) + " minutes ago"
    case HoursAgo(n) => NatToString(n) + " hours ago"
    case DaysAgo(n) => NatToString(n) + " days ago"
  }

  /** A label that can be shown. */
  predicate Showable(l: Label) {
    !l.Dated? && (l.MinutesAgo? || l.HoursAgo? || l.DaysAgo? ==> l.n >= 0)
  }

  /** Different relative buckets are shown as different texts: the text
      determines the bucket and its count. */
  lemma {:induction false} LabelTextInjective(a: Label, b: Label)
    requires Showable(a) && Showable(b)
    requires LabelText(a) == LabelText(b)
    ensures a == b
  {
    match a
    case Blank =>
    case JustNow =>
    case MinutesAgo(n) =>
      assert LabelText(a)[0] == NatToString(n)[0];
      if b.MinutesAgo? || b.HoursAgo? || b.DaysAgo? {
        DigitPrefixSplit(NatToString(n), " minutes ago", NatToString(b.n), LabelText(b)[|NatToString(b.n)|..]);
        NatToStringInjective(n, b.n);
      }
    case HoursAgo(n) =>
      assert LabelText(a)[0] == NatToString(n)[0];
      if b.MinutesAgo? || b.HoursAgo? || b.DaysAgo? {
        DigitPrefixSplit(NatToString(n), " hours ago", NatToString(b.n), LabelText(b)[|NatToString(b.n)|..]);
        NatToStringInjective(n, b.n);
      }
    case DaysAgo(n) =>
      assert LabelText(a)[0] == NatToString(n)[0];
      if b.MinutesAgo? || b.HoursAgo? || b.DaysAgo? {
        DigitPrefixSplit(NatToString(n), " days ago", NatToString(b.n), LabelText(b)[|NatToString(b.n)|..]);
        NatToStringInjective(n, b.n);
      }
  }

  /** A run of digits followed by a text that does not start with a digit
      splits in one way only. */
  lemma {:induction false} DigitPrefixSplit(d1: string, x: string, d2: string, y: string)
    requires IsDigits(d1) && IsDigits(d2)
    requires x != [] && !IsDigit(x[0]) && y != [] && !IsDigit(y[0])
    requires d1 + x == d2 + y
    ensures d1 == d2 && x == y
  {
    assert d1 == (d1 + x)[..|d1|];
    assert d2 == (d2 + y)[..|d2|];
    assert x == (d1 + x)[|d1|..];
    assert y == (d2 + y)[|d2|..];
  }

  function Coarseness(l: Label): nat {
    match l
    case Blank => 0
    case JustNow => 1
    case MinutesAgo(_) => 2
    case HoursAgo(_) => 3
    case DaysAgo(_) => 4
    case Dated(_) => 5
  }

  /** An older timestamp never gets a finer bucket than a newer one, and
      within a bucket its count is never smaller. */
  lemma {:induction false} OlderIsNeverFiner(older: int, newer: int, now: int)
    requires older <= newer
    ensures Coarseness(FormatTimestamp(At(older), now)) >= Coarseness(FormatTimestamp(At(newer), now))
    ensures var a, b := FormatTimestamp(At(older), now), FormatTimestamp(At(newer), now);
      (a.MinutesAgo? || a.HoursAgo? || a.DaysAgo?) && Coarseness(a) == Coarseness(b) ==> a.n >= b.n
  {
    var a, b := FormatTimestamp(At(older), now), FormatTimestamp(At(newer), now);
    assert now - older >= now - newer;
  }
}
