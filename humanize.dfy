/** `humanize_atime`: the age of a last-access time as "N units ago". */
module Humanize {
  import opened Wrappers
  import opened PyStr

  datatype Unit = Years | Months | Days | Hours | Minutes

  /** Seconds in one unit, a month being 30 days and a year 365. */
  function UnitSeconds(u: Unit): nat {
    match u
    case Years => 365 * 24 * 3600
    case Months => 30 * 24 * 3600
    case Days => 24 * 3600
    case Hours => 3600
    case Minutes => 60
  }

  function UnitName(u: Unit): string {
    match u
    case Years => "years"
    case Months => "months"
    case Days => "days"
    case Hours => "hours"
    case Minutes => "minutes"
  }

  datatype Age = Age(count: int, unit: Unit)

  /** Floor division by 60, 60, 24, and then 30 or 365, is floor division by the product. */
  lemma NestedDivisions(delta: int)
    ensures delta / 60 / 60 == delta / 3600
    ensures delta / 3600 / 24 == delta / 86400
    ensures delta / 86400 / 30 == delta / 2592000
    ensures delta / 86400 / 365 == delta / 31536000
  {
  }

  /**
   * The bucket `humanize_atime` reports for `delta = now - atime`: the first
   * unit, largest first, that divides into `delta` at least once, with the
   * floored count; ages under an hour, and times in the future, come out in
   * minutes.
   */
  function AgeOf(atime: int, now: int): (a: Age)
    ensures a.unit == Years <==> now - atime >= UnitSeconds(Years)
    ensures a.unit == Months <==> UnitSeconds(Months) <= now - atime < UnitSeconds(Years)
    ensures a.unit == Days <==> UnitSeconds(Days) <= now - atime < UnitSeconds(Months)
    ensures a.unit == Hours <==> UnitSeconds(Hours) <= now - atime < UnitSeconds(Days)
    ensures a.unit == Minutes <==> now - atime < UnitSeconds(Hours)
    ensures a.count == (now - atime) / UnitSeconds(a.unit)
    ensures a.unit != Minutes ==> a.count >= 1
  {
    var delta := now - atime;
    var minutes := delta / 60;
    var hours := minutes / 60;
    var days := hours / 24;
    var months := days / 30;
    var years := days / 365;
    NestedDivisions(delta);
    if years > 0 then Age(years, Years)
    else if months > 0 then Age(months, Months)
    else if days > 0 then Age(days, Days)
    else if hours > 0 then Age(hours, Hours)
    else Age(minutes, Minutes)
  }

  /** `humanize_atime(atime)`, the clock reading `int(time())` passed in as `now`. */
  function HumanizeATime(atime: int, now: int): string {
    var a := AgeOf(atime, now);
    IntToString(a.count) + " " + UnitName(a.unit) + " ago"
  }

  lemma IntToStringNonEmpty(n: int)
    ensures |IntToString(n)| >= 1
  {
  }

  /** Cutting a label "<digits> <unit> ago" after its digits gives back both parts. */
  lemma LabelSplit(digits: string, unit: string)
    ensures var s := digits + " " + unit + " ago";
            s[..|digits|] == digits && s[|digits|..] == " " + unit + " ago"
  {
    var s := digits + " " + unit + " ago";
    assert s == digits + (" " + unit + " ago");
  }

  /** A label "N unit ago" starts with the numeral of N, which `int()` reads back. */
  lemma LabelReadsBack(n: int, unit: string)
    ensures var s := IntToString(n) + " " + unit + " ago";
            var k := |IntToString(n)|;
            0 < k <= |s| && ParseInt(s[..k]) == Some(n) && s[k..] == " " + unit + " ago"
  {
    IntToStringNonEmpty(n);
    IntRoundTrip(n);
    LabelSplit(IntToString(n), unit);
  }

  /** The label starts with the count, which `int()` reads back, followed by the unit. */
  lemma HumanizeReadsBack(atime: int, now: int)
    ensures var s := HumanizeATime(atime, now);
            var a := AgeOf(atime, now);
            exists k :: 0 < k <= |s| && ParseInt(s[..k]) == Some(a.count) && s[k..] == " " + UnitName(a.unit) + " ago"
  {
    var s := HumanizeATime(atime, now);
    var a := AgeOf(atime, now);
    LabelReadsBack(a.count, UnitName(a.unit));
    var k := |IntToString(a.count)|;
    assert 0 < k <= |s| && ParseInt(s[..k]) == Some(a.count) && s[k..] == " " + UnitName(a.unit) + " ago";
  }
}
