/**
  A calendar reading of the clock, as `Date`'s field getters return it. Which
  time zone the fields are in (local time or UTC) is up to the caller.
 */
module JsDate {
  import JsText

  /** `getFullYear()`, `getMonth()` (0-based), `getDate()`, `getHours()`, `getMinutes()`, `getSeconds()`. */
  datatype DateTime = DateTime(year: nat, month0: nat, day: nat, hours: nat, minutes: nat, seconds: nat)

  /** Field ranges a real date has (days are not checked against the month's length). */
  predicate Valid(t: DateTime) {
    t.month0 < 12 && 1 <= t.day <= 31 && t.hours < 24 && t.minutes < 60 && t.seconds < 60
  }

  /** A year written with exactly four digits. */
  predicate FourDigitYear(t: DateTime) {
    1000 <= t.year <= 9999
  }

  /** `YYYYMMDD`: the year, then the 1-based month and the day padded to two digits. */
  function DatePart(t: DateTime): string {
    JsText.NatToString(t.year) + JsText.Pad2(t.month0 + 1) + JsText.Pad2(t.day)
  }

  /** Three digit fields laid side by side, the last two of width two, are read back one by one. */
  lemma ThreeFields(a: string, b: string, c: string)
    requires |b| == 2 && |c| == 2
    requires JsText.AllDigits(a) && JsText.AllDigits(b) && JsText.AllDigits(c)
    ensures var s := a + b + c;
      && |s| == |a| + 4 && JsText.AllDigits(s)
      && s[..|a|] == a && s[|a|..|a| + 2] == b && s[|a| + 2..|a| + 4] == c
  {
    var s := a + b + c;
    forall k | 0 <= k < |s| ensures JsText.IsDigit(s[k]) {
      if k < |a| { assert s[k] == a[k]; }
      else if k < |a| + 2 { assert s[k] == b[k - |a|]; }
      else { assert s[k] == c[k - |a| - 2]; }
    }
  }

  lemma DatePartFields(t: DateTime)
    requires Valid(t) && FourDigitYear(t)
    ensures var d := DatePart(t);
      && |d| == 8 && JsText.AllDigits(d)
      && JsText.ParseDigits(d[..4]) == t.year
      && JsText.ParseDigits(d[4..6]) == t.month0 + 1
      && JsText.ParseDigits(d[6..8]) == t.day
  {
    var y, m, dd := JsText.NatToString(t.year), JsText.Pad2(t.month0 + 1), JsText.Pad2(t.day);
    JsText.NatToStringFourDigits(t.year);
    JsText.ParseNatToString(t.year);
    JsText.Pad2Parse(t.month0 + 1);
    JsText.Pad2Parse(t.day);
    ThreeFields(y, m, dd);
  }
}
