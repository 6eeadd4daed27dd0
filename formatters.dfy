/** The app's text formatting: countdown clock, durations and the relative
    day label. Each formatter states the exact text it prints. The three
    numeric formatters are also paired with a reader that recovers, for a
    non-negative argument, the number that was printed; the relative day
    label is characterised by the day it falls on. */
module Formatters {
  import opened Common
  import opened Calendar

  // ---------------------------------------------------------------------
  // Decimal numerals

  predicate IsDigit(c: char) {
    '0' <= c <= '9'
  }

  predicate AllDigits(s: string) {
    forall i :: 0 <= i < |s| ==> IsDigit(s[i])
  }

  function DigitChar(d: int): (c: char)
    requires 0 <= d < 10
    ensures IsDigit(c)
  {
    (48 + d) as char
  }

  function DigitValue(c: char): (d: int)
    requires IsDigit(c)
    ensures 0 <= d < 10
    ensures DigitChar(d) == c
  {
    c as int - 48
  }

  /** A numeral as Swift prints one: digits only, and no leading zero
      unless the number is 0 itself. */
  predicate Canonical(s: string) {
    |s| >= 1 && AllDigits(s) && (|s| > 1 ==> s[0] != '0')
  }

  /** Decimal numeral of a natural number, without leading zeros. */
  function Decimal(n: nat): (s: string)
    ensures Canonical(s)
    ensures n >= 1 ==> s[0] != '0'
    ensures n < 10 <==> |s| == 1
    ensures 10 <= n < 100 <==> |s| == 2
  {
    if n < 10 then [DigitChar(n)] else Decimal(n / 10) + [DigitChar(n % 10)]
  }

  /** Reads a non-empty all-digit string as a number. */
  function ParseDecimal(s: string): Option<nat> {
    if |s| == 0 || !IsDigit(s[|s| - 1]) then None
    else if |s| == 1 then Some(DigitValue(s[0]))
    else match ParseDecimal(s[..|s| - 1])
      case None => None
      case Some(v) => Some(v * 10 + DigitValue(s[|s| - 1]))
  }

  lemma {:induction false} DecimalRoundTrip(n: nat)
    ensures ParseDecimal(Decimal(n)) == Some(n)
  {
    if n >= 10 {
      var s := Decimal(n);
      assert s[..|s| - 1] == Decimal(n / 10);
      DecimalRoundTrip(n / 10);
    }
  }

  /** A numeral is worth at least its leading digit. */
  lemma {:induction false} ParseDecimalLead(s: string)
    requires ParseDecimal(s).Some?
    ensures |s| >= 1 && IsDigit(s[0]) && ParseDecimal(s).value >= DigitValue(s[0])
  {
    if |s| > 1 {
      var p := s[..|s| - 1];
      ParseDecimalLead(p);
      assert p[0] == s[0];
    }
  }

  /** The printed numeral is the only canonical numeral of its value, so a
      text that is canonical and reads back as n is Decimal(n). */
  lemma {:induction false} DecimalUnique(s: string, n: nat)
    requires Canonical(s) && ParseDecimal(s) == Some(n)
    ensures s == Decimal(n)
  {
    if |s| > 1 {
      var p := s[..|s| - 1];
      var m := ParseDecimal(p).value;
      ParseDecimalLead(p);
      assert p[0] == s[0];
      assert m >= 1;
      assert n == m * 10 + DigitValue(s[|s| - 1]);
      assert Canonical(p) by {
        assert forall i :: 0 <= i < |p| ==> p[i] == s[i];
      }
      DecimalUnique(p, m);
      assert n / 10 == m && n % 10 == DigitValue(s[|s| - 1]);
      assert s == p + [s[|s| - 1]];
    }
  }

  /** Swift's "\(i)" and "%d" for an Int: a minus sign, then the digits. */
  function IntString(i: int): (s: string)
    ensures |s| >= 1
    ensures i >= 0 ==> Canonical(s) && ParseDecimal(s) == Some(i)
    ensures i < 0 ==> s[0] == '-' && Canonical(s[1..]) && ParseDecimal(s[1..]) == Some(-i)
  {
    if i < 0 then
      var d := Decimal(-i);
      DecimalRoundTrip(-i);
      assert ("-" + d)[1..] == d;
      "-" + d
    else
      DecimalRoundTrip(i);
      Decimal(i)
  }

  /** Swift's Int division truncates toward zero: the quotient is the
      multiple of b closest to a on the side of zero. */
  function TruncDiv(a: int, b: int): (q: int)
    requires b > 0
    ensures a >= 0 ==> q * b <= a < q * b + b
    ensures a < 0 ==> q * b - b < a <= q * b
  {
    if a >= 0 then a / b else -((-a) / b)
  }

  /** On non-negative dividends truncation agrees with Dafny's division,
      and truncation is symmetric about zero. */
  lemma TruncDivNonNegative(a: int, b: int)
    requires b > 0
    ensures a >= 0 ==> TruncDiv(a, b) == a / b
    ensures TruncDiv(-a, b) == -TruncDiv(a, b)
  {
  }

  function TruncMod(a: int, b: int): (r: int)
    requires b > 0
    ensures a == TruncDiv(a, b) * b + r
    ensures a >= 0 ==> 0 <= r < b
    ensures a < 0 ==> -b < r <= 0
  {
    a - TruncDiv(a, b) * b
  }

  /** "%02d": at least two characters, padded with a leading zero. */
  function TwoDigits(v: int): (s: string)
    ensures 0 <= v < 100 ==> |s| == 2 && AllDigits(s)
  {
    if 0 <= v < 10 then "0" + Decimal(v) else IntString(v)
  }

  lemma {:induction false} TwoDigitsValue(v: int)
    requires 0 <= v < 100
    ensures ParseDecimal(TwoDigits(v)) == Some(v)
  {
  }

  lemma TwoDigitsTens(v: int)
    ensures 0 <= v < 60 ==> |TwoDigits(v)| == 2 && DigitValue(TwoDigits(v)[0]) == v / 10
  {
    if 10 <= v < 60 {
      assert TwoDigits(v) == Decimal(v / 10) + [DigitChar(v % 10)];
    }
  }

  // ---------------------------------------------------------------------
  // formatCountdown

  /** "M:SS" for the menu-bar countdown; minutes are not capped at 59. */
  function FormatCountdown(totalSeconds: int): (r: string)
    ensures totalSeconds >= 0 ==>
      r == Decimal(totalSeconds / 60) + ":" + TwoDigits(totalSeconds % 60)
    ensures totalSeconds >= 0 ==>
      |r| >= 4 && r[|r| - 3] == ':' && IsDigit(r[|r| - 2]) && IsDigit(r[|r| - 1])
      && DigitValue(r[|r| - 2]) < 6
  {
    var minutes := TruncDiv(totalSeconds, 60);
    var seconds := TruncMod(totalSeconds, 60);
    TruncDivNonNegative(totalSeconds, 60);
    TwoDigitsTens(seconds);
    IntString(minutes) + ":" + TwoDigits(seconds)
  }

  /** Reads "M:SS" back as a number of seconds; the seconds field must be
      exactly two digits below 60. */
  function ParseCountdown(s: string): Option<int> {
    if |s| < 4 || s[|s| - 3] != ':' then None
    else match (ParseDecimal(s[..|s| - 3]), ParseDecimal(s[|s| - 2..]))
      case (Some(m), Some(sec)) => if sec < 60 then Some(m * 60 + sec) else None
      case _ => None
  }

  /** Reading "<ms>:<ss>" back, given what the two fields read as. */
  lemma CountdownFields(ms: string, ss: string, m: nat, sec: nat)
    requires |ms| >= 1 && ParseDecimal(ms) == Some(m)
    requires |ss| == 2 && ParseDecimal(ss) == Some(sec) && sec < 60
    ensures ParseCountdown(ms + ":" + ss) == Some(m * 60 + sec)
  {
    var r := ms + ":" + ss;
    assert r[..|r| - 3] == ms;
    assert r[|r| - 2..] == ss;
  }

  lemma {:induction false} CountdownRoundTrip(n: int)
    requires n >= 0
    ensures ParseCountdown(FormatCountdown(n)) == Some(n)
  {
    var m, sec := n / 60, n % 60;
    assert FormatCountdown(n) == Decimal(m) + ":" + TwoDigits(sec);
    DecimalRoundTrip(m);
    TwoDigitsValue(sec);
    CountdownFields(Decimal(m), TwoDigits(sec), m, sec);
  }

  lemma CountdownExamples()
    ensures FormatCountdown(5) == "0:05"
    ensures FormatCountdown(3661) == "61:01"
  {
  }

  // ---------------------------------------------------------------------
  // formatDuration and formatLongDuration

  /** Reads "<n><suffix>" back as n. */
  function ParseWithSuffix(s: string, suffix: string): Option<nat> {
    if |s| >= |suffix| && s[|s| - |suffix|..] == suffix then ParseDecimal(s[..|s| - |suffix|])
    else None
  }

  lemma {:induction false} WithSuffixRoundTrip(n: nat, suffix: string)
    ensures ParseWithSuffix(Decimal(n) + suffix, suffix) == Some(n)
  {
    var s := Decimal(n) + suffix;
    assert s[|s| - |suffix|..] == suffix;
    assert s[..|s| - |suffix|] == Decimal(n);
    DecimalRoundTrip(n);
  }

  lemma IntSuffixRoundTrip(i: int, suffix: string)
    ensures i >= 0 ==> ParseWithSuffix(IntString(i) + suffix, suffix) == Some(i)
  {
  }

  /** "<s> sec" below one minute, otherwise whole minutes "<m> min". */
  function FormatDuration(seconds: int): (r: string)
    ensures 0 <= seconds < 60 ==> r == Decimal(seconds) + " sec"
    ensures seconds >= 60 ==> r == Decimal(seconds / 60) + " min"
    ensures -60 < seconds < 0 ==> r == "-" + Decimal(-seconds) + " sec"
    ensures seconds <= -60 ==> r == "-" + Decimal(-seconds / 60) + " min"
    ensures 0 <= seconds < 60 ==> ParseWithSuffix(r, " sec") == Some(seconds)
    ensures seconds >= 60 ==> ParseWithSuffix(r, " min") == Some(seconds / 60)
  {
    var minutes := TruncDiv(seconds, 60);
    TruncDivNonNegative(seconds, 60);
    TruncDivNonNegative(-seconds, 60);
    if minutes == 0 then
      IntSuffixRoundTrip(seconds, " sec");
      IntString(seconds) + " sec"
    else
      IntSuffixRoundTrip(minutes, " min");
      IntString(minutes) + " min"
  }

  lemma DurationExamples()
    ensures FormatDuration(0) == "0 sec"
    ensures FormatDuration(45) == "45 sec"
    ensures FormatDuration(60) == "1 min"
    ensures FormatDuration(1500) == "25 min"
  {
  }

  /** First index of c in s. */
  function IndexOf(s: string, c: char): (r: Option<nat>)
    ensures r.Some? ==> r.value < |s| && s[r.value] == c
                        && forall j :: 0 <= j < r.value ==> s[j] != c
    ensures r.None? ==> forall j :: 0 <= j < |s| ==> s[j] != c
  {
    if |s| == 0 then None
    else if s[0] == c then Some(0)
    else match IndexOf(s[1..], c)
      case None => None
      case Some(i) => Some(i + 1)
  }

  /** Reads the output of formatLongDuration back as a number of whole
      minutes: "<m> min" (m < 60), "<h>h" (h >= 1) or "<h>h <m>m"
      (h >= 1, 1 <= m < 60). */
  function ParseLongDuration(s: string): Option<nat> {
    match ParseWithSuffix(s, " min")
    case Some(m) => if m < 60 then Some(m) else None
    case None =>
      match ParseWithSuffix(s, "h")
      case Some(h) => if h >= 1 then Some(h * 60) else None
      case None =>
        if |s| == 0 || s[|s| - 1] != 'm' then None
        else match IndexOf(s, 'h')
          case None => None
          case Some(i) =>
            if i + 2 > |s| - 1 || s[i + 1] != ' ' then None
            else match (ParseDecimal(s[..i]), ParseDecimal(s[i + 2..|s| - 1]))
              case (Some(h), Some(m)) =>
                if h >= 1 && 1 <= m < 60 then Some(h * 60 + m) else None
              case _ => None
  }

  /** "<m> min" under an hour, "<h>h" on whole hours, else "<h>h <m>m". */
  function FormatLongDuration(seconds: int): (r: string)
    ensures 0 <= seconds && seconds / 60 < 60 ==> r == Decimal(seconds / 60) + " min"
    ensures seconds / 60 >= 60 && (seconds / 60) % 60 == 0 ==> r == Decimal(seconds / 3600) + "h"
    ensures seconds / 60 >= 60 && (seconds / 60) % 60 != 0 ==>
              r == Decimal(seconds / 3600) + "h " + Decimal((seconds / 60) % 60) + "m"
    ensures -60 < seconds < 0 ==> r == "0 min"
    ensures seconds <= -60 ==> r == "-" + Decimal(-seconds / 60) + " min"
  {
    var totalMinutes := TruncDiv(seconds, 60);
    TruncDivNonNegative(seconds, 60);
    TruncDivNonNegative(-seconds, 60);
    if totalMinutes < 60 then IntString(totalMinutes) + " min"
    else
      var hours := totalMinutes / 60;
      var mins := totalMinutes % 60;
      if mins == 0 then IntString(hours) + "h"
      else IntString(hours) + "h " + IntString(mins) + "m"
  }

  lemma {:induction false} WholeHoursRoundTrip(h: nat)
    requires h >= 1
    ensures ParseLongDuration(Decimal(h) + "h") == Some(h * 60)
  {
    var r := Decimal(h) + "h";
    assert ParseWithSuffix(r, " min") == None by {
      if |r| >= 4 { assert r[|r| - 4..][3] == 'h'; }
    }
    WithSuffixRoundTrip(h, "h");
  }

  /** The first 'h' after a run of digits is the one right after them. */
  lemma IndexOfAfterDigits(ds: string, rest: string)
    requires AllDigits(ds)
    ensures IndexOf(ds + "h" + rest, 'h') == Some(|ds|)
  {
    var r := ds + "h" + rest;
    assert r[|ds|] == 'h';
    forall j | 0 <= j < |ds| ensures r[j] != 'h' {
      assert r[j] == ds[j];
    }
  }

  /** A text ending in 'm' has neither the " min" nor the "h" suffix. */
  lemma EndsInM(r: string)
    requires |r| >= 1 && r[|r| - 1] == 'm'
    ensures ParseWithSuffix(r, " min") == None && ParseWithSuffix(r, "h") == None
  {
  }

  /** The "<h>h <m>m" branch of the reader, given its fields. */
  lemma HoursMinutesBranch(r: string, i: nat, h: nat, m: nat)
    requires |r| >= 1 && r[|r| - 1] == 'm'
    requires IndexOf(r, 'h') == Some(i) && i + 2 <= |r| - 1 && r[i + 1] == ' '
    requires ParseDecimal(r[..i]) == Some(h) && ParseDecimal(r[i + 2..|r| - 1]) == Some(m)
    requires h >= 1 && 1 <= m < 60
    ensures ParseLongDuration(r) == Some(h * 60 + m)
  {
    EndsInM(r);
    assert !(|r| == 0 || r[|r| - 1] != 'm');
    assert (ParseDecimal(r[..i]), ParseDecimal(r[i + 2..|r| - 1])) == (Some(h), Some(m));
  }

  /** Reading "<hs>h <ms>m" back, given what the two fields read as. */
  lemma HoursMinutesFields(hs: string, ms: string, h: nat, m: nat)
    requires |hs| >= 1 && AllDigits(hs) && ParseDecimal(hs) == Some(h) && h >= 1
    requires |ms| >= 1 && ParseDecimal(ms) == Some(m) && 1 <= m < 60
    ensures ParseLongDuration(hs + "h " + ms + "m") == Some(h * 60 + m)
  {
    var r := hs + "h " + ms + "m";
    var tail := " " + ms + "m";
    assert r == hs + "h" + tail;
    IndexOfAfterDigits(hs, tail);
    assert |r| == |hs| + |ms| + 3;
    assert r[|r| - 1] == 'm' && r[|hs| + 1] == ' ';
    assert r[..|hs|] == hs;
    assert r[|hs| + 2..|r| - 1] == ms;
    HoursMinutesBranch(r, |hs|, h, m);
  }

  lemma {:induction false} HoursMinutesRoundTrip(h: nat, m: nat)
    requires h >= 1 && 1 <= m < 60
    ensures ParseLongDuration(Decimal(h) + "h " + Decimal(m) + "m") == Some(h * 60 + m)
  {
    DecimalRoundTrip(h);
    DecimalRoundTrip(m);
    HoursMinutesFields(Decimal(h), Decimal(m), h, m);
  }

  /** The long form names exactly the whole minutes it was given. */
  lemma {:induction false} LongDurationRoundTrip(seconds: int)
    requires seconds >= 0
    ensures ParseLongDuration(FormatLongDuration(seconds)) == Some(seconds / 60)
  {
    var tm := seconds / 60;
    if tm < 60 {
      assert FormatLongDuration(seconds) == Decimal(tm) + " min";
      WithSuffixRoundTrip(tm, " min");
    } else {
      var h, m := tm / 60, tm % 60;
      assert tm == h * 60 + m;
      if m == 0 {
        assert FormatLongDuration(seconds) == Decimal(h) + "h";
        WholeHoursRoundTrip(h);
      } else {
        assert FormatLongDuration(seconds) == Decimal(h) + "h " + Decimal(m) + "m";
        HoursMinutesRoundTrip(h, m);
      }
    }
  }

  lemma LongDurationExamples()
    ensures FormatLongDuration(1500) == "25 min"
    ensures FormatLongDuration(7200) == "2h"
    ensures FormatLongDuration(9000) == "2h 30m"
  {
  }

  // ---------------------------------------------------------------------
  // formatRelativeDay

  /** "Today", "Yesterday", or the medium date text produced by the
      platform's date formatter (a parameter here). The label depends only
      on where `date` falls relative to midnight at the start of `now`'s day. */
  function FormatRelativeDay(date: int, now: int, mediumDate: int -> string): (r: string)
    ensures StartOfDay(now) <= date < StartOfDay(now) + SecondsPerDay ==> r == "Today"
    ensures StartOfDay(now) - SecondsPerDay <= date < StartOfDay(now) ==> r == "Yesterday"
    ensures date < StartOfDay(now) - SecondsPerDay || StartOfDay(now) + SecondsPerDay <= date ==>
              r == mediumDate(date)
  {
    if IsDateInToday(date, now) then "Today"
    else if IsDateInYesterday(date, now) then "Yesterday"
    else mediumDate(date)
  }
}
