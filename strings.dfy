/** Decimal text: how the board prints numbers, reads date keys back, and renders
    durations (`formatTime`). */
module Strings {
  import opened Wrappers

  predicate IsDigit(c: char) { '0' <= c <= '9' }

  predicate AllDigits(s: string) { forall i :: 0 <= i < |s| ==> IsDigit(s[i]) }

  function DigitChar(d: nat): (c: char)
    requires d < 10
    ensures IsDigit(c) && DigitValue(c) == d
  {
    (('0' as int) + d) as char
  }

  function DigitValue(c: char): (d: nat)
    requires IsDigit(c)
    ensures d < 10
  {
    (c as int) - ('0' as int)
  }

  /** The decimal digits of `n`, most significant first, without leading zeros:
      what a JavaScript template literal prints for a non-negative integer. */
  function NatToString(n: nat): (s: string)
    ensures |s| >= 1 && AllDigits(s)
    ensures (s[0] == '0') == (n == 0)
    decreases n
  {
    if n < 10 then [DigitChar(n)] else NatToString(n / 10) + [DigitChar(n % 10)]
  }

  /** The number a string of decimal digits denotes. */
  function ParseNat(s: string): nat
    requires AllDigits(s)
  {
    if s == [] then 0 else 10 * ParseNat(s[..|s| - 1]) + DigitValue(s[|s| - 1])
  }

  /** Printing a number and reading it back gives the number. */
  lemma {:induction false} ParseNatToString(n: nat)
    ensures ParseNat(NatToString(n)) == n
    decreases n
  {
    if n >= 10 {
      var s := NatToString(n);
      assert s[..|s| - 1] == NatToString(n / 10);
      ParseNatToString(n / 10);
    }
  }

  /** Distinct numbers print differently. */
  lemma NatToStringInjective(a: nat, b: nat)
    ensures NatToString(a) == NatToString(b) ==> a == b
  {
    ParseNatToString(a);
    ParseNatToString(b);
  }

  /** `${i}` for an integer `i`. */
  function IntToString(i: int): string {
    if i < 0 then "-" + NatToString(-i) else NatToString(i)
  }

  /** JavaScript's `a % b` for a positive divisor: the remainder truncates toward
      zero, so it takes the sign of `a` (Dafny's `%` never goes negative). */
  function JsRemainder(a: int, b: int): (r: int)
    requires b > 0
    ensures a >= 0 ==> r == a % b
    ensures a >= 0 ==> 0 <= r < b
    ensures a < 0 ==> -b < r <= 0
    ensures (a - r) % b == 0
  {
    if a >= 0 then
      var q, m := a / b, a % b;
      assert a - m == b * q;
      MultipleHasNoRemainder(b, q);
      m
    else
      var q, m := (-a) / b, (-a) % b;
      assert a + m == b * -q;
      MultipleHasNoRemainder(b, -q);
      -m
  }

  /** A multiple of `b` leaves no remainder. */
  lemma MultipleHasNoRemainder(b: int, k: int)
    requires b > 0
    ensures (b * k) % b == 0
  {
    var x := b * k;
    var d := k - x / b;
    assert x == b * (x / b) + x % b;
    assert x % b == b * d;
    if d != 0 {
      assert false;
    }
  }

  /** `formatTime(seconds)`: whole hours and the minutes left over, the hours part
      only when there is at least a whole hour. */
  function FormatTime(seconds: int): string {
    var hours := seconds / 3600;
    var minutes := JsRemainder(seconds, 3600) / 60;
    if hours > 0 then HoursLabel(IntToString(hours), IntToString(minutes))
    else IntToString(minutes) + "m"
  }

  function HoursLabel(h: string, m: string): string { h + "h " + m + "m" }

  /** The first index of `c` in `s`, if any. */
  function IndexOf(s: string, c: char): (r: Option<nat>)
    ensures r.Some? ==> r.value < |s| && s[r.value] == c && c !in s[..r.value]
    ensures r.None? ==> c !in s
  {
    if s == [] then None
    else if s[0] == c then Some(0)
    else match IndexOf(s[1..], c)
      case None => None
      case Some(k) => assert s[..k + 1] == [s[0]] + s[1..][..k]; Some(k + 1)
  }

  /** Decimal text as a template literal prints it: digits only, at least one,
      and no leading zero unless the number is 0. */
  predicate Canonical(s: string) {
    AllDigits(s) && |s| >= 1 && (|s| == 1 || s[0] != '0')
  }

  lemma NatToStringCanonical(n: nat)
    ensures Canonical(NatToString(n))
  {
    if n == 0 {
      assert NatToString(n) == [DigitChar(0)];
    }
  }

  /** The number a text shows when it is written the way numbers are printed. */
  function ReadNumber(s: string): Option<nat> {
    if Canonical(s) then Some(ParseNat(s)) else None
  }

  /** How many whole minutes a duration label shows: `"<h>h <m>m"` with the
      minutes below 60, or `"<m>m"`, both numbers printed without leading zeros;
      any other text is not such a label. */
  function MinutesShown(shown: string): Option<nat> {
    if |shown| < 2 || shown[|shown| - 1] != 'm' then None
    else
      var body := shown[..|shown| - 1];
      match IndexOf(body, 'h')
      case None => ReadNumber(body)
      case Some(i) =>
        if i + 2 <= |body| && body[i + 1] == ' ' then HoursAndMinutes(body[..i], body[i + 2..])
        else None
  }

  /** The minutes an hours text and a minutes text (below 60) show together. */
  function HoursAndMinutes(h: string, m: string): Option<nat> {
    match (ReadNumber(h), ReadNumber(m))
    case (Some(hours), Some(minutes)) => if minutes < 60 then Some(60 * hours + minutes) else None
    case _ => None
  }

  /** A label with an hours part and one without. */
  lemma MinutesShownExamples()
    ensures MinutesShown("1h 5m") == Some(65)
    ensures MinutesShown("125m") == Some(125)
  {
    assert "1h 5m"[..4] == "1h 5" && "1h 5"[..1] == "1" && "1h 5"[3..] == "5";
    assert IndexOf("1h 5", 'h') == Some(1);
    assert ParseNat("1") == 1 && ParseNat("5") == 5;
    assert "125m"[..3] == "125" && "125"[..2] == "12" && "12"[..1] == "1";
    assert IndexOf("125", 'h') == None;
    assert ParseNat("12") == 12 && ParseNat("125") == 125;
  }

  /** Texts `formatTime` never prints are no labels: 60 minutes or more after the
      hours, and a minutes part with a leading zero. */
  lemma MinutesShownRejects()
    ensures MinutesShown("1h 65m") == None
    ensures MinutesShown("1h 05m") == None
  {
    assert "1h 65m"[..5] == "1h 65" && "1h 65"[..1] == "1" && "1h 65"[3..] == "65";
    assert IndexOf("1h 65", 'h') == Some(1);
    assert "65"[..1] == "6" && ParseNat("65") == 65;
    assert "1h 05m"[..5] == "1h 05" && "1h 05"[3..] == "05";
    assert IndexOf("1h 05", 'h') == Some(1);
    assert !Canonical("05");
  }

  lemma DigitsHaveNoLetter(s: string, c: char)
    requires AllDigits(s) && !IsDigit(c)
    ensures c !in s
  {
  }

  lemma WholeMinutes(seconds: nat)
    ensures seconds / 60 == 60 * (seconds / 3600) + (seconds % 3600) / 60
  {
    var hours, rest := seconds / 3600, seconds % 3600;
    var minutes, secs := rest / 60, rest % 60;
    assert seconds == 3600 * hours + rest;
    assert rest == 60 * minutes + secs;
    assert seconds == 60 * (60 * hours + minutes) + secs;
  }

  lemma {:induction false} IndexOfFirst(a: string, c: char, b: string)
    requires c !in a
    ensures IndexOf(a + [c] + b, c) == Some(|a|)
    decreases |a|
  {
    if a != [] {
      assert (a + [c] + b)[1..] == a[1..] + [c] + b;
      IndexOfFirst(a[1..], c, b);
    }
  }

  /** Reading back a label with an hours part. */
  lemma ReadHoursLabel(h: string, m: string)
    requires Canonical(h) && Canonical(m) && ParseNat(m) < 60
    ensures MinutesShown(HoursLabel(h, m)) == Some(60 * ParseNat(h) + ParseNat(m))
  {
    var body := h + ['h'] + ([' '] + m);
    HoursLabelParts(h, m);
    HoursLabelBody(h, m);
    ReadBody(body, |h|);
    assert HoursAndMinutes(h, m) == Some(60 * ParseNat(h) + ParseNat(m));
  }

  lemma HoursLabelParts(h: string, m: string)
    ensures var body := h + ['h'] + ([' '] + m);
      HoursLabel(h, m) == body + "m" && body[..|h|] == h && body[|h| + 2..] == m
  {
    var body := h + ['h'] + ([' '] + m);
    assert body[..|h|] == h;
    assert body[|h| + 2..] == m;
  }

  /** Where the hours label's body has its `h` and its space. */
  lemma HoursLabelBody(h: string, m: string)
    requires AllDigits(h)
    ensures var body := h + ['h'] + ([' '] + m);
      IndexOf(body, 'h') == Some(|h|) && |h| + 2 <= |body| && body[|h| + 1] == ' '
  {
    DigitsHaveNoLetter(h, 'h');
    IndexOfFirst(h, 'h', [' '] + m);
  }

  /** A label whose first `h` at `i` is followed by a space reads as its two parts. */
  lemma ReadBody(body: string, i: nat)
    requires IndexOf(body, 'h') == Some(i) && i + 2 <= |body| && body[i + 1] == ' '
    ensures MinutesShown(body + "m") == HoursAndMinutes(body[..i], body[i + 2..])
  {
    var shown := body + "m";
    assert shown[..|shown| - 1] == body;
  }

  /** Reading back a label without an hours part. */
  lemma ReadMinutesLabel(minutes: nat)
    ensures MinutesShown(NatToString(minutes) + "m") == Some(minutes)
    ensures 'h' !in NatToString(minutes) + "m"
  {
    var m := NatToString(minutes);
    ParseNatToString(minutes);
    NatToStringCanonical(minutes);
    DigitsHaveNoLetter(m, 'h');
    var shown := m + "m";
    assert shown[..|shown| - 1] == m;
    assert IndexOf(m, 'h') == None;
  }

  lemma MinutesOfAnHour(x: nat)
    requires x < 3600
    ensures x / 60 < 60
  {
  }

  /** For a non-negative number of seconds, `formatTime` shows exactly the whole
      minutes it contains, and it has an hours part exactly when there is at
      least one whole hour. */
  lemma FormatTimeShowsWholeMinutes(seconds: nat)
    ensures MinutesShown(FormatTime(seconds)) == Some(seconds / 60)
    ensures ('h' in FormatTime(seconds)) <==> seconds >= 3600
  {
    if seconds >= 3600 {
      FormatTimeWithHours(seconds);
    } else {
      FormatTimeWithoutHours(seconds);
    }
  }

  lemma FormatTimeWithHours(seconds: nat)
    requires seconds >= 3600
    ensures MinutesShown(FormatTime(seconds)) == Some(seconds / 60)
    ensures 'h' in FormatTime(seconds)
  {
    var hours, minutes := seconds / 3600, (seconds % 3600) / 60;
    WholeMinutes(seconds);
    MinutesOfAnHour(seconds % 3600);
    assert JsRemainder(seconds, 3600) / 60 == minutes;
    var h, m := NatToString(hours), NatToString(minutes);
    ParseNatToString(hours);
    ParseNatToString(minutes);
    NatToStringCanonical(hours);
    NatToStringCanonical(minutes);
    ReadHoursLabel(h, m);
    assert FormatTime(seconds) == HoursLabel(h, m);
    assert HoursLabel(h, m)[|h|] == 'h';
  }

  lemma FormatTimeWithoutHours(seconds: nat)
    requires seconds < 3600
    ensures MinutesShown(FormatTime(seconds)) == Some(seconds / 60)
    ensures 'h' !in FormatTime(seconds)
  {
    var minutes := seconds / 60;
    assert JsRemainder(seconds, 3600) == seconds % 3600 == seconds;
    assert FormatTime(seconds) == IntToString(minutes) + "m";
    ReadMinutesLabel(minutes);
  }

  lemma FormatTimeExamples()
    ensures FormatTime(125) == "2m"
    ensures FormatTime(3900) == "1h 5m"
  {
  }

  /** The date an ISO `YYYY-MM-DD` text names, as the number YYYYMMDD (which orders
      like the calendar); None for any other text, which `new Date` makes an
      invalid date that compares false with every date. */
  function ParseDate(s: string): (r: Option<int>)
    ensures r.Some? ==> 101 <= r.value
  {
    if |s| == 10 && s[4] == '-' && s[7] == '-'
       && AllDigits(s[..4]) && AllDigits(s[5..7]) && AllDigits(s[8..])
    then
      var year, month, day := ParseNat(s[..4]), ParseNat(s[5..7]), ParseNat(s[8..]);
      if 1 <= month <= 12 && 1 <= day <= 31 then Some(10000 * year + 100 * month + day) else None
    else None
  }
}
