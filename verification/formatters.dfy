/** The display formatters of frontend/src/utils/formatters.js that do not
    depend on the browser's locale: text truncation, initials, Rwandan
    phone grouping and the relative "time ago" label. Times are integer
    milliseconds and the current time is a parameter. */
module Formatters {
  import opened Common
  import opened Strings

  /** The default `maxLength` of `truncateText`. */
  const DefaultMaxLength: int := 100

  const Ellipsis: string := "..."

  /** `truncateText(text, maxLength)`: missing or empty text and text that
      fits come back as they are; longer text is cut to `maxLength`
      characters (none, for a negative length, as `substring` clamps) and
      gets "..." appended. */
  function TruncateText(text: Option<string>, maxLength: int): (r: Option<string>)
    ensures !Truthy(text) || |text.value| <= maxLength ==> r == text
    ensures Truthy(text) && |text.value| > maxLength ==>
      var keep := if maxLength < 0 then 0 else maxLength;
      && r.Some? && |r.value| == keep + 3
      && r.value[..keep] == text.value[..keep]
      && r.value[keep..] == Ellipsis
  {
    if !Truthy(text) || |text.value| <= maxLength then text
    else Some(Substring(text.value, 0, maxLength) + Ellipsis)
  }

  /** Whatever is returned starts with as many characters of the input as
      `maxLength` allows, and is never longer than `maxLength + 3`. */
  lemma TruncateKeepsPrefix(t: string, maxLength: nat)
    ensures
      var r := TruncateText(Some(t), maxLength).value;
      var n := if |t| < maxLength then |t| else maxLength;
      && n <= |r| && r[..n] == t[..n]
      && |r| <= maxLength + 3
  {
  }

  /** With the default length, a 101-character text becomes its first 100
      characters and "...". */
  lemma TruncateDefaultExample(t: string)
    requires |t| == 101
    ensures TruncateText(Some(t), DefaultMaxLength) == Some(t[..100] + Ellipsis)
  {
  }

  /** `getInitials`: "??" when both names are missing or empty, otherwise
      the upper-cased first character of each present name, first name
      first. */
  function GetInitials(firstName: Option<string>, lastName: Option<string>): (r: string)
    ensures !Truthy(firstName) && !Truthy(lastName) ==> r == "??"
    ensures Truthy(firstName) || Truthy(lastName) ==>
      && |r| == (if Truthy(firstName) then 1 else 0) + (if Truthy(lastName) then 1 else 0)
      && (Truthy(firstName) ==> r[0] == UpperChar(firstName.value[0]))
      && (Truthy(lastName) ==> r[|r| - 1] == UpperChar(lastName.value[0]))
  {
    if !Truthy(firstName) && !Truthy(lastName) then "??"
    else
      (if Truthy(firstName) then [UpperChar(firstName.value[0])] else [])
      + (if Truthy(lastName) then [UpperChar(lastName.value[0])] else [])
  }

  /** The placeholder is not reserved: two names starting with '?' produce
      it too, so "??" alone does not tell that the names were missing. */
  lemma InitialsPlaceholderNotReserved()
    ensures GetInitials(Some("?a"), Some("?b")) == "??"
  {
  }

  /** Initials never exceed two characters and every letter in them is
      upper case. */
  lemma InitialsAreUpper(firstName: Option<string>, lastName: Option<string>)
    ensures |GetInitials(firstName, lastName)| <= 2
    ensures forall i :: 0 <= i < |GetInitials(firstName, lastName)| ==> !IsLower(GetInitials(firstName, lastName)[i])
  {
  }

  const RwandaPrefix: string := "+250"

  /** The three groups `formatPhoneNumber` cuts the national digits into:
      two, three, and the rest. */
  function PhoneGroups(d: string): (g: (string, string, string))
    ensures g.0 + g.1 + g.2 == d
    ensures |g.0| == (if |d| < 2 then |d| else 2)
    ensures |d| >= 5 ==> |g.1| == 3
  {
    var g := (Substring(d, 0, 2), Substring(d, 2, 5), SubstringFrom(d, 5));
    if |d| < 2 then
      assert g.0 == d && g.1 == "" && g.2 == "";
      g
    else if |d| < 5 then
      assert g.0 == d[..2] && g.1 == d[2..] && g.2 == "";
      g
    else
      assert g.0 + g.1 + g.2 == d[..2] + d[2..5] + d[5..];
      g
  }

  /** `formatPhoneNumber`: "" for a missing or empty number, the number
      itself unless it starts with "+250", and otherwise "+250" and the
      three groups separated by spaces. */
  function FormatPhoneNumber(p: Option<string>): (r: string)
    ensures !Truthy(p) ==> r == ""
    ensures Truthy(p) && !StartsWith(p.value, RwandaPrefix) ==> r == p.value
    ensures Truthy(p) && StartsWith(p.value, RwandaPrefix) ==>
      var g := PhoneGroups(p.value[4..]);
      r == RwandaPrefix + " " + g.0 + " " + g.1 + " " + g.2
  {
    if !Truthy(p) then ""
    else if StartsWith(p.value, RwandaPrefix) then
      var d := SubstringFrom(p.value, 4);
      RwandaPrefix + " " + Substring(d, 0, 2) + " " + Substring(d, 2, 5) + " " + SubstringFrom(d, 5)
    else p.value
  }

  /** No digit is lost: for a "+250" number the groups put back together are
      exactly what followed the prefix. */
  lemma FormatPhoneKeepsDigits(rest: string)
    ensures
      var g := PhoneGroups(rest);
      && FormatPhoneNumber(Some(RwandaPrefix + rest)) == RwandaPrefix + " " + g.0 + " " + g.1 + " " + g.2
      && g.0 + g.1 + g.2 == rest
  {
    var p := RwandaPrefix + rest;
    assert p[..4] == RwandaPrefix;
    assert p[4..] == rest;
  }

  /** A full international mobile number is shown as "+250 7X XXX XXXX". */
  lemma FormatFullNumber(rest: string)
    requires |rest| == 9
    ensures FormatPhoneNumber(Some(RwandaPrefix + rest)) == RwandaPrefix + " " + rest[..2] + " " + rest[2..5] + " " + rest[5..]
  {
    FormatPhoneKeepsDigits(rest);
    var g := PhoneGroups(rest);
    assert g.0 == rest[..2] && g.1 == rest[2..5] && g.2 == rest[5..] by {
      assert rest == g.0 + g.1 + g.2;
      assert (g.0 + g.1 + g.2)[..2] == g.0;
      assert (g.0 + g.1 + g.2)[2..5] == g.1;
      assert (g.0 + g.1 + g.2)[5..] == g.2;
    }
  }

  /** `Math.round(a / b)` for a positive integer divisor: the nearest
      integer, halves rounded up. */
  function RoundDiv(a: int, b: int): (q: int)
    requires b > 0
    ensures b * (2 * q - 1) <= 2 * a < b * (2 * q + 1)
  {
    (2 * a + b) / (2 * b)
  }

  lemma RoundDivMonotone(a1: int, a2: int, b: int)
    requires b > 0 && a1 <= a2
    ensures RoundDiv(a1, b) <= RoundDiv(a2, b)
  {
    DivMonotone(2 * a1 + b, 2 * a2 + b, 2 * b);
  }

  /** Floor division by a positive divisor is monotone in the dividend. */
  lemma DivMonotone(x: int, y: int, d: int)
    requires d > 0 && x <= y
    ensures x / d <= y / d
  {
    var qx, qy := x / d, y / d;
    assert d * qx + x % d == x;
    assert d * qy + y % d == y;
    assert d * (qy + 1) == d * qy + d;
    assert d * qx < d * (qy + 1);
    MulCancel(d, qx, qy + 1);
  }

  lemma MulCancel(d: int, u: int, v: int)
    requires d > 0 && d * u < d * v
    ensures u < v
  {
    assert d * v - d * u == d * (v - u);
  }

  /** The chain of rounded units `formatDateRelative` computes from a
      difference in milliseconds. */
  datatype Elapsed = Elapsed(sec: int, min: int, hour: int, day: int, month: int, year: int)

  function ElapsedOf(diffMs: int): Elapsed {
    var sec := RoundDiv(diffMs, 1000);
    var min := RoundDiv(sec, 60);
    var hour := RoundDiv(min, 60);
    var day := RoundDiv(hour, 24);
    var month := RoundDiv(day, 30);
    Elapsed(sec, min, hour, day, month, RoundDiv(month, 12))
  }

  /** Which label is chosen: 0 "just now", then minutes, hours, days,
      months and years. */
  function Bucket(diffMs: int): (b: nat)
    ensures b <= 5
  {
    var e := ElapsedOf(diffMs);
    if e.sec < 60 then 0
    else if e.min < 60 then 1
    else if e.hour < 24 then 2
    else if e.day < 30 then 3
    else if e.month < 12 then 4
    else 5
  }

  /** Every unit of the chain grows with the elapsed time. */
  lemma ElapsedMonotone(d1: int, d2: int)
    requires d1 <= d2
    ensures
      var e1 := ElapsedOf(d1);
      var e2 := ElapsedOf(d2);
      && e1.sec <= e2.sec && e1.min <= e2.min && e1.hour <= e2.hour
      && e1.day <= e2.day && e1.month <= e2.month && e1.year <= e2.year
  {
    var e1 := ElapsedOf(d1);
    var e2 := ElapsedOf(d2);
    RoundDivMonotone(d1, d2, 1000);
    RoundDivMonotone(e1.sec, e2.sec, 60);
    RoundDivMonotone(e1.min, e2.min, 60);
    RoundDivMonotone(e1.hour, e2.hour, 24);
    RoundDivMonotone(e1.day, e2.day, 30);
    RoundDivMonotone(e1.month, e2.month, 12);
  }

  /** An older date never gets a finer unit than a newer one. */
  lemma BucketMonotone(d1: int, d2: int)
    requires d1 <= d2
    ensures Bucket(d1) <= Bucket(d2)
  {
    ElapsedMonotone(d1, d2);
  }

  /** The unit each elapsed time gets, as plain millisecond bounds: the
      chain of rounded divisions moves to a coarser unit at 59.5 s, at
      59 min 29.5 s, at 23 h 29 min 29.5 s, at 29 d 11 h 29 min 29.5 s and
      at 344 d 11 h 29 min 29.5 s. */
  lemma BucketThresholds(d: int)
    ensures Bucket(d) == 0 <==> d < 59500
    ensures Bucket(d) == 1 <==> 59500 <= d < 3569500
    ensures Bucket(d) == 2 <==> 3569500 <= d < 84569500
    ensures Bucket(d) == 3 <==> 84569500 <= d < 2546969500
    ensures Bucket(d) == 4 <==> 2546969500 <= d < 29762969500
    ensures Bucket(d) == 5 <==> 29762969500 <= d
  {
    var e := ElapsedOf(d);
    assert e.sec < 60 <==> d < 59500;
    assert e.min < 60 <==> e.sec < 3570;
    assert e.sec < 3570 <==> d < 3569500;
    assert e.hour < 24 <==> e.min < 1410;
    assert e.min < 1410 <==> e.sec < 84570;
    assert e.sec < 84570 <==> d < 84569500;
    assert e.day < 30 <==> e.hour < 708;
    assert e.hour < 708 <==> e.min < 42450;
    assert e.min < 42450 <==> e.sec < 2546970;
    assert e.sec < 2546970 <==> d < 2546969500;
    assert e.month < 12 <==> e.day < 345;
    assert e.day < 345 <==> e.hour < 8268;
    assert e.hour < 8268 <==> e.min < 496050;
    assert e.min < 496050 <==> e.sec < 29762970;
    assert e.sec < 29762970 <==> d < 29762969500;
  }

  function Ago(n: int, unit: string): string {
    (if n < 0 then "-" + NatToString(-n) else NatToString(n)) + unit + " ago"
  }

  /** `formatDateRelative`: "" without a date; otherwise "just now" below
      59.5 seconds and then the count of the first unit, from minutes to
      years, whose rounded count stays below the next unit's size. */
  function FormatDateRelative(date: Option<int>, now: int): (r: string)
    ensures date.None? ==> r == ""
    ensures date.Some? ==>
      var d := now - date.value;
      var e := ElapsedOf(d);
      && (d < 59500 ==> r == "just now")
      && (59500 <= d < 3569500 ==> 1 <= e.min < 60 && r == Ago(e.min, "m"))
      && (3569500 <= d < 84569500 ==> 1 <= e.hour < 24 && r == Ago(e.hour, "h"))
      && (84569500 <= d < 2546969500 ==> 1 <= e.day < 30 && r == Ago(e.day, "d"))
      && (2546969500 <= d < 29762969500 ==> 1 <= e.month < 12 && r == Ago(e.month, "mo"))
      && (29762969500 <= d ==> 1 <= e.year && r == Ago(e.year, "y"))
  {
    if date.None? then ""
    else
      var e := ElapsedOf(now - date.value);
      BucketThresholds(now - date.value);
      if e.sec < 60 then "just now"
      else if e.min < 60 then Ago(e.min, "m")
      else if e.hour < 24 then Ago(e.hour, "h")
      else if e.day < 30 then Ago(e.day, "d")
      else if e.month < 12 then Ago(e.month, "mo")
      else Ago(e.year, "y")
  }

  /** Dates in the future, and the present, read "just now". */
  lemma FutureIsJustNow(date: int, now: int)
    requires date >= now
    ensures FormatDateRelative(Some(date), now) == "just now"
  {
    assert Bucket(now - date) == 0;
  }

  /** Outside "just now" the count shown is positive. */
  lemma CountIsPositive(diffMs: int)
    requires Bucket(diffMs) > 0
    ensures ElapsedOf(diffMs).min >= 1
  {
  }
}
