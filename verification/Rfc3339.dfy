/**
 * Timestamps as the index stores them: time.RFC3339Nano text of a UTC time with a four-digit year,
 * the fraction without trailing zeros (section 5.1 of RFC 3339 on ordering).
 */
module Rfc3339 {
  import opened ByteOrder
  import opened Shard

  const NANOS := 1_000_000_000

  // A UTC time: the whole second by its calendar fields, and the nanoseconds within it.
  datatype Utc = Utc(year: nat, month: nat, day: nat, hour: nat, minute: nat, second: nat, nano: nat)

  predicate IsLeap(year: nat) {
    year % 4 == 0 && (year % 100 != 0 || year % 400 == 0)
  }

  function DaysIn(year: nat, month: nat): nat {
    if month == 2 then (if IsLeap(year) then 29 else 28)
    else if month == 4 || month == 6 || month == 9 || month == 11 then 30
    else 31
  }

  predicate ValidUtc(u: Utc) {
    && u.year <= 9999 && 1 <= u.month <= 12 && 1 <= u.day <= DaysIn(u.year, u.month)
    && u.hour < 24 && u.minute < 60 && u.second < 60 && u.nano < NANOS
  }

  // ---- chronology ----------------------------------------------------------------------------

  function DaysBeforeYear(year: nat): nat {
    if year == 0 then 0 else DaysBeforeYear(year - 1) + (if IsLeap(year - 1) then 366 else 365)
  }

  function DaysBeforeMonth(year: nat, month: nat): nat {
    if month <= 1 then 0 else DaysBeforeMonth(year, month - 1) + DaysIn(year, month - 1)
  }

  function Day(u: Utc): nat
    requires ValidUtc(u)
  {
    DaysBeforeYear(u.year) + DaysBeforeMonth(u.year, u.month) + u.day - 1
  }

  // Whole seconds since the start of year 0.
  function Seconds(u: Utc): nat
    requires ValidUtc(u)
  {
    ((Day(u) * 24 + u.hour) * 60 + u.minute) * 60 + u.second
  }

  function Instant(u: Utc): nat
    requires ValidUtc(u)
  {
    Seconds(u) * NANOS + u.nano
  }

  // ---- text ----------------------------------------------------------------------------------

  // The last `width` decimal digits of n.
  function Digits(n: nat, width: nat): (s: string)
    ensures |s| == width
  {
    if width == 0 then "" else Digits(n / 10, width - 1) + [Digit(n % 10)]
  }

  function TrimZeros(s: string): string {
    if s == "" || s[|s| - 1] != '0' then s else TrimZeros(s[..|s| - 1])
  }

  function Fraction(u: Utc): string {
    TrimZeros(Digits(u.nano, 9))
  }

  function SecondText(u: Utc): string {
    Digits(u.year, 4) + "-" + Digits(u.month, 2) + "-" + Digits(u.day, 2) + "T"
    + Digits(u.hour, 2) + ":" + Digits(u.minute, 2) + ":" + Digits(u.second, 2)
  }

  function Tail(fraction: string): string {
    if fraction == "" then "Z" else "." + fraction + "Z"
  }

  function Format(u: Utc): string {
    SecondText(u) + Tail(Fraction(u))
  }

  predicate SameSecond(a: Utc, b: Utc) {
    a.(nano := 0) == b.(nano := 0)
  }

  predicate ProperPrefix(p: string, s: string) {
    p < s
  }

  // ---- digits keep the order of numbers --------------------------------------------------------

  function Pow10(k: nat): nat {
    if k == 0 then 1 else 10 * Pow10(k - 1)
  }

  lemma LastCharacter(p: string, q: string, c: char, d: char)
    requires |p| == |q|
    ensures p + [c] == q + [d] <==> p == q && c == d
    ensures Less(p + [c], q + [d]) <==> (if p == q then c < d else Less(p, q))
  {
    if p == q {
      LessAfterCommonPrefix(p, [c], [d]);
    } else {
      LessBySameWidth(p, q, [c], [d]);
      assert (p + [c])[..|p|] == p && (q + [d])[..|q|] == q;
    }
    assert (p + [c])[|p|] == c && (q + [d])[|q|] == d;
  }

  lemma SplitTen(a: nat, b: nat)
    ensures a == b <==> a / 10 == b / 10 && a % 10 == b % 10
    ensures a < b <==> a / 10 < b / 10 || (a / 10 == b / 10 && a % 10 < b % 10)
  {
  }

  lemma {:induction false} DigitsOrder(a: nat, b: nat, width: nat)
    requires a < Pow10(width) && b < Pow10(width)
    ensures Less(Digits(a, width), Digits(b, width)) <==> a < b
    ensures Digits(a, width) == Digits(b, width) <==> a == b
  {
    if width > 0 {
      DigitsOrder(a / 10, b / 10, width - 1);
      SplitTen(a, b);
      LastCharacter(Digits(a / 10, width - 1), Digits(b / 10, width - 1), Digit(a % 10), Digit(b % 10));
    }
  }

  // ---- the calendar keeps the order of its fields ----------------------------------------------

  predicate EarlierDate(u: Utc, v: Utc) {
    || u.year < v.year
    || (u.year == v.year && (u.month < v.month || (u.month == v.month && u.day < v.day)))
  }

  predicate EarlierSecond(u: Utc, v: Utc) {
    || EarlierDate(u, v)
    || (u.year == v.year && u.month == v.month && u.day == v.day
        && (u.hour < v.hour
            || (u.hour == v.hour && (u.minute < v.minute || (u.minute == v.minute && u.second < v.second)))))
  }

  lemma {:induction false} MonthsAddUp(year: nat, m: nat, n: nat)
    requires 1 <= m < n <= 13
    ensures DaysBeforeMonth(year, m) + DaysIn(year, m) <= DaysBeforeMonth(year, n)
  {
    if m + 1 < n {
      MonthsAddUp(year, m, n - 1);
    }
  }

  lemma YearAddsUp(year: nat)
    ensures DaysBeforeMonth(year, 13) == if IsLeap(year) then 366 else 365
  {
    var february := DaysIn(year, 2);
    assert DaysBeforeMonth(year, 2) == 31;
    assert DaysBeforeMonth(year, 4) == 62 + february;
    assert DaysBeforeMonth(year, 6) == 123 + february;
    assert DaysBeforeMonth(year, 8) == 184 + february;
    assert DaysBeforeMonth(year, 10) == 245 + february;
    assert DaysBeforeMonth(year, 12) == 306 + february;
  }

  lemma {:induction false} YearsAddUp(y: nat, z: nat)
    requires y < z
    ensures DaysBeforeYear(y) + DaysBeforeMonth(y, 13) <= DaysBeforeYear(z)
  {
    YearAddsUp(y);
    if y + 1 < z {
      YearsAddUp(y, z - 1);
    }
  }

  lemma EarlierDateIsAnEarlierDay(u: Utc, v: Utc)
    requires ValidUtc(u) && ValidUtc(v) && EarlierDate(u, v)
    ensures Day(u) < Day(v)
  {
    if u.year < v.year {
      MonthsAddUp(u.year, u.month, 13);
      YearsAddUp(u.year, v.year);
    } else if u.month < v.month {
      MonthsAddUp(u.year, u.month, v.month);
    }
  }

  lemma EarlierSecondIsChronological(u: Utc, v: Utc)
    requires ValidUtc(u) && ValidUtc(v)
    ensures EarlierSecond(u, v) <==> Seconds(u) < Seconds(v)
    ensures SameSecond(u, v) <==> Seconds(u) == Seconds(v)
  {
    if EarlierDate(u, v) {
      EarlierDateIsAnEarlierDay(u, v);
    } else if EarlierDate(v, u) {
      EarlierDateIsAnEarlierDay(v, u);
    }
  }

  // ---- the text keeps the order of the fields --------------------------------------------------

  lemma FieldOrder(x: nat, y: nat, width: nat, separator: string, restX: string, restY: string)
    requires x < Pow10(width) && y < Pow10(width)
    ensures Less(Digits(x, width) + (separator + restX), Digits(y, width) + (separator + restY)) <==>
            x < y || (x == y && Less(restX, restY))
  {
    DigitsOrder(x, y, width);
    if x == y {
      LessAfterCommonPrefix(Digits(x, width), separator + restX, separator + restY);
      LessAfterCommonPrefix(separator, restX, restY);
    } else {
      LessBySameWidth(Digits(x, width), Digits(y, width), separator + restX, separator + restY);
    }
  }

  function ClockText(u: Utc, rest: string): string {
    Digits(u.hour, 2) + (":" + (Digits(u.minute, 2) + (":" + (Digits(u.second, 2) + ("" + rest)))))
  }

  function DateText(u: Utc, rest: string): string {
    Digits(u.year, 4) + ("-" + (Digits(u.month, 2) + ("-" + (Digits(u.day, 2) + ("T" + rest)))))
  }

  lemma FormatByFields(u: Utc)
    ensures Format(u) == DateText(u, ClockText(u, Tail(Fraction(u))))
  {
    var rest := Tail(Fraction(u));
    assert ClockText(u, rest) ==
           Digits(u.hour, 2) + ":" + Digits(u.minute, 2) + ":" + Digits(u.second, 2) + rest;
  }

  lemma FormatOrderBySecond(u: Utc, v: Utc)
    requires ValidUtc(u) && ValidUtc(v)
    ensures Less(Format(u), Format(v)) <==>
            EarlierSecond(u, v) || (SameSecond(u, v) && Less(Tail(Fraction(u)), Tail(Fraction(v))))
  {
    var p, q := Tail(Fraction(u)), Tail(Fraction(v));
    assert Pow10(2) == 100 && Pow10(4) == 10_000;
    FormatByFields(u);
    FormatByFields(v);
    FieldOrder(u.second, v.second, 2, "", p, q);
    var s, t := Digits(u.second, 2) + ("" + p), Digits(v.second, 2) + ("" + q);
    FieldOrder(u.minute, v.minute, 2, ":", s, t);
    var s', t' := Digits(u.minute, 2) + (":" + s), Digits(v.minute, 2) + (":" + t);
    FieldOrder(u.hour, v.hour, 2, ":", s', t');
    var c, d := ClockText(u, p), ClockText(v, q);
    FieldOrder(u.day, v.day, 2, "T", c, d);
    var e, f := Digits(u.day, 2) + ("T" + c), Digits(v.day, 2) + ("T" + d);
    FieldOrder(u.month, v.month, 2, "-", e, f);
    var e', f' := Digits(u.month, 2) + ("-" + e), Digits(v.month, 2) + ("-" + f);
    FieldOrder(u.year, v.year, 4, "-", e', f');
  }

  // ---- fractions -------------------------------------------------------------------------------

  lemma {:induction false} TrimmedIsAPrefix(s: string)
    ensures TrimZeros(s) <= s
    ensures forall k | |TrimZeros(s)| <= k < |s| :: s[k] == '0'
  {
    if s != "" && s[|s| - 1] == '0' {
      TrimmedIsAPrefix(s[..|s| - 1]);
    }
  }

  lemma {:induction false} FirstDifference(s: string, t: string) returns (i: nat)
    requires |s| == |t| && Less(s, t)
    ensures i < |s| && s[..i] == t[..i] && s[i] < t[i]
  {
    if s[0] != t[0] {
      i := 0;
    } else {
      var j := FirstDifference(s[1..], t[1..]);
      i := j + 1;
      assert s[..i] == [s[0]] + s[1..][..j] && t[..i] == [t[0]] + t[1..][..j];
    }
  }

  lemma {:induction false} DigitsAreDigits(n: nat, width: nat, k: nat)
    requires k < width
    ensures '0' <= Digits(n, width)[k] <= '9'
  {
    if k < width - 1 {
      DigitsAreDigits(n / 10, width - 1, k);
    }
  }

  // The first character after a common start decides.
  lemma LessAt(head: string, a: string, b: string)
    requires a != "" && b != "" && a[0] < b[0]
    ensures Less(head + a, head + b) && !Less(head + b, head + a)
  {
    LessAfterCommonPrefix(head, a, b);
    LessAfterCommonPrefix(head, b, a);
  }

  lemma TailParts(p: string, i: nat)
    requires p != "" && i <= |p|
    ensures Tail(p) == ("." + p[..i]) + (p[i..] + "Z")
  {
    assert p == p[..i] + p[i..];
  }

  lemma TailsDiffer(p: string, q: string, i: nat)
    requires i < |p| && i < |q| && p[..i] == q[..i] && p[i] < q[i]
    ensures Less(Tail(p), Tail(q)) && !Less(Tail(q), Tail(p))
  {
    TailParts(p, i);
    TailParts(q, i);
    LessAt("." + p[..i], p[i..] + "Z", q[i..] + "Z");
  }

  // The closing Z of the shorter text meets a digit, or the point, of the longer one.
  lemma PrefixSortsLater(p: string, q: string)
    requires p < q && q[|p|] <= '9'
    ensures Less(Tail(q), Tail(p)) && !Less(Tail(p), Tail(q))
  {
    var i := |p|;
    if i == 0 {
      LessAt("", Tail(q), Tail(p));
    } else {
      TailParts(p, i);
      TailParts(q, i);
      assert q[..i] == p[..i];
      LessAt("." + p[..i], q[i..] + "Z", p[i..] + "Z");
    }
  }

  // Of two fractions of one second the smaller sorts first, unless its text is a proper prefix of
  // the other's.
  lemma FractionOrder(u: Utc, v: Utc)
    requires u.nano < v.nano < NANOS
    ensures var p, q := Fraction(u), Fraction(v);
            && !(q < p)
            && (Less(Tail(p), Tail(q)) <==> !(p < q))
            && (Less(Tail(q), Tail(p)) <==> p < q)
  {
    var s, t := Digits(u.nano, 9), Digits(v.nano, 9);
    var p, q := Fraction(u), Fraction(v);
    assert Pow10(3) == 1_000 && Pow10(6) == 1_000_000 && Pow10(9) == NANOS;
    DigitsOrder(u.nano, v.nano, 9);
    var i := FirstDifference(s, t);
    TrimmedIsAPrefix(s);
    TrimmedIsAPrefix(t);
    DigitsAreDigits(u.nano, 9, i);
    SplitFractions(s, t, p, q, i);
    if |p| > i {
      TailsDiffer(p, q, i);
    } else {
      DigitsAreDigits(v.nano, 9, |p|);
      PrefixSortsLater(p, q);
    }
  }

  // Where two digit texts first differ decides which of their trimmed forms is a prefix.
  lemma SplitFractions(s: string, t: string, p: string, q: string, i: nat)
    requires i < |s| == |t| && s[..i] == t[..i] && '0' <= s[i] < t[i]
    requires p <= s && q <= t && (forall k | |q| <= k < |t| :: t[k] == '0')
    ensures i < |q| && !(q < p)
    ensures if i < |p| then p[..i] == q[..i] && p[i] < q[i] && !(p < q) else p < q && q[|p|] == t[|p|]
  {
    assert q[i] == t[i];
    if i < |p| {
      assert p[i] == s[i];
      assert p[..i] == s[..i] && q[..i] == t[..i];
    } else {
      assert p == s[..|p|] && s[..|p|] == s[..i][..|p|] && t[..|p|] == t[..i][..|p|] && q[..|p|] == t[..|p|];
    }
  }

  lemma {:induction false} LessIsIrreflexive(s: string)
    ensures !Less(s, s)
  {
    if s != "" {
      LessIsIrreflexive(s[1..]);
    }
  }

  ghost predicate Reversed(u: Utc, v: Utc) {
    SameSecond(u, v) && (ProperPrefix(Fraction(u), Fraction(v)) || ProperPrefix(Fraction(v), Fraction(u)))
  }

  /**
   * Byte order of the stored texts is chronological order, except for two times of the same second of
   * which one fraction text is a proper prefix of the other: their order is reversed.
   */
  lemma ByteOrderCharacterised(u: Utc, v: Utc)
    requires ValidUtc(u) && ValidUtc(v)
    ensures Less(Format(u), Format(v)) <==>
            if Reversed(u, v) then Instant(v) < Instant(u) else Instant(u) < Instant(v)
  {
    FormatOrderBySecond(u, v);
    EarlierSecondIsChronological(u, v);
    if SameSecond(u, v) {
      if u.nano < v.nano {
        FractionOrder(u, v);
      } else if v.nano < u.nano {
        FractionOrder(v, u);
      } else {
        LessIsIrreflexive(Tail(Fraction(u)));
      }
    }
  }

  /**
   * The index condition `updateTime >= since` loses an item that is not older than `since` exactly
   * when both lie in one second and the text of since's fraction is a proper prefix of the item's. An
   * item from a later second, or at least one second newer, is never lost.
   */
  lemma WhatTheIndexLoses(item: Utc, since: Utc)
    requires ValidUtc(item) && ValidUtc(since) && Instant(since) <= Instant(item)
    ensures !AtLeast(Format(item), Format(since)) <==>
            SameSecond(item, since) && ProperPrefix(Fraction(since), Fraction(item))
    ensures Seconds(since) < Seconds(item) ==> AtLeast(Format(item), Format(since))
    ensures Instant(since) + NANOS <= Instant(item) ==> AtLeast(Format(item), Format(since))
  {
    ByteOrderCharacterised(item, since);
    EarlierSecondIsChronological(item, since);
    if SameSecond(item, since) {
      if since.nano < item.nano {
        FractionOrder(since, item);
      }
    }
  }

  lemma {:induction false} ZeroDigits(width: nat, k: nat)
    requires k < width
    ensures Digits(0, width)[k] == '0'
  {
    if k < width - 1 {
      ZeroDigits(width - 1, k);
    }
  }

  lemma {:induction false} TrimmedEndsWell(s: string)
    ensures TrimZeros(s) != "" ==> TrimZeros(s)[|TrimZeros(s)| - 1] != '0'
    ensures TrimZeros(s) == "" <==> forall k | 0 <= k < |s| :: s[k] == '0'
  {
    if s != "" && s[|s| - 1] == '0' {
      var front := s[..|s| - 1];
      TrimmedEndsWell(front);
      assert forall k | 0 <= k < |front| :: front[k] == s[k];
    } else if s != "" {
      assert s[|s| - 1] != '0';
    }
  }

  // Only the whole second has no fraction.
  lemma NoFraction(u: Utc)
    requires u.nano < NANOS
    ensures Fraction(u) == "" <==> u.nano == 0
  {
    var s, zeros := Digits(u.nano, 9), Digits(0, 9);
    TrimmedEndsWell(s);
    forall k | 0 <= k < 9
      ensures zeros[k] == '0'
    {
      ZeroDigits(9, k);
    }
    assert Pow10(3) == 1_000 && Pow10(6) == 1_000_000 && Pow10(9) == NANOS;
    DigitsOrder(u.nano, 0, 9);
    if forall k | 0 <= k < |s| :: s[k] == '0' {
      assert s == zeros;
    }
  }

  // The loss occurs: a window that begins on a whole second loses every item later in that second.
  lemma WholeSecondLosesItsFractions(item: Utc, since: Utc)
    requires ValidUtc(item) && ValidUtc(since) && SameSecond(item, since) && since.nano == 0 < item.nano
    ensures Instant(since) < Instant(item) && !AtLeast(Format(item), Format(since))
  {
    NoFraction(since);
    NoFraction(item);
    EarlierSecondIsChronological(item, since);
    WhatTheIndexLoses(item, since);
  }

  // The digits of a number are its decimal digits.
  lemma {:induction false} DigitsValue(n: nat, width: nat, k: nat)
    requires k < width
    ensures Pow10(k) > 0
    ensures Digits(n, width)[width - 1 - k] == Digit(n / Pow10(k) % 10)
  {
    if k > 0 {
      DigitsValue(n / 10, width - 1, k - 1);
      DivideTwice(n, Pow10(k - 1));
    }
  }

  lemma DivideTwice(n: nat, p: nat)
    requires p > 0
    ensures n / 10 / p == n / (10 * p)
  {
    var q := n / 10 / p;
    var r := n / 10 % p;
    assert n / 10 == q * p + r;
    assert n == (q * p + r) * 10 + n % 10 == q * (10 * p) + (r * 10 + n % 10);
    QuotientIs(n, 10 * p, q, r * 10 + n % 10);
  }

  lemma QuotientIs(n: nat, d: nat, q: nat, r: nat)
    requires d > 0 && n == q * d + r && r < d
    ensures n / d == q
  {
    var q' := n / d;
    assert n == q' * d + n % d;
    assert (q' - q) * d == q' * d - q * d == r - n % d;
    LargeMultiple(q' - q, d);
  }

  lemma LargeMultiple(x: int, d: int)
    requires d > 0
    ensures x >= 1 ==> x * d >= d
    ensures x <= -1 ==> x * d <= -d
  {
    if x >= 1 {
      assert (x - 1) * d >= 0;
    } else if x <= -1 {
      assert (-1 - x) * d >= 0;
    }
  }

  // The text begins with year, month, day, hour, minute and second, each with its separator, and ends
  // with the fraction.
  lemma FormatLayout(u: Utc)
    ensures var t := Format(u);
            var date := Digits(u.year, 4) + "-" + Digits(u.month, 2) + "-" + Digits(u.day, 2);
            && |t| >= 20 && t[..10] == date && t[10] == 'T'
            && t[11..19] == Digits(u.hour, 2) + ":" + Digits(u.minute, 2) + ":" + Digits(u.second, 2)
            && t[19..] == if Fraction(u) == "" then "Z" else "." + Fraction(u) + "Z"
  {
    var t := Format(u);
    var date := Digits(u.year, 4) + "-" + Digits(u.month, 2) + "-" + Digits(u.day, 2);
    var clock := Digits(u.hour, 2) + ":" + Digits(u.minute, 2) + ":" + Digits(u.second, 2);
    assert |date| == 10 && |clock| == 8;
    assert SecondText(u) == date + "T" + clock;
    Cut(date, "T", clock + Tail(Fraction(u)));
    Cut(date + "T", clock, Tail(Fraction(u)));
    assert t == date + "T" + (clock + Tail(Fraction(u)));
  }

  lemma Cut(a: string, b: string, c: string)
    ensures (a + b + c)[..|a|] == a && (a + b + c)[|a|..|a| + |b|] == b && (a + b + c)[|a| + |b|..] == c
  {
  }
}
