/**
 * Time-code helpers (src/services/utils/timeUtils.ts): whole seconds to a
 * zero-padded `MM:SS` string, and `MM:SS` / `HH:MM:SS` strings back to seconds.
 */
module TimeUtils {

  predicate IsDigit(c: char)
  {
    '0' <= c <= '9'
  }

  predicate IsDigits(s: string)
  {
    forall i :: 0 <= i < |s| ==> IsDigit(s[i])
  }

  /** The strings the parser is modelled on: decimal digits and ':' separators. */
  predicate IsTimeText(s: string)
  {
    forall i :: 0 <= i < |s| ==> IsDigit(s[i]) || s[i] == ':'
  }

  type TimeText = s: string | IsTimeText(s) witness ""

  function DigitValue(c: char): (d: nat)
    requires IsDigit(c)
    ensures d < 10
  {
    c as int - '0' as int
  }

  function DigitChar(d: nat): (c: char)
    requires d < 10
    ensures IsDigit(c) && DigitValue(c) == d
  {
    ('0' as int + d) as char
  }

  /** What JavaScript's `Number` gives for a string of decimal digits (0 for the empty string). */
  function DigitsValue(s: string): nat
    requires IsDigits(s)
  {
    if s == [] then 0 else DigitsValue(s[..|s| - 1]) * 10 + DigitValue(s[|s| - 1])
  }

  /** `String(n)` for a natural number: decimal, without leading zeros. */
  function ShowNat(n: nat): (s: string)
    ensures 1 <= |s| && IsDigits(s)
    ensures DigitsValue(s) == n
    ensures |s| > 1 ==> s[0] != '0'
  {
    if n < 10 then [DigitChar(n)]
    else
      var s := ShowNat(n / 10) + [DigitChar(n % 10)];
      assert s[..|s| - 1] == ShowNat(n / 10);
      s
  }

  /** `padStart(2, '0')`. */
  function PadStart2(s: string): (r: string)
    ensures |s| >= 2 ==> r == s
    ensures |r| == if |s| >= 2 then |s| else 2
    ensures r[|r| - |s|..] == s
    ensures forall i :: 0 <= i < |r| - |s| ==> r[i] == '0'
  {
    if |s| >= 2 then s else if |s| == 1 then ['0'] + s else "00"
  }

  lemma {:induction false} LeadingZero(s: string)
    requires IsDigits(s)
    ensures IsDigits(['0'] + s) && DigitsValue(['0'] + s) == DigitsValue(s)
  {
    var z := ['0'] + s;
    if s != [] {
      assert z[..|z| - 1] == ['0'] + s[..|s| - 1];
      LeadingZero(s[..|s| - 1]);
    }
  }

  /** Padding a digit string with zeros does not change the number it denotes. */
  lemma PadKeepsValue(s: string)
    requires IsDigits(s)
    ensures IsDigits(PadStart2(s)) && DigitsValue(PadStart2(s)) == DigitsValue(s)
  {
    if |s| == 1 {
      LeadingZero(s);
    } else if |s| == 0 {
      LeadingZero(s);
      LeadingZero("0");
    }
  }

  /** `String(n).padStart(2, '0')`: the decimal digits of `n`, at least two of them. */
  function Field(n: nat): (f: string)
    ensures IsDigits(f) && |f| >= 2 && DigitsValue(f) == n
    ensures n < 100 ==> |f| == 2
  {
    PadKeepsValue(ShowNat(n));
    ShowNatLength(n);
    PadStart2(ShowNat(n))
  }

  lemma {:induction false} ShowNatLength(n: nat)
    ensures n < 100 ==> |ShowNat(n)| <= 2
  {
    if n >= 10 && n < 100 {
      assert ShowNat(n / 10) == [DigitChar(n / 10)];
    }
  }

  /**
   * `r` reads as a clock showing `minutes` and `secs`: a minutes field of two or
   * more digits, ':', and a seconds field of exactly two digits.
   */
  predicate ShowsClock(r: string, minutes: nat, secs: nat)
  {
    && |r| >= 5 && r[|r| - 3] == ':'
    && IsDigits(r[..|r| - 3]) && IsDigits(r[|r| - 2..])
    && DigitsValue(r[..|r| - 3]) == minutes && DigitsValue(r[|r| - 2..]) == secs
  }

  /** `formatSecondsToMMSS` on whole seconds: a negative input gives "00:00". */
  function FormatSecondsToMMSS(seconds: int): (r: TimeText)
    ensures seconds < 0 ==> r == "00:00"
    ensures seconds >= 0 ==> ShowsClock(r, seconds / 60, seconds % 60)
  {
    if seconds < 0 then "00:00"
    else
      var q, m := seconds / 60, seconds % 60;
      var mm, ss := Field(q), Field(m);
      FieldsJoin(mm, ss, q, m);
      mm + ":" + ss
  }

  lemma FieldsJoin(mm: string, ss: string, minutes: nat, secs: nat)
    requires IsDigits(mm) && IsDigits(ss) && |mm| >= 2 && |ss| == 2
    requires DigitsValue(mm) == minutes && DigitsValue(ss) == secs
    ensures IsTimeText(mm + ":" + ss) && ShowsClock(mm + ":" + ss, minutes, secs)
  {
    assert IsTimeText(mm) && IsTimeText(ss);
    JoinedTimeText(mm, ss);
    var r := mm + ":" + ss;
    assert r[..|r| - 3] == mm && r[|r| - 2..] == ss;
  }

  lemma JoinedTimeText(a: string, b: string)
    requires IsTimeText(a) && IsTimeText(b)
    ensures IsTimeText(a + ":" + b)
  {
    var r := a + ":" + b;
    forall i | 0 <= i < |r| ensures IsDigit(r[i]) || r[i] == ':' {
      if i < |a| {
        assert r[i] == a[i];
      } else if i > |a| {
        assert r[i] == b[i - |a| - 1];
      }
    }
  }

  /** `s.split(':')`. */
  function Split(s: string): (parts: seq<string>)
    ensures |parts| >= 1
    ensures forall k :: 0 <= k < |parts| ==> ':' !in parts[k]
    ensures IsTimeText(s) ==> forall k :: 0 <= k < |parts| ==> IsDigits(parts[k])
  {
    if s == [] then [[]]
    else
      var rest := Split(s[1..]);
      if s[0] == ':' then
        [[]] + rest
      else
        assert IsTimeText(s) ==> IsTimeText(s[1..]);
        [[s[0]] + rest[0]] + rest[1..]
  }

  /** `parts.join(':')`, the inverse of `Split`. */
  function Join(parts: seq<string>): string
    requires |parts| >= 1
  {
    if |parts| == 1 then parts[0] else parts[0] + ":" + Join(parts[1..])
  }

  /** Splitting and joining again gives back the string. */
  lemma {:induction false} JoinSplit(s: string)
    ensures Join(Split(s)) == s
  {
    if s != [] {
      var rest := Split(s[1..]);
      JoinSplit(s[1..]);
      assert s == [s[0]] + s[1..];
      if s[0] != ':' {
        var parts := Split(s);
        assert parts[1..] == rest[1..];
        if |rest| > 1 {
          assert Join(rest) == rest[0] + ":" + Join(rest[1..]);
        }
      }
    }
  }

  /** `timeToSeconds`: two parts are `MM:SS`, three are `HH:MM:SS`, anything else is 0. */
  function TimeToSeconds(timeStr: TimeText): nat
  {
    if timeStr == [] then 0
    else
      var parts := Split(timeStr);
      if |parts| == 2 then DigitsValue(parts[0]) * 60 + DigitsValue(parts[1])
      else if |parts| == 3 then DigitsValue(parts[0]) * 3600 + DigitsValue(parts[1]) * 60 + DigitsValue(parts[2])
      else 0
  }

  lemma DigitsHaveNoColon(s: string)
    requires IsDigits(s)
    ensures ':' !in s
  {
    assert forall i :: 0 <= i < |s| ==> s[i] != ':';
  }

  lemma {:induction false} SplitNoColon(a: string)
    requires ':' !in a
    ensures Split(a) == [a]
  {
    if a != [] {
      SplitNoColon(a[1..]);
      assert a == [a[0]] + a[1..];
    }
  }

  lemma {:induction false} SplitAfter(a: string, b: string)
    requires ':' !in a
    ensures Split(a + ":" + b) == [a] + Split(b)
  {
    var s := a + ":" + b;
    if a == [] {
      assert s[1..] == b;
    } else {
      assert s[1..] == a[1..] + ":" + b;
      SplitAfter(a[1..], b);
      assert a == [a[0]] + a[1..];
    }
  }

  /** A two-part string parses to minutes * 60 + seconds. */
  lemma ParseTwoParts(m: string, s: string)
    requires IsDigits(m) && IsDigits(s)
    ensures IsTimeText(m + ":" + s)
    ensures TimeToSeconds(m + ":" + s) == DigitsValue(m) * 60 + DigitsValue(s)
  {
    assert IsTimeText(m) && IsTimeText(s);
    JoinedTimeText(m, s);
    DigitsHaveNoColon(m);
    DigitsHaveNoColon(s);
    SplitTwo(m, s);
  }

  lemma SplitTwo(m: string, s: string)
    requires ':' !in m && ':' !in s
    ensures Split(m + ":" + s) == [m, s]
  {
    SplitAfter(m, s);
    SplitNoColon(s);
  }

  /** A three-part string parses to hours * 3600 + minutes * 60 + seconds. */
  lemma ParseThreeParts(h: string, m: string, s: string)
    requires IsDigits(h) && IsDigits(m) && IsDigits(s)
    ensures IsTimeText(h + ":" + m + ":" + s)
    ensures TimeToSeconds(h + ":" + m + ":" + s) == DigitsValue(h) * 3600 + DigitsValue(m) * 60 + DigitsValue(s)
  {
    var ms := m + ":" + s;
    var t := h + ":" + ms;
    assert h + ":" + m + ":" + s == t;
    assert IsTimeText(h) && IsTimeText(m) && IsTimeText(s);
    JoinedTimeText(m, s);
    JoinedTimeText(h, ms);
    DigitsHaveNoColon(h);
    DigitsHaveNoColon(m);
    DigitsHaveNoColon(s);
    SplitTwo(m, s);
    SplitAfter(h, ms);
    ThreePartsValue(t, [h, m, s]);
  }

  lemma ThreePartsValue(t: TimeText, parts: seq<string>)
    requires |t| > 0 && Split(t) == parts && |parts| == 3
    ensures IsDigits(parts[0]) && IsDigits(parts[1]) && IsDigits(parts[2])
    ensures TimeToSeconds(t) == DigitsValue(parts[0]) * 3600 + DigitsValue(parts[1]) * 60 + DigitsValue(parts[2])
  {
  }

  /** The empty string, and any string without exactly one or two ':', parse to 0. */
  lemma ParseOtherShapes(t: TimeText)
    requires t == [] || |Split(t)| !in {2, 3}
    ensures TimeToSeconds(t) == 0
  {
  }

  /** Example: minutes and seconds. */
  lemma ParseMinutesSeconds()
    ensures TimeToSeconds("01:30") == 90
  {
    ParseTwoParts("01", "30");
    assert "01" + ":" + "30" == "01:30";
  }

  /** Example: hours, minutes and seconds. */
  lemma ParseHoursMinutesSeconds()
    ensures TimeToSeconds("01:02:03") == 3723
  {
    ParseThreeParts("01", "02", "03");
    assert "01" + ":" + "02" + ":" + "03" == "01:02:03";
  }

  /** Example: a single part is neither `MM:SS` nor `HH:MM:SS`. */
  lemma ParseSinglePart()
    ensures TimeToSeconds("42") == 0
  {
    SplitNoColon("42");
  }

  /**
   * Example: the minutes field is not capped, so 6000 seconds is one hundred
   * minutes. The value is passed as a parameter fixed by `requires` only so that
   * the verifier does not unfold the literal call eagerly.
   */
  lemma FormatHundredMinutes(n: int)
    requires n == 6000
    ensures FormatSecondsToMMSS(n) == "100:00"
  {
    ShowHundred();
    assert n / 60 == 100 && n % 60 == 0;
    assert Field(0) == "00";
    assert Field(100) == "100";
  }

  lemma ShowHundred()
    ensures ShowNat(100) == "100"
  {
    assert ShowNat(1) == "1";
    assert ShowNat(10) == "10";
  }

  /** Example: one negative input, an instance of the first postcondition of `FormatSecondsToMMSS`. */
  lemma FormatNegative()
    ensures FormatSecondsToMMSS(-5) == "00:00"
  {
  }

  /** Whatever shows `minutes` and `secs` parses back to `minutes * 60 + secs`. */
  lemma ParseClock(r: TimeText, minutes: nat, secs: nat)
    requires ShowsClock(r, minutes, secs)
    ensures TimeToSeconds(r) == minutes * 60 + secs
  {
    var mm, ss := r[..|r| - 3], r[|r| - 2..];
    assert r == mm + ":" + ss;
    ParseTwoParts(mm, ss);
  }

  /** Parsing a formatted time gives back the seconds. */
  lemma RoundTrip(n: nat)
    ensures TimeToSeconds(FormatSecondsToMMSS(n)) == n
  {
    ParseClock(FormatSecondsToMMSS(n), n / 60, n % 60);
  }

  lemma DigitRoundTrip(c: char)
    requires IsDigit(c)
    ensures DigitChar(DigitValue(c)) == c
  {
  }

  lemma TwoDigitsValue(d: string)
    requires |d| == 2 && IsDigits(d)
    ensures DigitsValue(d) == DigitValue(d[0]) * 10 + DigitValue(d[1])
  {
    assert d[..1][..0] == [];
    assert DigitsValue(d[..1]) == DigitValue(d[0]);
  }

  /** A two-digit field is what `Field` prints for the number it denotes. */
  lemma {:induction false} TwoDigitsCanonical(d: string)
    requires |d| == 2 && IsDigits(d)
    ensures Field(DigitsValue(d)) == d
  {
    var a, b := DigitValue(d[0]), DigitValue(d[1]);
    TwoDigitsValue(d);
    DigitRoundTrip(d[0]);
    DigitRoundTrip(d[1]);
    var n := a * 10 + b;
    assert n / 10 == a && n % 10 == b;
    if a == 0 {
      assert ShowNat(n) == [d[1]];
    } else {
      assert ShowNat(n) == ShowNat(a) + [DigitChar(b)];
      assert ShowNat(n) == d;
    }
  }

  lemma DivMod60(q: nat, r: nat)
    requires r < 60
    ensures (q * 60 + r) / 60 == q && (q * 60 + r) % 60 == r
  {
  }

  /** A canonical `MM:SS` string (two-digit fields, seconds below 60) survives parse then format. */
  lemma FormatAfterParse(m: string, s: string)
    requires |m| == 2 && |s| == 2 && IsDigits(m) && IsDigits(s)
    requires DigitsValue(s) < 60
    ensures IsTimeText(m + ":" + s)
    ensures FormatSecondsToMMSS(TimeToSeconds(m + ":" + s)) == m + ":" + s
  {
    var a, b := DigitsValue(m), DigitsValue(s);
    ParseTwoParts(m, s);
    var n := TimeToSeconds(m + ":" + s);
    assert n == a * 60 + b;
    FormatOfClock(n, a, b);
    TwoDigitsCanonical(m);
    TwoDigitsCanonical(s);
  }

  /** Whole minutes and seconds below 60 are formatted field by field. */
  lemma FormatOfClock(n: nat, a: nat, b: nat)
    requires b < 60 && n == a * 60 + b
    ensures FormatSecondsToMMSS(n) == Field(a) + ":" + Field(b)
  {
    DivMod60(a, b);
    assert n / 60 == a && n % 60 == b;
  }
}
