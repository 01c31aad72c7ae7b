/** The presentation helpers: clock values written as HHMM integers (800 is
    08:00) turned into "HH:MM" strings and into minutes since midnight, and
    teacher codes turned into display names. The conversions go through the
    decimal string of the number, padded to four digits, as the server does. */
module Presentation {

  predicate IsDigit(c: char)
  {
    '0' <= c <= '9'
  }

  predicate AllDigits(s: string)
  {
    forall i :: 0 <= i < |s| ==> IsDigit(s[i])
  }

  function DigitChar(n: nat): (c: char)
    requires n < 10
    ensures IsDigit(c) && c as int - '0' as int == n
  {
    ('0' as int + n) as char
  }

  function DigitValue(c: char): nat
    requires IsDigit(c)
  {
    c as int - '0' as int
  }

  function Pow10(k: nat): (p: nat)
    ensures p >= 1
  {
    if k == 0 then 1 else 10 * Pow10(k - 1)
  }

  /** `parseInt` of a string of decimal digits; leading zeros are allowed. */
  function ParseDigits(s: string): (v: nat)
    requires AllDigits(s)
    ensures v < Pow10(|s|)
    decreases |s|
  {
    if s == [] then 0
    else
      var v' := ParseDigits(s[..|s| - 1]);
      assert v' <= Pow10(|s| - 1) - 1;
      v' * 10 + DigitValue(s[|s| - 1])
  }

  /** The decimal string of a non-negative number (`toString()`): it reads back as the number. */
  function NatToString(n: nat): (s: string)
    ensures |s| >= 1 && AllDigits(s)
    ensures ParseDigits(s) == n
    decreases n
  {
    if n < 10 then [DigitChar(n)]
    else
      var init := NatToString(n / 10);
      var s := init + [DigitChar(n % 10)];
      assert s[..|s| - 1] == init;
      s
  }

  lemma {:induction false} NatToStringLength(n: nat, k: nat)
    requires 1 <= k && n < Pow10(k)
    ensures |NatToString(n)| <= k
    decreases k
  {
    if n >= 10 {
      assert k >= 2;
      assert n / 10 < Pow10(k - 1);
      NatToStringLength(n / 10, k - 1);
    }
  }

  /** `padStart(width, fill)`: `fill` repeated in front of `s` up to `width` characters. */
  function PadStart(s: string, width: nat, fill: char): (r: string)
    ensures |r| == if |s| < width then width else |s|
    ensures r[|r| - |s|..] == s
    ensures forall i :: 0 <= i < |r| - |s| ==> r[i] == fill
  {
    if |s| < width then seq(width - |s|, _ => fill) + s else s
  }

  /** Reading two digit strings one after the other: the first is shifted left by the length of the second. */
  lemma {:induction false} ParseDigitsAppend(a: string, b: string)
    requires AllDigits(a) && AllDigits(b)
    ensures AllDigits(a + b)
    ensures ParseDigits(a + b) == ParseDigits(a) * Pow10(|b|) + ParseDigits(b)
    decreases |b|
  {
    if b == [] {
      assert a + b == a;
    } else {
      var b' := b[..|b| - 1];
      var c := b[|b| - 1];
      assert b == b' + [c];
      assert AllDigits(b');
      ParseDigitsAppend(a, b');
      var ab' := a + b';
      assert a + b == ab' + [c];
      assert (ab' + [c])[..|ab'|] == ab';
      assert ParseDigits(ab' + [c]) == ParseDigits(ab') * 10 + DigitValue(c);
      assert ParseDigits(b) == ParseDigits(b') * 10 + DigitValue(c);
      ShiftByOneDigit(ParseDigits(a), Pow10(|b'|), ParseDigits(b'), DigitValue(c));
    }
  }

  lemma ShiftByOneDigit(x: nat, p: nat, y: nat, d: nat)
    ensures (x * p + y) * 10 + d == x * (10 * p) + (y * 10 + d)
  {
  }

  lemma {:induction false} ZerosReadAsZero(z: string)
    requires forall i :: 0 <= i < |z| ==> z[i] == '0'
    ensures AllDigits(z) && ParseDigits(z) == 0
    decreases |z|
  {
    if z != [] {
      ZerosReadAsZero(z[..|z| - 1]);
    }
  }

  /** The HHMM value as the server writes it before slicing: `toString().padStart(4, '0')`. */
  function Padded(t: nat): (p: string)
    ensures |p| >= 4 && AllDigits(p)
  {
    var s := NatToString(t);
    var p := PadStart(s, 4, '0');
    assert forall i :: 0 <= i < |p| ==> IsDigit(p[i]) by {
      forall i | 0 <= i < |p|
        ensures IsDigit(p[i])
      {
        if i >= |p| - |s| {
          assert p[i] == p[|p| - |s|..][i - (|p| - |s|)];
        }
      }
    }
    p
  }

  /** Up to 9999, the padded string has exactly four digits and reads back as `t`. */
  lemma PaddedReadsBack(t: nat)
    requires t <= 9999
    ensures |Padded(t)| == 4 && ParseDigits(Padded(t)) == t
  {
    var s := NatToString(t);
    assert Pow10(4) == 10000;
    NatToStringLength(t, 4);
    var p := Padded(t);
    var z := p[..|p| - |s|];
    assert p == z + s;
    ZerosReadAsZero(z);
    ParseDigitsAppend(z, s);
  }

  lemma DivModHundred(t: nat, q: nat, r: nat)
    requires t == q * 100 + r && r < 100
    ensures q == t / 100 && r == t % 100
  {
  }

  /** The two halves of the padded string are the hours and the minutes. */
  lemma {:induction false} PaddedHalves(t: nat)
    requires t <= 9999
    ensures ParseDigits(Padded(t)[..2]) == t / 100
    ensures ParseDigits(Padded(t)[2..]) == t % 100
  {
    PaddedReadsBack(t);
    var p := Padded(t);
    assert p == p[..2] + p[2..];
    ParseDigitsAppend(p[..2], p[2..]);
    assert Pow10(2) == 100;
    DivModHundred(t, ParseDigits(p[..2]), ParseDigits(p[2..]));
  }

  /** `formatTime`: the padded string with a colon after its first two characters.
      Whatever the value, the result starts with two digits and a colon and
      ends with at least two more digits. */
  function FormatTime(t: nat): (r: string)
    ensures |r| >= 5 && r[2] == ':'
    ensures AllDigits(r[..2]) && AllDigits(r[3..])
  {
    var p := Padded(t);
    var r := p[..2] + ":" + p[2..];
    assert r[..2] == p[..2] && r[3..] == p[2..];
    r
  }

  /** A formatted clock value has the shape "HH:MM" and its two halves read back
      as the hours and the minutes of `t`. */
  lemma {:induction false} FormatTimeReadsBack(t: nat)
    requires t <= 9999
    ensures var r := FormatTime(t);
      |r| == 5 && r[2] == ':' && AllDigits(r[..2]) && AllDigits(r[3..]) &&
      ParseDigits(r[..2]) == t / 100 && ParseDigits(r[3..]) == t % 100
  {
    PaddedHalves(t);
    PaddedReadsBack(t);
    var p := Padded(t);
    var r := FormatTime(t);
    assert r[..2] == p[..2];
    assert r[3..] == p[2..];
  }

  lemma FormatTimeExamples()
    ensures FormatTime(800) == "08:00"
    ensures FormatTime(1330) == "13:30"
  {
    assert NatToString(8) == "8";
    assert NatToString(80) == "80";
    assert NatToString(800) == "800";
    assert Padded(800) == "0800";
    assert NatToString(1) == "1";
    assert NatToString(13) == "13";
    assert NatToString(133) == "133";
    assert NatToString(1330) == "1330";
    assert Padded(1330) == "1330";
    assert FormatTime(800) == "08" + ":" + "00";
    assert FormatTime(1330) == "13" + ":" + "30";
  }

  /** Minutes since midnight of an HHMM value, computed as the server does:
      `parseInt` of the first two and of the remaining padded digits. */
  function ClockMinutes(t: nat): nat
  {
    var p := Padded(t);
    ParseDigits(p[..2]) * 60 + ParseDigits(p[2..])
  }

  /** For values up to 9999 the string computation is plain arithmetic. */
  lemma ClockMinutesArithmetic(t: nat)
    requires t <= 9999
    ensures ClockMinutes(t) == (t / 100) * 60 + t % 100
  {
    PaddedHalves(t);
  }

  /** A valid clock value: at most 23:59 with fewer than 60 minutes. */
  predicate IsClock(t: nat)
  {
    t / 100 < 24 && t % 100 < 60
  }

  /** Minutes since midnight keep the order of clock values and stay within one day. */
  lemma ClockMinutesOrdered(t1: nat, t2: nat)
    requires IsClock(t1) && IsClock(t2)
    ensures ClockMinutes(t1) < 24 * 60
    ensures t1 < t2 <==> ClockMinutes(t1) < ClockMinutes(t2)
  {
    ClockMinutesArithmetic(t1);
    ClockMinutesArithmetic(t2);
    var h1, m1, h2, m2 := t1 / 100, t1 % 100, t2 / 100, t2 % 100;
    assert t1 == h1 * 100 + m1 && t2 == h2 * 100 + m2;
    if h1 < h2 {
      assert h1 * 60 + m1 < (h1 + 1) * 60 <= h2 * 60;
      assert h1 * 100 + m1 < (h1 + 1) * 100 <= h2 * 100;
    } else if h2 < h1 {
      assert h2 * 60 + m2 < (h2 + 1) * 60 <= h1 * 60;
      assert h2 * 100 + m2 < (h2 + 1) * 100 <= h1 * 100;
    }
  }

  /** `resolveTeacher`: the table's name for a code when it has a non-empty one,
      otherwise the code itself. */
  function ResolveTeacher(teacherNames: map<string, string>, code: string): (name: string)
    ensures code in teacherNames && teacherNames[code] != "" ==> name == teacherNames[code]
    ensures code !in teacherNames ==> name == code
    ensures name == code || (code in teacherNames && name == teacherNames[code])
    ensures code != "" ==> name != ""
  {
    if code in teacherNames && teacherNames[code] != "" then teacherNames[code] else code
  }
}
