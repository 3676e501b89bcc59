/**
 * The capture policy of the render loop: when to save the accumulated
 * image, and the file name it is saved under ("diamond_<mode>_<%04d>.ppm").
 */
module Capture {

  /** Captures happen on every positive multiple of this many frames. */
  const CaptureInterval: nat := 100

  /** The per-mode labels, indexed by the render mode. */
  const ModeNames: seq<string> := ["brilliance", "diffuse", "bounces", "fire"]

  /** A capture is due when the counter is a positive multiple of 100. */
  predicate ShouldCapture(counter: nat)
  {
    counter >= CaptureInterval && counter % CaptureInterval == 0
  }

  /** Exactly the counters 100, 200, 300, ... trigger a capture. */
  lemma ShouldCaptureMultiples(counter: nat, k: nat)
    ensures ShouldCapture(CaptureInterval * (k + 1))
    ensures ShouldCapture(counter) ==> counter == CaptureInterval * (counter / CaptureInterval) && counter / CaptureInterval >= 1
    ensures counter % CaptureInterval != 0 ==> !ShouldCapture(counter)
    ensures !ShouldCapture(0)
  {
  }

  lemma ShouldCaptureExamples()
    ensures !ShouldCapture(0) && !ShouldCapture(99) && !ShouldCapture(150)
    ensures ShouldCapture(100) && ShouldCapture(200) && ShouldCapture(1000)
  {
  }

  // ---------------------------------------------------------------------
  // Decimal formatting
  // ---------------------------------------------------------------------

  predicate IsDigit(c: char) { '0' <= c <= '9' }

  function DigitChar(d: nat): (c: char)
    requires d < 10
    ensures IsDigit(c)
  {
    ('0' as int + d) as char
  }

  function DigitValue(c: char): nat
    requires IsDigit(c)
  {
    c as int - '0' as int
  }

  /** The decimal representation of n, as `%d` prints it: at least one
      digit, no leading zero except for 0 itself. */
  function Decimal(n: nat): (s: string)
    ensures |s| >= 1
    ensures forall i :: 0 <= i < |s| ==> IsDigit(s[i])
    ensures n >= 10 ==> s[0] != '0'
    decreases n
  {
    if n < 10 then [DigitChar(n)] else Decimal(n / 10) + [DigitChar(n % 10)]
  }

  /** The value of a digit string, most significant digit first. */
  function ParseDecimal(s: string): nat
    requires forall i :: 0 <= i < |s| ==> IsDigit(s[i])
    decreases |s|
  {
    if s == [] then 0 else ParseDecimal(s[..|s| - 1]) * 10 + DigitValue(s[|s| - 1])
  }

  function Zeros(k: nat): (s: string)
    ensures |s| == k
    ensures forall i :: 0 <= i < k ==> s[i] == '0'
  {
    seq(k, _ => '0')
  }

  /** `%04d`: the decimal digits, padded on the left with zeros to four
      characters; a longer number keeps all its digits. */
  function Pad4(n: nat): (s: string)
    ensures |s| >= 4
    ensures forall i :: 0 <= i < |s| ==> IsDigit(s[i])
  {
    var digits := Decimal(n);
    if |digits| < 4 then Zeros(4 - |digits|) + digits else digits
  }

  lemma {:induction false} DecimalRoundTrip(n: nat)
    ensures ParseDecimal(Decimal(n)) == n
    decreases n
  {
    if n >= 10 {
      var s := Decimal(n);
      assert s[..|s| - 1] == Decimal(n / 10);
      DecimalRoundTrip(n / 10);
    }
  }

  lemma {:induction false} ZerosParse(k: nat)
    ensures ParseDecimal(Zeros(k)) == 0
  {
    if k > 0 {
      assert Zeros(k)[..k - 1] == Zeros(k - 1);
      ZerosParse(k - 1);
    }
  }

  /** Leading zeros do not change the value of a digit string. */
  lemma {:induction false} LeadingZerosParse(k: nat, s: string)
    requires forall i :: 0 <= i < |s| ==> IsDigit(s[i])
    ensures ParseDecimal(Zeros(k) + s) == ParseDecimal(s)
    decreases |s|
  {
    if s == [] {
      assert Zeros(k) + s == Zeros(k);
      ZerosParse(k);
    } else {
      var t := Zeros(k) + s;
      assert t[..|t| - 1] == Zeros(k) + s[..|s| - 1];
      LeadingZerosParse(k, s[..|s| - 1]);
    }
  }

  /** Reading the padded counter back gives the counter. */
  lemma Pad4RoundTrip(n: nat)
    ensures ParseDecimal(Pad4(n)) == n
  {
    DecimalRoundTrip(n);
    if |Decimal(n)| < 4 {
      LeadingZerosParse(4 - |Decimal(n)|, Decimal(n));
    }
  }

  /** Numbers below 10^k have at most k decimal digits. */
  lemma {:induction false} DecimalLength(n: nat, k: nat, bound: nat)
    requires 1 <= k && n < bound && bound == Pow10(k)
    ensures |Decimal(n)| <= k
    decreases k
  {
    if n >= 10 {
      assert n / 10 < Pow10(k - 1);
      DecimalLength(n / 10, k - 1, Pow10(k - 1));
    }
  }

  function Pow10(k: nat): (p: nat)
    ensures p >= 1
  {
    if k == 0 then 1 else 10 * Pow10(k - 1)
  }

  /** The padded counter has exactly four characters below 10000 and the
      plain decimal digits from 1000 on. */
  lemma Pad4Shape(n: nat)
    ensures n < 10000 ==> |Pad4(n)| == 4
    ensures n >= 1000 ==> Pad4(n) == Decimal(n)
  {
    if n < 10000 {
      DecimalLength(n, 4, 10000);
    }
    if n >= 1000 {
      DecimalAtLeast(n, 3);
    }
  }

  lemma {:induction false} DecimalAtLeast(n: nat, k: nat)
    requires n >= Pow10(k)
    ensures |Decimal(n)| >= k + 1
    decreases k
  {
    if k > 0 {
      DecimalAtLeast(n / 10, k - 1);
    }
  }

  lemma Pad4Examples()
    ensures Pad4(0) == "0000"
    ensures Pad4(400) == "0400"
    ensures Pad4(1000) == "1000"
  {
    assert Decimal(400) == Decimal(40) + ['0'];
    assert Decimal(40) == Decimal(4) + ['0'];
    assert Decimal(1000) == Decimal(100) + ['0'];
    assert Decimal(100) == Decimal(10) + ['0'];
    assert Decimal(10) == Decimal(1) + ['0'];
  }

  // ---------------------------------------------------------------------
  // Capture file name
  // ---------------------------------------------------------------------

  /** "diamond_" + mode label + "_" + `%04d` of the counter + ".ppm". */
  function CaptureFilename(mode: int, counter: nat): string
    requires 0 <= mode < |ModeNames|
  {
    "diamond_" + ModeNames[mode] + "_" + Pad4(counter) + ".ppm"
  }

  /** Mode 3 at counter 400. */
  lemma CaptureFilenameFire()
    ensures CaptureFilename(3, 400) == "diamond_fire_0400.ppm"
  {
    Pad4Examples();
    assert ModeNames[3] == "fire";
  }

  /** Mode 0 at counter 1000: four digits need no padding. */
  lemma CaptureFilenameBrilliance()
    ensures CaptureFilename(0, 1000) == "diamond_brilliance_1000.ppm"
  {
    Pad4Examples();
    assert ModeNames[0] == "brilliance";
  }

  /** Every counter a 32-bit frame index can hold gives a name shorter than
      the 64-byte buffer it is formatted into, so the name is never cut off. */
  lemma CaptureFilenameFits(mode: int, counter: nat)
    requires 0 <= mode < |ModeNames|
    requires counter < 0x1_0000_0000
    ensures |CaptureFilename(mode, counter)| < 64
  {
    assert Pow10(10) == 10000000000;
    DecimalLength(counter, 10, Pow10(10));
    Pad4Shape(counter);
  }

  /** Characters 0 and 7 of "<label>_" followed by at least four more
      characters identify the mode. */
  lemma ModeNameKey(mode: int, rest: string)
    requires 0 <= mode < |ModeNames|
    requires |rest| >= 4
    ensures var u := ModeNames[mode] + "_" + rest;
      |u| > 7 &&
      (mode == 0 <==> u[0] == 'b' && u[7] == 'n') &&
      (mode == 1 <==> u[0] == 'd') &&
      (mode == 2 <==> u[0] == 'b' && u[7] == '_') &&
      (mode == 3 <==> u[0] == 'f')
  {
  }

  /** Between "diamond_" and ".ppm" a capture file name holds the mode
      label, "_" and the padded counter. */
  lemma FilenameMiddle(mode: int, counter: nat)
    requires 0 <= mode < |ModeNames|
    ensures var s := CaptureFilename(mode, counter);
      |s| >= 12 && s[8..|s| - 4] == ModeNames[mode] + "_" + Pad4(counter)
  {
    var u := ModeNames[mode] + "_" + Pad4(counter);
    var s := CaptureFilename(mode, counter);
    assert s == "diamond_" + u + ".ppm";
    assert s[8..|s| - 4] == u;
  }

  /** "<label>_" + d determines d. */
  lemma LabelSuffix(name: string, d: string)
    ensures (name + "_" + d)[|name| + 1..] == d
  {
  }

  /** Different (mode, counter) pairs never share a capture file name. (The
      same pair does recur: every idle frame at 1000, and every run after a
      reset, saves to a name used before.) */
  lemma CaptureFilenameInjective(m1: int, c1: nat, m2: int, c2: nat)
    requires 0 <= m1 < |ModeNames| && 0 <= m2 < |ModeNames|
    requires CaptureFilename(m1, c1) == CaptureFilename(m2, c2)
    ensures m1 == m2 && c1 == c2
  {
    FilenameMiddle(m1, c1);
    FilenameMiddle(m2, c2);
    var d1, d2 := Pad4(c1), Pad4(c2);
    var u := ModeNames[m1] + "_" + d1;
    assert u == ModeNames[m2] + "_" + d2;
    ModeNameKey(m1, d1);
    ModeNameKey(m2, d2);
    assert m1 == m2;
    LabelSuffix(ModeNames[m1], d1);
    LabelSuffix(ModeNames[m1], d2);
    assert d1 == d2;
    Pad4RoundTrip(c1);
    Pad4RoundTrip(c2);
  }
}
