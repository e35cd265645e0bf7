/**
 Texts for which decfloat does not do what one would expect of it, followed through the
 scanner.
 */
module DecfloatExamples {
  import opened Wrappers
  import W = Words
  import opened Scaling
  import opened DigitFractions
  import opened ScaledDigits
  import opened DecimalText
  import opened Decfloat
  import opened DecfloatMeaning
  import opened DecfloatRounding

  // ---------- reading digits ----------

  // Digits from i up to e, where something else follows.
  lemma {:induction false} DigitRunTo(s: string, i: nat, e: nat)
    requires i <= e <= |s| && (forall j :: i <= j < e ==> IsDigit(s[j] as int)) && !IsDigit(CharAt(s, e))
    ensures |DigitRun(s, i)| == e - i
    ensures forall j :: i <= j < e ==> DigitRun(s, i)[j - i] == DigitOf(s[j] as int)
    decreases e - i
  {
    if i < e {
      DigitRunTo(s, i + 1, e);
    }
  }

  // Nine digits as an integer.
  lemma NineDigits(a: seq<nat>, v: nat)
    requires |a| == 9
    requires v == a[0] * 100000000 + a[1] * 10000000 + a[2] * 1000000 + a[3] * 100000 + a[4] * 10000 + a[5] * 1000
      + a[6] * 100 + a[7] * 10 + a[8]
    ensures Horner(a) == v
  {
    HornerNone();
    hide Horner;
    assert a[0..0] == [] && a[0..9] == a;
    HornerStep(a, 0, 0);
    HornerStep(a, 0, 1);
    HornerStep(a, 0, 2);
    HornerStep(a, 0, 3);
    HornerStep(a, 0, 4);
    HornerStep(a, 0, 5);
    HornerStep(a, 0, 6);
    HornerStep(a, 0, 7);
    HornerStep(a, 0, 8);
  }

  // ---------- a text whose exact return is wrong ----------

  /** Eight digits, the radix point, k zeros and a one. */
  function Overlong(k: nat): string {
    "16777217." + seq(k, i => '0') + "1"
  }

  lemma OverlongWhole(k: nat)
    ensures DigitRun(Overlong(k), 0) == [1, 6, 7, 7, 7, 2, 1, 7]
  {
    var s := Overlong(k);
    assert s[..9] == "16777217.";
    assert forall i :: 0 <= i < 9 ==> s[i] == s[..9][i];
    assert DigitRun(s, 8) == [];
    assert DigitRun(s, 6) == [1, 7];
    assert DigitRun(s, 4) == [7, 2, 1, 7];
    assert DigitRun(s, 2) == [7, 7, 7, 2, 1, 7];
  }

  lemma OverlongDigits(k: nat)
    ensures var m := MantissaAt(Overlong(k), 0);
      && m.whole == [1, 6, 7, 7, 7, 2, 1, 7] && m.point && |m.part| == k + 1
      && AllZero(m.part[..k]) && m.part[k] == 1 && m.Length() == |Overlong(k)|
  {
    var s := Overlong(k);
    OverlongWhole(k);
    assert s[8] == '.' && s[9 + k] == '1';
    assert forall i :: 9 <= i < 9 + k ==> s[i] == '0';
    DigitRunTo(s, 9, |s|);
    forall i | 0 <= i < k ensures DigitRun(s, 9)[i] == 0 {
      assert s[9 + i] == '0' && DigitRun(s, 9)[9 + i - 9] == DigitOf(s[9 + i] as int);
    }
    assert DigitRun(s, 9)[9 + k - 9] == 1;
  }

  /**
   16777217 is midway between two numbers of 24 bits.  Followed by enough zeros and a one it
   lies above the middle, but the return is the middle itself, which rounds down to even.
   */
  lemma OverlongMisread(k: nat, emin: int, pok: bool, fmt: Format)
    requires 8 + k >= Capacity(fmt) && emin <= -16
    ensures var s := Overlong(k);
      var o := Decide(s, 0, 24, emin, pok, fmt);
      o.Exact? && Returned(o) == 16777217.0 < TextValue(s, 0)
  {
    hide MantissaAt, DecideDigits, Returned, TextValue, FitsBuffer;
    OverlongRead(k, emin, pok, fmt);
    EarlyReturnMeaning(Overlong(k), 0, 24, emin, pok, fmt);
  }

  // The digits of the text, none of them a leading zero, with the radix point behind eight.
  lemma OverlongSignificant(k: nat)
    ensures var (s, m, ds) := (Overlong(k), MantissaAt(Overlong(k), 0), Significant(MantissaAt(Overlong(k), 0)));
      && ds == m.whole + m.part && m.Digits() == ds != []
      && PointOf(s, 0) == 8 && !Marked(s, EndOf(s, 0))
  {
    OverlongDigits(k);
    hide DigitRun, MantissaAt;
    var m := MantissaAt(Overlong(k), 0);
    assert m.Digits()[0..] == m.Digits();
  }

  lemma OverlongRead(k: nat, emin: int, pok: bool, fmt: Format)
    requires 8 + k >= Capacity(fmt) && emin <= -16
    ensures var (s, ds) := (Overlong(k), Significant(MantissaAt(Overlong(k), 0)));
      && Decide(s, 0, 24, emin, pok, fmt) == Exact(167772170, -1) && !FitsBuffer(ds, fmt)
      && Returned(Exact(167772170, -1)) == 16777217.0
  {
    hide DigitRun, MantissaAt, DecideDigits, Returned, PointOf, EndOf, Significant;
    var m, ds := MantissaAt(Overlong(k), 0), Significant(MantissaAt(Overlong(k), 0));
    OverlongDigits(k);
    OverlongSignificant(k);
    assert ds[..8] == m.whole && ds[8..8 + k] == m.part[..k];
    assert ds[Capacity(fmt)..][8 + k - Capacity(fmt)] == m.part[k];
    OverlongDecided(ds, k, emin, fmt);
  }

  lemma OverlongDecided(ds: seq<nat>, k: nat, emin: int, fmt: Format)
    requires |ds| == 9 + k && ds[..8] == [1, 6, 7, 7, 7, 2, 1, 7] && AllZero(ds[8..8 + k])
    requires 8 + k >= Capacity(fmt) && emin <= -16
    ensures DecideDigits(ds, 8, 24, emin, fmt) == Exact(167772170, -1)
    ensures Returned(Exact(167772170, -1)) == 16777217.0
  {
    var g := Group(ds);
    assert forall i :: 8 <= i < 8 + k ==> ds[i] == ds[8..8 + k][i - 8];
    assert g == [1, 6, 7, 7, 7, 2, 1, 7, 0];
    HornerOverlong();
    KeptFirst(ds, fmt);
    LastNonzeroIs(ds, Capacity(fmt), 8);
  }

  lemma HornerOverlong()
    ensures Horner([1, 6, 7, 7, 7, 2, 1, 7, 0]) == 167772170
  {
    NineDigits([1, 6, 7, 7, 7, 2, 1, 7, 0], 167772170);
  }

  lemma LastNonzeroIs(ds: seq<nat>, n: nat, l: nat)
    requires 0 < l <= n <= |ds| && ds[l - 1] != 0 && forall i :: l <= i < n ==> ds[i] == 0
    ensures LastNonzero(ds, n) == l
  {
  }

  // ---------- a text that makes a digit of 10^9 ----------

  lemma DigitsOnly(s: string, ds: seq<nat>)
    requires |ds| == |s| && forall i :: 0 <= i < |s| ==> IsDigit(s[i] as int) && DigitOf(s[i] as int) == ds[i]
    ensures MantissaAt(s, 0) == Mantissa(ds, false, [])
  {
    DigitRunTo(s, 0, |s|);
    hide DigitRun;
    assert forall i :: 0 <= i < |s| ==> DigitRun(s, 0)[i - 0] == ds[i];
    assert DigitRun(s, 0) == ds;
  }

  lemma TextDigits()
    ensures var m := MantissaAt("1862645150", 0);
      !m.point && m.Digits() == [1, 8, 6, 2, 6, 4, 5, 1, 5, 0]
  {
    hide MantissaAt;
    DigitsOnly("1862645150", [1, 8, 6, 2, 6, 4, 5, 1, 5, 0]);
  }

  lemma HornerText()
    ensures Horner([1, 8, 6, 2, 6, 4, 5, 1, 5]) == 186264515
  {
    NineDigits([1, 8, 6, 2, 6, 4, 5, 1, 5], 186264515);
  }

  lemma TextWords()
    ensures Pack([1, 8, 6, 2, 6, 4, 5, 1, 5, 0]) == [186264515, 0]
  {
    hide Horner, Pack;
    var a: seq<nat>, b: seq<nat> := [1, 8, 6, 2, 6, 4, 5, 1, 5], [0];
    assert a + b == [1, 8, 6, 2, 6, 4, 5, 1, 5, 0];
    PackAppend(a, b);
    PackGroup(a);
    PackGroup(b);
    HornerText();
    assert Group(a) == a && Group(b) == Zeros(9);
    HornerZeros(9);
  }

  lemma {:induction false} HornerZeros(k: nat)
    ensures Horner(Zeros(k)) == 0
  {
    if k > 0 {
      HornerZeros(k - 1);
    }
  }

  lemma TextAligned()
    ensures Align(Num([186264515, 0], 10, 0)) == Num([1, 862645150], 18, 0)
  {
    hide DivDigits, LeadingZeros, TenTo;
    var q := TextDivided();
    assert Divided([186264515, 0], TenTo(8)) == q by { assert q.digits[0..] == q.digits; }
  }

  lemma TextDivided() returns (q: Quotient)
    ensures TenTo(8) == 100000000 && q == Quotient([1, 862645150], 0) == DivDigits([186264515, 0], 0, TenTo(8))
    ensures LeadingZeros(q.digits) == 0
  {
    assert TenTo(8) == 100000000 by { assert TenTo(4) == 10000; }
    hide DivDigits, TenTo;
    DivTwo(186264515, 0, 100000000);
    q := Quotient([1, 862645150], 0);
  }

  lemma DivTwo(a: nat, b: nat, p: nat)
    requires p > 0
    ensures DivDigits([a, b], 0, p)
         == Quotient([DivDigit(a, p).0, DivDigit(b, p).0 + DivDigit(a, p).1], DivDigit(b, p).1)
  {
    hide DivDigit;
    var s, low, high := [a, b], DivDigit(a, p).1, DivDigit(b, p).1;
    assert s[1..] == [b] && [b][1..] == [];
    assert DivDigits([], high, p) == Quotient([], high);
    assert DivDigits([b], low, p) == Quotient([DivDigit(b, p).0 + low], high);
  }

  lemma TextMultiplied()
    ensures Multiplied([1, 862645150]) == Product(0, [BASE, 412876800])
  {
    var s: seq<nat> := [1, 862645150];
    assert s[1..] == [862645150] && s[1..][1..] == [];
    assert MulDigits(s[1..][1..]) == Product(0, []);
    assert MulDigits(s) == Product(0, [BASE, 412876800]);
  }

  lemma TextRead(pok: bool)
    ensures var (s, ds) := ("1862645150", [1, 8, 6, 2, 6, 4, 5, 1, 5, 0]);
      && Read(s, 0, Binary64) == Num([186264515, 0], 10, 0)
      && forall emin :: emin < 0 ==> Decide(s, 0, 53, emin, pok, Binary64) == DecideDigits(ds, 10, 53, emin, Binary64)
  {
    hide DigitRun, Pack, LastNonzero, DecideDigits;
    var s, ds: seq<nat> := "1862645150", [1, 8, 6, 2, 6, 4, 5, 1, 5, 0];
    TextDigits();
    TextWords();
    assert ds[0..] == ds;
    assert EndOf(s, 0) == 10 && !Marked(s, 10);
    assert Significant(MantissaAt(s, 0)) == ds;
    assert PointOf(s, 0) == 10;
  }

  lemma TextGoesOn(emin: int)
    requires emin <= -20
    ensures DecideDigits([1, 8, 6, 2, 6, 4, 5, 1, 5, 0], 10, 53, emin, Binary64).Scaled?
  {
    var ds: seq<nat> := [1, 8, 6, 2, 6, 4, 5, 1, 5, 0];
    LastNonzeroIs(ds, 10, 9);
    hide LastNonzero, Horner;
  }

  /**
   The first upscale round of 1862645150 multiplies the digit 1 and a carry to exactly 10^9,
   which stays in the ring as a digit.
   */
  lemma DigitOfBase(emin: int, pok: bool)
    requires emin <= -20
    ensures var (s, fmt) := ("1862645150", Binary64);
      var n := Align(Read(s, 0, fmt));
      && Decide(s, 0, 53, emin, pok, fmt).Scaled?
      && n == Num([1, 862645150], 18, 0) && n.Valid() && NeedsUp(n, fmt)
      && UpStep(n, fmt.KMax() - 1) == Num([BASE, 412876800], 18, -29)
  {
    hide Decide, DecideDigits, Read, Align, Multiplied;
    TextRead(pok);
    TextGoesOn(emin);
    TextAligned();
    TextMultiplied();
  }

  // ---------- a text that fills the ring ----------

  /** 1125 significant digits, as many as the buffer of the 53-bit format takes: 1, zeros, 1. */
  function Crowded(): string {
    ".000000000" + "1" + seq(1123, i => '0') + "1"
  }

  lemma CrowdedChars()
    ensures var s := Crowded();
      && |s| == 1135 && s[0] == '.' && s[10] == '1' && s[1134] == '1'
      && forall i :: 1 <= i < 1134 && i != 10 ==> s[i] == '0'
  {
    var s := Crowded();
    assert s[..11] == ".0000000001";
    assert forall i :: 0 <= i < 11 ==> s[i] == s[..11][i];
  }

  lemma CrowdedPart()
    ensures var m := MantissaAt(Crowded(), 0);
      && m.whole == [] && m.part == Zeros(9) + [1] + Zeros(1123) + [1]
      && m.Length() == |Crowded()| == 1135
  {
    hide Zeros;
    var s := Crowded();
    CrowdedChars();
    DigitRunTo(s, 1, |s|);
    assert DigitRun(s, 0) == [];
    hide DigitRun, Crowded;
    var part, w: seq<nat> := DigitRun(s, 1), Zeros(9) + [1] + Zeros(1123) + [1];
    forall i | 0 <= i < 1134 ensures part[i] == w[i] {
      assert part[i + 1 - 1] == DigitOf(s[i + 1] as int);
    }
    assert part == w;
  }

  lemma CrowdedRead(emin: int, pok: bool)
    requires emin <= -2
    ensures var (s, ds) := (Crowded(), [1] + Zeros(1123) + [1]);
      && Significant(MantissaAt(s, 0)) == ds && PointOf(s, 0) == -9
      && Decide(s, 0, 53, emin, pok, Binary64) == DecideDigits(ds, -9, 53, emin, Binary64)
  {
    hide Zeros, DigitRun, DecideDigits;
    var s, ds := Crowded(), [1] + Zeros(1123) + [1];
    var m := MantissaAt(s, 0);
    CrowdedPart();
    assert m.Digits() == Zeros(9) + ds;
    assert m.Digits()[..9] == Zeros(9) && m.Digits()[9..] == ds;
    LeadingZerosAre(m.Digits(), 9);
    assert EndOf(s, 0) == 1135 && !Marked(s, 1135);
  }

  lemma {:induction false} PackZeros(k: nat)
    ensures Pack(Zeros(9 * k)) == Zeros(k)
  {
    if k > 0 {
      var s := Zeros(9 * k);
      assert s[9..] == Zeros(9 * (k - 1)) && s[..9] == Zeros(9);
      PackZeros(k - 1);
      HornerZeros(9);
      assert [0] + Zeros(k - 1) == Zeros(k);
    }
  }

  lemma HornerLeadingOne()
    ensures Horner([1, 0, 0, 0, 0, 0, 0, 0, 0]) == 100000000
  {
    NineDigits([1, 0, 0, 0, 0, 0, 0, 0, 0], 100000000);
  }

  lemma HornerTrailingOne()
    ensures Horner(Zeros(8) + [1]) == 1
  {
    HornerZeros(8);
    assert (Zeros(8) + [1])[..8] == Zeros(8);
  }

  lemma CrowdedWords()
    ensures Pack([1] + Zeros(1123) + [1]) == [100000000] + Zeros(123) + [1]
  {
    hide Zeros, Horner, Pack;
    var a: seq<nat>, z, b := [1, 0, 0, 0, 0, 0, 0, 0, 0], Zeros(9 * 123), Zeros(8) + [1];
    assert [1] + Zeros(1123) + [1] == a + (z + b);
    PackAppend(a, z + b);
    PackAppend(z, b);
    PackGroup(a);
    PackGroup(b);
    PackZeros(123);
    HornerLeadingOne();
    HornerTrailingOne();
    assert Group(a) == a && Group(b) == b;
  }

  // Without a carry from the right, the pass works on the left part alone.
  lemma {:induction false} MulAppend(h: seq<nat>, r: seq<nat>)
    requires MulDigits(r).carry == 0
    ensures MulDigits(h + r) == Product(MulDigits(h).carry, MulDigits(h).digits + MulDigits(r).digits)
  {
    if h == [] {
      assert h + r == r;
    } else {
      assert (h + r)[1..] == h[1..] + r;
      MulAppend(h[1..], r);
    }
  }

  // A stretch of zeros takes up the carry.
  lemma {:induction false} MulZeros(k: nat, t: seq<nat>)
    requires k > 0 && MulDigits(t).carry <= BASE
    ensures MulDigits(Zeros(k) + t) == Product(0, Zeros(k - 1) + [MulDigits(t).carry] + MulDigits(t).digits)
  {
    var s := Zeros(k) + t;
    if k == 1 {
      assert s[1..] == t;
    } else {
      assert s[1..] == Zeros(k - 1) + t;
      MulZeros(k - 1, t);
      assert [0] + Zeros(k - 2) == Zeros(k - 1);
    }
  }

  lemma RoundAt(n: Num, h: seq<nat>, k: nat, t: seq<nat>)
    requires n.digits == h + Zeros(k) + t && k > 0 && |n.digits| <= 127
    requires MulDigits(t).carry <= BASE && t != []
    requires MulDigits(t).digits != [] && MulDigits(t).digits[|MulDigits(t).digits| - 1] != 0
    ensures Multiplied(n.digits) ==
      Product(MulDigits(h).carry, MulDigits(h).digits + Zeros(k - 1) + [MulDigits(t).carry] + MulDigits(t).digits)
  {
    hide MulDigits;
    MulZeros(k, t);
    assert n.digits == h + (Zeros(k) + t);
    MulAppend(h, Zeros(k) + t);
    var m := MulDigits(h).digits + Zeros(k - 1) + [MulDigits(t).carry] + MulDigits(t).digits;
    assert MulDigits(n.digits).digits == m;
    assert m[|m| - 1] == MulDigits(t).digits[|MulDigits(t).digits| - 1];
  }

  lemma MulTwo(a: nat, b: nat)
    ensures var (c, d) := MulDigit(b, 0);
      MulDigits([b]) == Product(c, [d]) &&
      MulDigits([a, b]) == Product(MulDigit(a, c).0, [MulDigit(a, c).1, d])
  {
    assert [b][1..] == [] && [a, b][1..] == [b];
  }

  lemma MulThree(a: nat, b: nat, c: nat)
    ensures var m := MulDigits([b, c]);
      MulDigits([a, b, c]) == Product(MulDigit(a, m.carry).0, [MulDigit(a, m.carry).1] + m.digits)
  {
    assert [a, b, c][1..] == [b, c];
  }

  lemma RoundWithCarry(n: Num, c: nat, d: seq<nat>)
    requires Multiplied(n.digits) == Product(c, d) && c > 0 && |d| < 127
    ensures UpHasRoom(n, 127) && UpStep(n, 127) == Num([c] + d, n.rp + 9, n.e2 - 29)
  {
  }

  lemma CrowdedFirst(n: Num)
    requires n.digits == [100000000] + Zeros(123) + [1]
    ensures Multiplied(n.digits) == Product(53687091, [200000000] + Zeros(123) + [536870912])
  {
    hide Zeros;
    MulTwo(0, 100000000);
    MulTwo(0, 1);
    RoundAt(n, [100000000], 123, [1]);
    assert Zeros(122) + [0] == Zeros(123);
    assert [200000000] + Zeros(122) + [0] + [536870912] == [200000000] + Zeros(123) + [536870912];
  }

  lemma CrowdedSecond(n: Num)
    requires n.digits == [53687091, 200000000] + Zeros(123) + [536870912]
    ensures Multiplied(n.digits)
         == Product(28823037, [615171174, 400000000] + Zeros(122) + [288230376, 151711744])
  {
    hide Zeros;
    MulTwo(53687091, 200000000);
    MulTwo(0, 536870912);
    RoundAt(n, [53687091, 200000000], 123, [536870912]);
    assert Zeros(122) + [288230376] + [151711744] == Zeros(122) + [288230376, 151711744];
  }

  lemma CrowdedThird(n: Num)
    requires n.digits == [28823037, 615171174, 400000000] + Zeros(122) + [288230376, 151711744]
    ensures var m := Multiplied(n.digits);
      m.carry != 0 && |m.digits| == 127 && m.digits[125] == 910672534 && m.digits[126] == 362390528
  {
    hide Zeros, MulDigits, Multiplied;
    MulTwo(615171174, 400000000);
    MulThree(28823037, 615171174, 400000000);
    MulTwo(288230376, 151711744);
    RoundAt(n, [28823037, 615171174, 400000000], 122, [288230376, 151711744]);
  }

  /** The ring after two upscale rounds of the crowded text. */
  ghost function CrowdedRing(): Num {
    Num([28823037, 615171174, 400000000] + Zeros(122) + [288230376, 151711744], 9, -58)
  }

  lemma CrowdedGoesOn(emin: int)
    requires emin <= -2
    ensures DecideDigits([1] + Zeros(1123) + [1], -9, 53, emin, Binary64).Scaled?
  {
    hide Zeros;
    var ds := [1] + Zeros(1123) + [1];
    assert ds[1124] == 1;
    LastNonzeroIs(ds, 1125, 1125);
    hide LastNonzero, Horner;
  }

  /**
   Every digit of the text fits and two upscale rounds are exact; in the third the ring is
   full, the last digit is merged into its neighbour, and the number left is not on the same
   side of every even integer in the last place as the number written.
   */
  lemma CrowdedLosesSides(emin: int, pok: bool)
    requires emin <= -2
    ensures var (s, fmt) := (Crowded(), Binary64);
      var (n, cap) := (Align(Read(s, 0, fmt)), fmt.KMax() - 1);
      && Decide(s, 0, 53, emin, pok, fmt).Scaled?
      && n.Value() == TextValue(s, 0) && NeedsUp(n, fmt) && NeedsUp(UpStep(n, cap), fmt)
      && UpStep(UpStep(n, cap), cap) == CrowdedRing()
    ensures var (m, cap) := (CrowdedRing(), Binary64.KMax() - 1);
      && Fits(m, Binary64) && NeedsUp(m, Binary64) && m.Value() == TextValue(Crowded(), 0)
      && !SameSides(m.Value(), UpStep(m, cap).Value(), UpStep(m, cap))
  {
    assert Binary64.KMax() == 128;
    hide *;
    var n := Num([100000000] + Zeros(123) + [1], -9, 0);
    CrowdedStart(emin, pok);
    CrowdedRounds(n);
  }

  lemma CrowdedStart(emin: int, pok: bool)
    requires emin <= -2
    ensures var (s, n) := (Crowded(), Num([100000000] + Zeros(123) + [1], -9, 0));
      Decide(s, 0, 53, emin, pok, Binary64).Scaled? && Align(Read(s, 0, Binary64)) == n && n.Value() == TextValue(s, 0)
  {
    hide Zeros, Decide, DecideDigits, Pack, TextValue, Num.Value, MantissaAt;
    CrowdedRead(emin, pok);
    CrowdedGoesOn(emin);
    CrowdedWords();
    ReadExactIff(Crowded(), 0, Binary64);
    assert Read(Crowded(), 0, Binary64) == Num([100000000] + Zeros(123) + [1], -9, 0);
  }

  lemma CrowdedRounds(n: Num)
    requires n == Num([100000000] + Zeros(123) + [1], -9, 0)
    ensures NeedsUp(n, Binary64) && NeedsUp(UpStep(n, 127), Binary64)
    ensures var m := CrowdedRing();
      && UpStep(UpStep(n, 127), 127) == m && m.Value() == n.Value() && Fits(m, Binary64) && NeedsUp(m, Binary64)
      && !SameSides(m.Value(), UpStep(m, 127).Value(), UpStep(m, 127))
  {
    hide Zeros, MulDigits, Multiplied, UpStep, UpHasRoom, Num.Value, SameSides;
    var r := Num([53687091, 200000000] + Zeros(123) + [536870912], 0, -29);
    var m := CrowdedRing();
    CrowdedFirst(n);
    RoundWithCarry(n, 53687091, [200000000] + Zeros(123) + [536870912]);
    assert UpStep(n, 127) == r;
    UpStepExactIff(n, 127);
    CrowdedSecond(r);
    RoundWithCarry(r, 28823037, [615171174, 400000000] + Zeros(122) + [288230376, 151711744]);
    assert UpStep(r, 127) == m;
    UpStepExactIff(r, 127);
    CrowdedMerged(m);
  }

  lemma CrowdedMerged(m: Num)
    requires m == CrowdedRing()
    ensures !SameSides(m.Value(), UpStep(m, 127).Value(), UpStep(m, 127))
  {
    hide Zeros, MulDigits, Multiplied, UpStep, Num.Value, SameSides;
    CrowdedThird(m);
    UpStepSidesIff(m, 127);
    OrOne(910672534);
  }

  // ---------- a tie that zeros behind it break ----------

  // 2^53 + 1, the middle of two numbers of 53 bits, with twelve zeros behind the radix point.
  const TIE: string := "9007199254740993.000000000000"

  function TieDigits(): seq<nat> {
    [9, 0, 0, 7, 1, 9, 9, 2, 5, 4, 7, 4, 0, 9, 9, 3, 0, 0, 0, 0, 0, 0, 0, 0, 0, 0, 0, 0]
  }

  predicate Spells(s: string, i: nat, ds: seq<nat>) {
    i + |ds| <= |s| && forall j :: i <= j < i + |ds| ==> IsDigit(s[j] as int) && DigitOf(s[j] as int) == ds[j - i]
  }

  lemma DigitsAndPoint(s: string, whole: seq<nat>, part: seq<nat>)
    requires |s| == |whole| + 1 + |part| && Spells(s, 0, whole) && s[|whole|] == '.' && Spells(s, |whole| + 1, part)
    ensures MantissaAt(s, 0) == Mantissa(whole, true, part)
  {
    RunSpells(s, 0, whole);
    RunSpells(s, |whole| + 1, part);
    hide DigitRun;
  }

  lemma {:induction false} RunSpells(s: string, i: nat, ds: seq<nat>)
    requires Spells(s, i, ds) && !IsDigit(CharAt(s, i + |ds|))
    ensures DigitRun(s, i) == ds
    decreases |ds|
  {
    if ds != [] {
      assert IsDigit(s[i] as int);
      RunSpells(s, i + 1, ds[1..]);
    }
  }

  lemma TieMantissa()
    ensures var m := MantissaAt(TIE, 0);
      && |m.whole| == 16 && m.point && m.Digits() == TieDigits() && m.Length() == 29 == |TIE|
  {
    hide MantissaAt;
    DigitsAndPoint(TIE, TieDigits()[..16], TieDigits()[16..]);
  }

  lemma HornerTie()
    ensures Horner([9, 0, 0, 7, 1, 9, 9, 2, 5]) == 900719925 && Horner([4, 7, 4, 0, 9, 9, 3, 0, 0]) == 474099300
  {
    NineDigits([9, 0, 0, 7, 1, 9, 9, 2, 5], 900719925);
    NineDigits([4, 7, 4, 0, 9, 9, 3, 0, 0], 474099300);
  }

  lemma TieWords()
    ensures Pack(TieDigits()) == [900719925, 474099300, 0, 0]
  {
    hide Horner, Pack;
    var a: seq<nat>, b: seq<nat> := [9, 0, 0, 7, 1, 9, 9, 2, 5], [4, 7, 4, 0, 9, 9, 3, 0, 0];
    assert TieDigits() == a + (b + (Zeros(9) + [0]));
    PackAppend(a, b + (Zeros(9) + [0]));
    PackAppend(b, Zeros(9) + [0]);
    PackAppend(Zeros(9), [0]);
    PackGroup(a);
    PackGroup(b);
    PackGroup(Zeros(9));
    PackGroup([0]);
    HornerTie();
    HornerZeros(9);
    assert Group(a) == a && Group(b) == b && Group(Zeros(9)) == Zeros(9) && Group([0]) == Zeros(9);
  }

  lemma TieRead(pok: bool)
    ensures Read(TIE, 0, Binary64) == Num([900719925, 474099300, 0, 0], 16, 0)
    ensures forall emin :: emin < 0 ==>
      Decide(TIE, 0, 53, emin, pok, Binary64) == DecideDigits(TieDigits(), 16, 53, emin, Binary64)
    ensures Significant(MantissaAt(TIE, 0)) == TieDigits() && PointOf(TIE, 0) == 16
  {
    hide DigitRun, Pack, LastNonzero, DecideDigits, MantissaAt;
    TieMantissa();
    TieWords();
    assert TieDigits()[0..] == TieDigits();
    assert EndOf(TIE, 0) == 29 && !Marked(TIE, 29);
    assert Significant(MantissaAt(TIE, 0)) == TieDigits();
  }

  lemma TieGoesOn(emin: int)
    requires emin <= -32
    ensures DecideDigits(TieDigits(), 16, 53, emin, Binary64).Scaled?
  {
    LastNonzeroIs(TieDigits(), 28, 16);
    hide LastNonzero, Horner, Kept;
  }

  lemma DivFour(a: nat, b: nat, p: nat)
    requires p > 0
    ensures DivDigits([a, b, 0, 0], 0, p)
         == Quotient([DivDigit(a, p).0, DivDigit(b, p).0 + DivDigit(a, p).1, DivDigit(b, p).1, 0], 0)
  {
    assert DivDigit(0, p) == (0, 0);
    DivTwo(a, b, p);
    hide DivDigits;
    DivDigitsSnoc([a, b], 0, 0, p);
    DivDigitsSnoc([a, b, 0], 0, 0, p);
    assert [a, b] + [0] == [a, b, 0] && [a, b, 0] + [0] == [a, b, 0, 0];
  }

  lemma TieAligned()
    ensures Align(Num([900719925, 474099300, 0, 0], 16, 0)) == Num([9007199, 254740993, 0, 0], 18, 0)
  {
    hide DivDigits, LeadingZeros, TenTo;
    var q := Quotient([9007199, 254740993, 0, 0], 0);
    HundredIs();
    DivFour(900719925, 474099300, 100);
    NoLeadingZero(q.digits);
    assert Divided([900719925, 474099300, 0, 0], TenTo(2)) == q by { assert q.digits[0..] == q.digits; }
  }

  lemma HundredIs()
    ensures TenTo(2) == 100
  {
  }

  lemma NoLeadingZero(s: seq<nat>)
    requires s != [] && s[0] > 0
    ensures LeadingZeros(s) == 0
  {
  }

  lemma TieHalved()
    ensures DownStep(Num([9007199, 254740993, 0, 0], 18, 0), 1, 127)
         == Num([4503599, 627370496, 500000000, 0], 18, 1)
  {
    hide DivDigits, LeadingZeros;
    var q := Quotient([4503599, 627370496, 500000000, 0], 0);
    Divisors();
    DivFour(9007199, 254740993, 2);
    NoLeadingZero(q.digits);
    assert Divided([9007199, 254740993, 0, 0], 2) == q by { assert q.digits[0..] == q.digits; }
  }

  lemma TieFinal()
    ensures var n := Num([900719925, 474099300, 0, 0], 16, 0);
      n.Valid() && Final(n, Binary64) == Num([4503599, 627370496, 500000000, 0], 18, 1)
  {
    hide DownStep, Align;
    TieAligned();
    TieHalved();
    var a, r := Num([9007199, 254740993, 0, 0], 18, 0), Num([4503599, 627370496, 500000000, 0], 18, 1);
    TieCompared();
    assert !NeedsUp(a, Binary64) && Upscale(a, Binary64) == a;
    UpscaleAboveFloor(a, Binary64);
    DownStepKeepsFloor(a, Binary64);
    assert Downscale(r, Binary64) == r;
    assert Downscale(a, Binary64) == Downscale(r, Binary64);
  }

  lemma TieCompared()
    ensures Exceeds([9007199, 254740993, 0, 0], Binary64.Top())
    ensures !Exceeds([4503599, 627370496, 500000000, 0], Binary64.Top())
  {
    var s: seq<nat> := [9007199, 254740993, 0, 0];
    assert s[1..][0] == 254740993 && Binary64.Top()[1..] == [254740991];
  }

  // The digit behind the significand is one half, and the zero word behind that counts as more.
  lemma TieTail()
    ensures var r := Num([4503599, 627370496, 500000000, 0], 18, 1);
      && Tail(r, Binary64) == 0.5 && Quarters(r.digits, 2) == 3
      && Significand(r, Binary64) == 0x10_0000_0000_0000
  {
    var r := Num([4503599, 627370496, 500000000, 0], 18, 1);
    assert r.digits[2..] == [500000000, 0];
    FracShort(500000000, 0);
    assert Lead(r.digits, 1) == 4503599;
  }

  /**
   9007199254740993 with twelve zeros behind its radix point is the middle between two numbers of 53
   bits, and the scanner has it as the significand 2^52 and exactly one half; but because of the zeros
   it goes on with three quarters, and not to the even neighbour.
   */
  lemma TieBroken(emin: int, pok: bool)
    requires emin <= -32
    ensures Decide(TIE, 0, 53, emin, pok, Binary64).Scaled?
    ensures var n := Read(TIE, 0, Binary64);
      && n.Valid() && |n.digits| <= Binary64.KMax() - 3
      && var r := Final(n, Binary64);
      && TextValue(TIE, 0) == Scale(Two, r.e2, Significand(r, Binary64) as real + 0.5)
      && Significand(r, Binary64) % 2 == 0 && Quarters(r.digits, Binary64.Words()) == 3
  {
    hide Decide, DecideDigits, Read, Final, TextValue, Scale, Significand, Tail, Quarters, Roundable, TellsTruth;
    TieRead(pok);
    TieGoesOn(emin);
    TieFinal();
    TieTail();
    RangeDecides(TIE, 0, 53, emin, pok, Binary64);
    TruthAtHalf(TextValue(TIE, 0), Final(Read(TIE, 0, Binary64), Binary64), Binary64);
  }

  lemma TruthAtHalf(v: real, r: Num, fmt: Format)
    requires TellsTruth(v, r, fmt) && Tail(r, fmt) == 0.5
    ensures v == Scale(Two, r.e2, Significand(r, fmt) as real + 0.5)
  {
    hide Scale, Significand, Tail;
  }
}
