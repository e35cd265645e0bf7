/**
 What a decimal numeral means: a run of digits with at most one radix point, then an
 optional exponent.  Nothing here knows about the scanner's buffer except Pack, the
 grouping of decimal digits into base-10^9 digits.
 */
module DecimalText {
  import opened Wrappers
  import opened Scaling
  import opened DigitFractions

  // c - '0' < 10U
  predicate IsDigit(c: int) {
    0 <= c - '0' as int < 10
  }

  function DigitOf(c: int): (d: nat)
    requires IsDigit(c)
    ensures d < 10
  {
    c - '0' as int
  }

  /** The digits of s from i up to the first character that is none. */
  function DigitRun(s: string, i: nat): (ds: seq<nat>)
    ensures i + |ds| <= |s| || ds == []
    decreases |s| - i
  {
    if i < |s| && IsDigit(CharAt(s, i)) then [DigitOf(CharAt(s, i))] + DigitRun(s, i + 1) else []
  }

  lemma {:induction false} DigitRunAt(s: string, i: nat, m: nat)
    ensures m < |DigitRun(s, i)| ==> IsDigit(CharAt(s, i + m)) && DigitOf(CharAt(s, i + m)) == DigitRun(s, i)[m]
    ensures m == |DigitRun(s, i)| ==> !IsDigit(CharAt(s, i + m))
    decreases |s| - i
  {
    if DigitRun(s, i) != [] && m > 0 {
      DigitRunAt(s, i + 1, m - 1);
    }
  }

  /** The mantissa that starts at i: the digits before and behind the radix point. */
  datatype Mantissa = Mantissa(whole: seq<nat>, point: bool, part: seq<nat>) {
    function Digits(): seq<nat> { whole + part }
    function Length(): nat { |whole| + |part| + if point then 1 else 0 }
  }

  function MantissaAt(s: string, i: nat): (m: Mantissa) {
    var whole := DigitRun(s, i);
    if CharAt(s, i + |whole|) == '.' as int then Mantissa(whole, true, DigitRun(s, i + |whole| + 1))
    else Mantissa(whole, false, [])
  }

  /** 0.d1d2d3... */
  ghost function DecimalFrac(ds: seq<nat>): real {
    if ds == [] then 0.0 else (ds[0] as real + DecimalFrac(ds[1..])) / 10.0
  }

  /** The number a mantissa with a decimal exponent stands for. */
  ghost function MantissaValue(m: Mantissa, exponent: int): real {
    Scale(Ten, |m.whole| + exponent, DecimalFrac(m.Digits()))
  }

  function Horner(ds: seq<nat>): nat {
    if ds == [] then 0 else Horner(ds[..|ds| - 1]) * 10 + ds[|ds| - 1]
  }

  ghost predicate AreDigits(ds: seq<nat>) {
    forall i :: 0 <= i < |ds| ==> ds[i] < 10
  }

  lemma {:induction false} DigitRunDigits(s: string, i: nat)
    ensures AreDigits(DigitRun(s, i))
    decreases |s| - i
  {
    if DigitRun(s, i) != [] {
      DigitRunDigits(s, i + 1);
    }
  }

  // ---------- grouping by nine ----------

  function Zeros(n: nat): (s: seq<nat>)
    ensures |s| == n && AllZero(s)
  {
    if n == 0 then [] else Zeros(n - 1) + [0]
  }

  /** The leading group, filled up with zeros on the right. */
  function Group(ds: seq<nat>): (g: seq<nat>)
    ensures |g| == 9
  {
    if |ds| >= 9 then ds[..9] else ds + Zeros(9 - |ds|)
  }

  function Pack(ds: seq<nat>): (p: seq<nat>)
    decreases |ds|
  {
    if ds == [] then [] else [Horner(Group(ds))] + Pack(if |ds| >= 9 then ds[9..] else [])
  }

  lemma {:induction false} HornerBound(ds: seq<nat>)
    requires AreDigits(ds)
    ensures Horner(ds) < TenTo(|ds|)
  {
    if ds != [] {
      HornerBound(ds[..|ds| - 1]);
    }
  }

  lemma {:induction false} HornerPositive(ds: seq<nat>)
    requires ds != [] && ds[0] > 0
    ensures Horner(ds) > 0
    decreases |ds|
  {
    if |ds| > 1 {
      HornerPositive(ds[..|ds| - 1]);
    }
  }

  lemma NineTens()
    ensures TenTo(9) == BASE
  {
    assert TenTo(3) == 1000;
    assert TenTo(6) == 1000000;
  }

  // A block of digits moves in front of the point by scaling.
  lemma {:induction false} FracBlock(block: seq<nat>, rest: seq<nat>)
    ensures Scale(Ten, |block|, DecimalFrac(block + rest)) == Horner(block) as real + DecimalFrac(rest)
    decreases |block|
  {
    if block == [] {
      assert block + rest == rest;
    } else {
      var b, d := block[..|block| - 1], block[|block| - 1];
      assert block + rest == b + ([d] + rest);
      FracBlock(b, [d] + rest);
      assert ([d] + rest)[1..] == rest;
    }
  }

  lemma {:induction false} DecimalAppendZeros(ds: seq<nat>, zeros: seq<nat>)
    requires AllZero(zeros)
    ensures DecimalFrac(ds + zeros) == DecimalFrac(ds)
  {
    if ds != [] {
      assert (ds + zeros)[1..] == ds[1..] + zeros;
      DecimalAppendZeros(ds[1..], zeros);
    } else if zeros != [] {
      assert ds + zeros == zeros && [] + zeros[1..] == zeros[1..];
      DecimalAppendZeros([], zeros[1..]);
    } else {
      assert ds + zeros == [];
    }
  }

  /** Grouping does not change the number. */
  lemma {:induction false} PackExact(ds: seq<nat>)
    requires AreDigits(ds)
    ensures Frac(Pack(ds)) == DecimalFrac(ds)
    ensures AtMost(Pack(ds), BASE - 1)
    ensures |Pack(ds)| == (|ds| + 8) / 9
    decreases |ds|
  {
    if ds != [] {
      var g, rest := Group(ds), if |ds| >= 9 then ds[9..] else [];
      if |ds| >= 9 {
        assert ds == g + rest;
      } else {
        DecimalAppendZeros(ds, Zeros(9 - |ds|));
        assert g == g + rest;
      }
      FracBlock(g, rest);
      SmallScales(DecimalFrac(g + rest));
      assert AreDigits(g);
      HornerBound(g);
      NineTens();
      PackExact(rest);
    }
  }

  lemma {:induction false} PackLength(ds: seq<nat>)
    ensures |Pack(ds)| == (|ds| + 8) / 9
    decreases |ds|
  {
    if |ds| >= 9 {
      PackLength(ds[9..]);
    }
  }

  // Whole groups can be packed one after the other.
  lemma {:induction false} PackAppend(ds: seq<nat>, more: seq<nat>)
    requires |ds| % 9 == 0
    ensures Pack(ds + more) == Pack(ds) + Pack(more)
    decreases |ds|
  {
    if ds == [] {
      assert ds + more == more;
    } else {
      assert (ds + more)[9..] == ds[9..] + more;
      assert (ds + more)[..9] == ds[..9];
      PackAppend(ds[9..], more);
    }
  }

  lemma PackGroup(g: seq<nat>)
    requires 0 < |g| <= 9
    ensures Pack(g) == [Horner(Group(g))]
  {
    if |g| == 9 {
      assert g[9..] == [] && g[..9] == g;
    }
  }

  // Leading zeros only move the radix point.
  lemma {:induction false} LeadingZerosMove(ds: seq<nat>, n: nat, e: int)
    requires n <= |ds| && AllZero(ds[..n])
    ensures Scale(Ten, e, DecimalFrac(ds)) == Scale(Ten, e - n, DecimalFrac(ds[n..]))
    decreases n
  {
    if n == 0 {
      assert ds[0..] == ds;
    } else {
      assert ds[0] == ds[..n][0] == 0;
      assert ds[1..][..n - 1] == ds[..n][1..];
      assert ds[1..][n - 1..] == ds[n..];
      LeadingZerosMove(ds[1..], n - 1, e - 1);
      ScaleInside(Ten, e - 1, DecimalFrac(ds));
    }
  }

  lemma {:induction false} DecimalZero(ds: seq<nat>)
    ensures DecimalFrac(ds) >= 0.0
    ensures DecimalFrac(ds) == 0.0 <==> AllZero(ds)
  {
    if ds != [] {
      DecimalZero(ds[1..]);
      assert AllZero(ds) <==> ds[0] == 0 && AllZero(ds[1..]) by {
        assert forall i :: 0 < i < |ds| ==> ds[i] == ds[1..][i - 1];
      }
    }
  }

  lemma {:induction false} DecimalBounds(ds: seq<nat>)
    requires AreDigits(ds)
    ensures DecimalFrac(ds) < 1.0
    ensures ds != [] && ds[0] > 0 ==> DecimalFrac(ds) >= 0.1
  {
    if ds != [] {
      DecimalBounds(ds[1..]);
      DecimalZero(ds[1..]);
    }
  }

  // ---------- exponents ----------

  const LLONG_MAX: nat := 0x7fff_ffff_ffff_ffff
  const INT_MAX: nat := 0x7fff_ffff

  /** The exponent scanexp accumulates: digits stop counting once it reaches LLONG_MAX/100. */
  function Saturated(ds: seq<nat>): nat {
    if ds == [] then 0
    else
      var v := Saturated(ds[..|ds| - 1]);
      if v < LLONG_MAX / 100 then 10 * v + ds[|ds| - 1] else v
  }

  /** Saturation changes only exponents that are astronomically large, and keeps them so. */
  lemma {:induction false} SaturatedMeaning(ds: seq<nat>)
    requires AreDigits(ds)
    ensures Saturated(ds) <= Horner(ds)
    ensures Saturated(ds) < LLONG_MAX / 10
    ensures Horner(ds) < LLONG_MAX / 100 ==> Saturated(ds) == Horner(ds)
    ensures Horner(ds) >= LLONG_MAX / 100 ==> Saturated(ds) >= LLONG_MAX / 100
    decreases |ds|
  {
    if ds != [] {
      assert AreDigits(ds[..|ds| - 1]);
      SaturatedMeaning(ds[..|ds| - 1]);
    }
  }

  datatype Exponent = NoExponent | Exponent(negative: bool, digits: seq<nat>) {
    function Scanned(): int
      requires Exponent?
    {
      if negative then -(Saturated(digits) as int) else Saturated(digits)
    }

    function Exact(): int
      requires Exponent?
    {
      if negative then -(Horner(digits) as int) else Horner(digits)
    }
  }

  /** What follows the letter e at i - 1: an optional sign and at least one digit. */
  function ExponentAt(s: string, i: nat): Exponent {
    var signed := CharAt(s, i) == '+' as int || CharAt(s, i) == '-' as int;
    var ds := DigitRun(s, if signed then i + 1 else i);
    if ds == [] then NoExponent else Exponent(CharAt(s, i) == '-' as int, ds)
  }

  /** scanexp: lines 31-55, with LLONG_MIN as !ok. */
  method ScanExp(s: string, start: nat) returns (ok: bool, e: int)
    ensures ok <==> ExponentAt(s, start).Exponent?
    ensures ok ==> e == ExponentAt(s, start).Scanned()
    ensures -(LLONG_MAX as int) < e < LLONG_MAX
  {
    var c := CharAt(s, start);
    var signed := c == '+' as int || c == '-' as int;
    var i := if signed then start + 1 else start;
    DigitRunAt(s, i, 0);
    if !IsDigit(CharAt(s, i)) {
      return false, 0;
    }
    var y := ScanDigits(s, i);
    return true, if c == '-' as int then -(y as int) else y;
  }

  // Lines 48-52.
  method ScanDigits(s: string, first: nat) returns (y: nat)
    requires IsDigit(CharAt(s, first))
    ensures y == Saturated(DigitRun(s, first)) < LLONG_MAX
  {
    ghost var ds := DigitRun(s, first);
    assert ds[..0] == [];
    var i, x := ScanUpTo(s, first, first, 0, INT_MAX / 10);
    i, y := ScanUpTo(s, first, i, x, LLONG_MAX / 100);
    while IsDigit(CharAt(s, i))
      invariant first <= i <= first + |ds| && i <= |s|
      invariant y == Saturated(ds[..i - first])
      invariant IsDigit(CharAt(s, i)) ==> y >= LLONG_MAX / 100
      decreases |s| - i
    {
      DigitRunAt(s, first, i - first);
      assert ds[..i + 1 - first][..i - first] == ds[..i - first];
      i := i + 1;
    }
    DigitRunAt(s, first, i - first);
    assert ds[..|ds|] == ds;
    DigitRunDigits(s, first);
    SaturatedMeaning(ds);
  }

  // The two accumulating loops: take digits while the value is below the bound.
  method ScanUpTo(s: string, ghost first: nat, i0: nat, x0: nat, bound: nat) returns (i: nat, x: nat)
    requires first <= i0 <= first + |DigitRun(s, first)| && i0 <= |s| && bound <= LLONG_MAX / 100
    requires x0 == Saturated(DigitRun(s, first)[..i0 - first])
    ensures i0 <= i <= first + |DigitRun(s, first)| && i <= |s|
    ensures x == Saturated(DigitRun(s, first)[..i - first])
    ensures IsDigit(CharAt(s, i)) ==> x >= bound
  {
    i, x := i0, x0;
    while IsDigit(CharAt(s, i)) && x < bound
      invariant i0 <= i <= first + |DigitRun(s, first)| && i <= |s|
      invariant x == Saturated(DigitRun(s, first)[..i - first])
      decreases |s| - i
    {
      i, x := ScanDigit(s, first, i, x);
    }
  }

  // One step of the accumulating loops.
  method ScanDigit(s: string, ghost first: nat, i: nat, x: nat) returns (i': nat, x': nat)
    requires first <= i && IsDigit(CharAt(s, i))
    requires i - first <= |DigitRun(s, first)|
    requires x == Saturated(DigitRun(s, first)[..i - first]) && x < LLONG_MAX / 100
    ensures i' == i + 1 <= |s| && i' - first <= |DigitRun(s, first)|
    ensures x' == Saturated(DigitRun(s, first)[..i' - first]) && x' <= 10 * x + 9
  {
    ghost var ds, k := DigitRun(s, first), i - first;
    DigitRunAt(s, first, k);
    assert ds[..k + 1][..k] == ds[..k];
    x' := 10 * x + DigitOf(CharAt(s, i));
    i' := i + 1;
  }
}
