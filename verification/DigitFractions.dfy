/**
 Strings of base-10^9 digits read as fractions, and the two digit passes of decfloat:
 multiplication by 2^29 from the right, division by a divisor of 10^9 from the left.
 */
module DigitFractions {

  const BASE: nat := 1_000_000_000
  // No digit the scanner ever stores reaches 2^30.
  const LIMIT: nat := 0x4000_0000
  const UP: nat := 0x2000_0000

  /** The sum of s[i] / BASE^(i+1). */
  ghost function Frac(s: seq<nat>): (f: real)
    ensures f >= 0.0
  {
    if s == [] then 0.0 else (s[0] as real + Frac(s[1..])) / 1000000000.0
  }

  ghost predicate AtMost(s: seq<nat>, top: nat) {
    forall i :: 0 <= i < |s| ==> s[i] <= top
  }

  predicate AllZero(s: seq<nat>) {
    forall i :: 0 <= i < |s| ==> s[i] == 0
  }

  lemma {:induction false} FracBelowOne(s: seq<nat>)
    requires AtMost(s, BASE - 1)
    ensures Frac(s) < 1.0
  {
    if s != [] {
      FracBelowOne(s[1..]);
    }
  }

  lemma {:induction false} FracZero(s: seq<nat>)
    ensures Frac(s) == 0.0 <==> AllZero(s)
  {
    if s != [] {
      FracZero(s[1..]);
      assert AllZero(s) <==> s[0] == 0 && AllZero(s[1..]) by {
        assert forall i :: 0 < i < |s| ==> s[i] == s[1..][i - 1];
      }
    }
  }

  // Trailing zeros do not count.
  lemma {:induction false} FracAppendZeros(s: seq<nat>, zeros: seq<nat>)
    requires AllZero(zeros)
    ensures Frac(s + zeros) == Frac(s)
  {
    if s == [] {
      FracZero(zeros);
      assert s + zeros == zeros;
    } else {
      assert (s + zeros)[1..] == s[1..] + zeros;
      FracAppendZeros(s[1..], zeros);
    }
  }

  // ---------- multiplication by 2^29, right to left ----------

  datatype Product = Product(carry: nat, digits: seq<nat>)

  // One digit of the pass.  The test is ">", so a digit equal to BASE is possible.
  function MulDigit(d: nat, carry: nat): (r: (nat, nat)) {
    var tmp := d * UP + carry;
    if tmp > BASE then (tmp / BASE, tmp % BASE) else (0, tmp)
  }

  function MulDigits(s: seq<nat>): (r: Product) {
    if s == [] then Product(0, [])
    else
      var low := MulDigits(s[1..]);
      var (carry, d) := MulDigit(s[0], low.carry);
      Product(carry, [d] + low.digits)
  }

  lemma {:induction false} MulDigitsExact(s: seq<nat>)
    ensures MulDigits(s).carry as real + Frac(MulDigits(s).digits) == 536870912.0 * Frac(s)
    ensures |MulDigits(s).digits| == |s|
    ensures AtMost(MulDigits(s).digits, BASE)
  {
    if s != [] {
      MulDigitsExact(s[1..]);
    }
  }

  // The carry stays a digit, and the 64-bit product stays far below 2^64.
  lemma {:induction false} MulDigitsFits(s: seq<nat>)
    requires AtMost(s, LIMIT - 1)
    ensures MulDigits(s).carry < BASE
    ensures s != [] ==> s[0] * UP + MulDigits(s[1..]).carry < 0x1_0000_0000_0000_0000
  {
    if s != [] {
      assert AtMost(s[1..], LIMIT - 1);
      MulDigitsFits(s[1..]);
    }
  }

  // Either a carry leaves on the left or the leading digit grows.
  lemma MulDigitsProgress(s: seq<nat>)
    requires s != [] && s[0] > 0
    ensures |MulDigits(s).digits| == |s|
    ensures MulDigits(s).carry == 0 ==> s[0] < MulDigits(s).digits[0] <= BASE
  {
    MulDigitsExact(s);
  }

  /** s without its trailing zeros. */
  function Trim(s: seq<nat>): (t: seq<nat>)
    ensures t <= s
    ensures AllZero(s[|t|..])
    ensures t != [] ==> t[|t| - 1] != 0
  {
    if s != [] && s[|s| - 1] == 0 then Trim(s[..|s| - 1]) else s
  }

  /** The pass trims trailing zeros too, but never the leading position. */
  function TrimKeep(s: seq<nat>): (t: seq<nat>)
    ensures t <= s && (s != [] ==> t != [])
    ensures AllZero(s[|t|..])
  {
    if s != [] && Trim(s) == [] then s[..1] else Trim(s)
  }

  lemma TrimExact(s: seq<nat>)
    ensures Frac(TrimKeep(s)) == Frac(s)
  {
    var t := TrimKeep(s);
    assert s == t + s[|t|..];
    FracAppendZeros(t, s[|t|..]);
  }

  // Prepending: trimming a longer string is governed by its tail.
  lemma {:induction false} TrimCons(d: nat, t: seq<nat>)
    ensures Trim([d] + t) == if Trim(t) != [] then [d] + Trim(t) else if d != 0 then [d] else []
    decreases |t|
  {
    var s := [d] + t;
    if t == [] {
      assert s[..0] == [];
      assert Trim(s) == if d == 0 then Trim(s[..0]) else s;
    } else if t[|t| - 1] == 0 {
      assert s[..|s| - 1] == [d] + t[..|t| - 1];
      TrimCons(d, t[..|t| - 1]);
    }
  }

  // ---------- division by a divisor of BASE, left to right ----------

  ghost predicate Divisor(p: nat) {
    1 < p && BASE % p == 0
  }

  datatype Quotient = Quotient(digits: seq<nat>, carry: nat)

  // One digit of the pass: the new digit and what it hands to its right neighbour.
  function DivDigit(d: nat, p: nat): (r: (nat, nat))
    requires p > 0
  {
    (d / p, BASE / p * (d % p))
  }

  function DivDigits(s: seq<nat>, carry: nat, p: nat): (r: Quotient)
    requires p > 0
  {
    if s == [] then Quotient([], carry)
    else
      var (d, low) := DivDigit(s[0], p);
      var rest := DivDigits(s[1..], low, p);
      Quotient([d + carry] + rest.digits, rest.carry)
  }

  /** The digit string with the final carry as one more digit. */
  function WithCarry(q: Quotient): seq<nat> {
    if q.carry == 0 then q.digits else q.digits + [q.carry]
  }

  lemma DivWhole(p: nat, m: nat)
    requires Divisor(p)
    ensures p * (BASE / p * m) == BASE * m
  {
    assert p * (BASE / p) == BASE;
  }

  lemma {:induction false} FracWithCarry(s: seq<nat>, carry: nat)
    ensures carry == 0 ==> Frac(s + [carry]) == Frac(s)
  {
    FracAppendZeros(s, [0]);
  }

  /** p times the value of digits, the exactness claim of the pass in one place. */
  ghost predicate Divides(p: nat, digits: real, carry: nat, whole: real) {
    p as real * digits == whole + p as real * carry as real / 1000000000.0
  }

  lemma {:induction false} DivDigitsExact(s: seq<nat>, carry: nat, p: nat)
    requires Divisor(p)
    ensures var q := DivDigits(s, carry, p);
      |q.digits| == |s| && Divides(p, Frac(q.digits + [q.carry]), carry, Frac(s))
  {
    var q := DivDigits(s, carry, p);
    if s == [] {
      assert q.digits + [q.carry] == [carry];
      assert Frac([carry]) == (carry as real + Frac([carry][1..])) / 1000000000.0;
      DivBase(p, carry, Frac([carry]));
    } else {
      var low := BASE / p * (s[0] % p);
      DivDigitsExact(s[1..], low, p);
      var rest := DivDigits(s[1..], low, p);
      assert (q.digits + [q.carry])[1..] == rest.digits + [rest.carry];
      DivWhole(p, s[0] % p);
      DivCombine(s[0], carry, low, p, Frac(s[1..]), Frac(rest.digits + [rest.carry]));
    }
  }

  lemma DivBase(p: nat, carry: nat, f: real)
    requires f == carry as real / 1000000000.0
    ensures Divides(p, f, carry, 0.0)
  {
  }

  lemma DivCombine(d: nat, carry: nat, low: nat, p: nat, f: real, g: real)
    requires p > 0
    requires p * low == BASE * (d % p)
    requires Divides(p, g, low, f)
    ensures Divides(p, ((d / p + carry) as real + g) / 1000000000.0, carry, (d as real + f) / 1000000000.0)
  {
    assert p as real * low as real == (p * low) as real;
    assert p as real * low as real / 1000000000.0 == (d % p) as real;
    assert p * (d / p) + d % p == d;
    assert p as real * (d / p) as real == (p * (d / p)) as real;
    var x, y := (d / p) as real, carry as real;
    assert p as real * (x + y + g) == p as real * x + p as real * y + p as real * g;
  }

  // The pass can be read off its prefixes.
  lemma {:induction false} DivDigitsSnoc(s: seq<nat>, d: nat, carry: nat, p: nat)
    requires p > 0
    ensures var q := DivDigits(s, carry, p);
      DivDigits(s + [d], carry, p) == Quotient(q.digits + [DivDigit(d, p).0 + q.carry], DivDigit(d, p).1)
  {
    var t := s + [d];
    if s == [] {
      assert t[1..] == [];
    } else {
      assert t[1..] == s[1..] + [d];
      DivDigitsSnoc(s[1..], d, DivDigit(s[0], p).1, p);
    }
  }

  lemma CarryBound(d: nat, p: nat)
    requires Divisor(p)
    ensures BASE / p * (d % p) <= BASE - BASE / p
  {
    var q, m := BASE / p, d % p;
    assert q * m <= q * (p - 1);
    assert q * (p - 1) == q * p - q;
  }

  lemma FactorNegative(p: nat, u: int)
    requires p * u < 0
    ensures u < 0
  {
  }

  lemma FactorAtMost(p: nat, u: int, e: nat)
    requires p >= 1 && p * u <= e
    ensures u <= e
  {
    if u >= 0 {
      assert p * u == u + (p - 1) * u;
    }
  }

  lemma DigitBound(d: nat, carry: nat, p: nat, top: nat)
    requires Divisor(p) && d <= top && BASE - 1 <= top
    requires carry <= BASE - BASE / p
    ensures d / p + carry <= top
  {
    var q := BASE / p;
    assert p * q == BASE;
    assert p * (d / p) <= d;
    assert p * (d / p - q) == p * (d / p) - p * q;
    if d < BASE {
      FactorNegative(p, d / p - q);
    } else {
      FactorAtMost(p, d / p - q, d - BASE);
    }
  }

  // Digits at most top (10^9 - 1 or more) stay so; the carry is one more such digit.
  lemma {:induction false} DivDigitsBound(s: seq<nat>, carry: nat, p: nat, top: nat)
    requires Divisor(p) && AtMost(s, top) && BASE - 1 <= top
    requires carry <= BASE - BASE / p
    ensures var q := DivDigits(s, carry, p);
      |q.digits| == |s| && AtMost(q.digits, top) && q.carry <= BASE - BASE / p
  {
    if s != [] {
      CarryBound(s[0], p);
      DigitBound(s[0], carry, p, top);
      assert AtMost(s[1..], top);
      DivDigitsBound(s[1..], BASE / p * (s[0] % p), p, top);
    }
  }

  /** How many digits the pass drops at the leading end. */
  function LeadingZeros(s: seq<nat>): (n: nat)
    ensures n <= |s|
  {
    if s != [] && s[0] == 0 then 1 + LeadingZeros(s[1..]) else 0
  }

  lemma {:induction false} LeadingZerosMeaning(s: seq<nat>)
    ensures AllZero(s[..LeadingZeros(s)])
    ensures LeadingZeros(s) < |s| ==> s[LeadingZeros(s)] != 0
  {
    if s != [] && s[0] == 0 {
      LeadingZerosMeaning(s[1..]);
      assert forall i :: 0 < i < LeadingZeros(s) ==> s[i] == s[1..][..LeadingZeros(s[1..])][i - 1];
    }
  }

  lemma {:induction false} LeadingZerosSnoc(s: seq<nat>, d: nat)
    ensures LeadingZeros(s + [d]) ==
      if LeadingZeros(s) == |s| && d == 0 then |s| + 1 else LeadingZeros(s)
  {
    var t := s + [d];
    if s == [] {
      assert t[1..] == [];
    } else {
      assert t[1..] == s[1..] + [d];
      LeadingZerosSnoc(s[1..], d);
    }
  }

  // Dropping one leading zero multiplies the fraction by BASE.
  lemma FracLeadingZero(s: seq<nat>)
    requires s != [] && s[0] == 0
    ensures Frac(s[1..]) == 1000000000.0 * Frac(s)
  {
  }
}
