/**
 The big number of decfloat as a value: a digit string, a decimal point rp and a binary
 exponent e2.  Each in-place pass of the scanner is one step on this value, and what the
 steps keep is proved here.
 */
module ScaledDigits {
  import W = Words
  import opened Scaling
  import opened DigitFractions

  /** Long double as binary64 (LDBL_MANT_DIG == 53) or as the 64-bit extended format. */
  datatype Format = Binary64 | Extended {
    function KMax(): nat { if Binary64? then 128 else 2048 }
    function MantDig(): nat { if Binary64? then 53 else 64 }
    function Words(): nat { if Binary64? then 2 else 3 }
    function Top(): seq<nat> {
      if Binary64? then [9007199, 254740991] else [18, 446744073, 709551615]
    }
    // Rp of the window: the radix point stands behind Words() digits.
    function Point(): nat { 9 * Words() }
    // 2^(MantDig - 1)
    function Half(): nat { if Binary64? then 0x10_0000_0000_0000 else 0x8000_0000_0000_0000 }
  }

  datatype Num = Num(digits: seq<nat>, rp: int, e2: int) {
    ghost function Value(): real {
      Scale(Two, e2, Scale(Ten, rp, Frac(digits)))
    }

    ghost predicate Valid() {
      digits != [] && digits[0] > 0 && AtMost(digits, LIMIT - 1)
    }
  }

  // ---------- the integer in front of the radix point ----------

  function DigitAt(s: seq<nat>, i: nat): nat {
    if i < |s| then s[i] else 0
  }

  /** The first k digits as an integer; a short string is padded with zeros. */
  function Lead(s: seq<nat>, k: nat): nat {
    if k == 0 then 0 else Lead(s, k - 1) * BASE + DigitAt(s, k - 1)
  }

  /** The comparison loop of the downscale: does s exceed th, digit by digit? */
  function Exceeds(s: seq<nat>, th: seq<nat>): bool {
    if th == [] || s == [] || s[0] < th[0] then false
    else s[0] > th[0] || Exceeds(s[1..], th[1..])
  }

  lemma ExceedsLast(s: seq<nat>, t: nat)
    ensures Exceeds(s, [t]) <==> DigitAt(s, 0) > t
  {
    assert [t][1..] == [];
  }

  // Digit-wise comparison decides the integer comparison, for every digit below 2^30.
  lemma ExceedsIff(s: seq<nat>, fmt: Format)
    requires AtMost(s, LIMIT - 1)
    ensures Exceeds(s, fmt.Top()) <==> Lead(s, fmt.Words()) >= 2 * fmt.Half()
  {
    var th := fmt.Top();
    assert Lead(s, 1) == DigitAt(s, 0);
    assert Lead(s, 2) == Lead(s, 1) * BASE + DigitAt(s, 1);
    if s != [] {
      assert DigitAt(s, 1) == DigitAt(s[1..], 0);
      if s[1..] != [] {
        assert DigitAt(s, 2) == DigitAt(s[1..][1..], 0);
      }
    }
    match fmt {
      case Binary64 =>
        assert th[1..] == [254740991] && th[1..][1..] == [];
        if s != [] { ExceedsLast(s[1..], 254740991); }
      case Extended =>
        assert th[1..] == [446744073, 709551615] && th[1..][1..] == [709551615];
        if |s| > 1 { ExceedsLast(s[1..][1..], 709551615); }
    }
  }

  // ---------- align ----------

  /** Lines 167-183: shift right until the radix point is on a digit boundary. */
  function Align(n: Num): (r: Num) {
    if n.rp % 9 == 0 then n
    else
      var p := TenTo(9 - n.rp % 9);
      Num(WithCarry(Divided(n.digits, p)), n.rp - 9 * Dropped(n.digits, p) + 9 - n.rp % 9, n.e2)
  }

  // ---------- upscale ----------

  lemma {:induction false} BitOrBelow(x: nat, y: nat, k: nat)
    requires x < Twos(k) && y < Twos(k)
    ensures W.Or(x, y) < Twos(k)
    decreases k
  {
    if x > 0 && y > 0 {
      BitOrBelow(x / 2, y / 2, k - 1);
    }
  }

  /** Lines 204-207: the last digit is OR-ed into its neighbour. */
  function Merge(s: seq<nat>): (t: seq<nat>)
    requires |s| >= 2
  {
    s[..|s| - 2] + [W.Or(s[|s| - 2], s[|s| - 1])]
  }

  /** The multiplication pass: the final carry and the digits left after trimming. */
  function Multiplied(digits: seq<nat>): (r: Product) {
    var m := MulDigits(digits);
    Product(m.carry, TrimKeep(m.digits))
  }

  /** Lines 201-209: a carry takes the slot in front, if there is one. */
  function Prepend(m: Product, cap: nat): (s: seq<nat>)
    requires cap >= 2
  {
    if m.carry == 0 then m.digits
    else [m.carry] + (if |m.digits| < cap then m.digits else Merge(m.digits))
  }

  /** One round of lines 187-209 in a ring that can hold cap digits. */
  function UpStep(n: Num, cap: nat): (r: Num)
    requires cap >= 2
  {
    var m := Multiplied(n.digits);
    Num(Prepend(m, cap), if m.carry == 0 then n.rp else n.rp + 9, n.e2 - 29)
  }

  ghost predicate UpHasRoom(n: Num, cap: nat) {
    Multiplied(n.digits).carry == 0 || |Multiplied(n.digits).digits| < cap
  }

  // ---------- downscale ----------

  /** The division pass: the digits left after dropping leading zeros, and the final carry. */
  function Divided(digits: seq<nat>, p: nat): (r: Quotient)
    requires p > 0
  {
    var q := DivDigits(digits, 0, p);
    Quotient(q.digits[LeadingZeros(q.digits)..], q.carry)
  }

  function Dropped(digits: seq<nat>, p: nat): nat
    requires p > 0
  {
    LeadingZeros(DivDigits(digits, 0, p).digits)
  }

  /** Lines 238-243: a carry without a slot only sets the low bit of the last digit. */
  function Append(q: Quotient, cap: nat): (s: seq<nat>) {
    if q.carry == 0 then q.digits
    else if |q.digits| < cap then q.digits + [q.carry]
    else StickyLast(q.digits)
  }

  /** Lines 228-243: one division by p = 2^sh. */
  function DownStep(n: Num, sh: nat, cap: nat): (r: Num) {
    Num(Append(Divided(n.digits, Twos(sh)), cap), n.rp - 9 * Dropped(n.digits, Twos(sh)), n.e2 + sh)
  }

  ghost predicate DownHasRoom(n: Num, sh: nat, cap: nat) {
    var q := Divided(n.digits, Twos(sh));
    q.carry == 0 || |q.digits| < cap
  }

  /** x[last] |= 1 */
  function StickyLast(s: seq<nat>): (t: seq<nat>)
    ensures |t| == |s|
  {
    if s == [] then s else s[|s| - 1 := W.Or(s[|s| - 1], 1)]
  }

  // ---------- exactness of the steps ----------

  lemma ValueTen9(d: int, f: real)
    ensures Scale(Ten, d + 9, f) == Scale(Ten, d, 1000000000.0 * f)
  {
    SmallScales(f);
    ScaleCompose(Ten, d, 9, f);
  }

  ghost function TwosTimes(k: nat, f: real): real
    requires k == 1 || k == 9 || k == 29
  {
    if k == 1 then 2.0 * f else if k == 9 then 512.0 * f else 536870912.0 * f
  }

  lemma {:induction false} ScaleTenTimes(d: int, f: real, k: nat)
    requires k == 1 || k == 9 || k == 29
    ensures Scale(Ten, d, TwosTimes(k, f)) == TwosTimes(k, Scale(Ten, d, f))
    decreases if d < 0 then -d else d
  {
    if d > 0 {
      ScaleTenTimes(d - 1, f, k);
    } else if d < 0 {
      ScaleTenTimes(d + 1, f, k);
    }
  }

  lemma SmallTwo(k: nat, v: real)
    requires k == 1 || k == 9 || k == 29
    ensures Scale(Two, k, v) == TwosTimes(k, v)
  {
    SmallScales(v);
  }

  // Multiplying the fraction by 2^k is the same as adding k to e2.
  lemma ValueTwo(e2: int, rp: int, k: nat, f: real)
    requires k == 1 || k == 9 || k == 29
    ensures Scale(Two, e2, Scale(Ten, rp, TwosTimes(k, f))) == Scale(Two, e2 + k, Scale(Ten, rp, f))
  {
    var v := Scale(Ten, rp, f);
    SmallTwo(k, v);
    ScaleTenTimes(rp, f, k);
    ScaleCompose(Two, e2, k, v);
  }

  lemma ValueDiffers(e2: int, rp: int, f: real, g: real)
    ensures Scale(Two, e2, Scale(Ten, rp, f)) == Scale(Two, e2, Scale(Ten, rp, g)) <==> f == g
  {
    if Scale(Two, e2, Scale(Ten, rp, f)) == Scale(Two, e2, Scale(Ten, rp, g)) {
      ScaleInjective(Two, e2, Scale(Ten, rp, f), Scale(Ten, rp, g));
      ScaleInjective(Ten, rp, f, g);
    }
  }

  // Two strings that agree up to their tails differ by their tails.
  lemma {:induction false} FracPrefix(u: seq<nat>, v: seq<nat>, w: seq<nat>)
    ensures Frac(u + v) == Frac(u + w) <==> Frac(v) == Frac(w)
    ensures Frac(u + v) < Frac(u + w) <==> Frac(v) < Frac(w)
  {
    if u == [] {
      assert u + v == v && u + w == w;
    } else {
      assert (u + v)[1..] == u[1..] + v && (u + w)[1..] == u[1..] + w;
      FracPrefix(u[1..], v, w);
    }
  }

  lemma FracShort(x: nat, y: nat)
    ensures Frac([x]) == x as real / 1000000000.0
    ensures Frac([x, y]) == (x as real + y as real / 1000000000.0) / 1000000000.0
  {
    assert [x][1..] == [] && [x, y][1..] == [y] && [y][1..] == [];
  }

  lemma TrimFacts(t: seq<nat>, top: nat)
    requires AtMost(t, top)
    ensures var u := TrimKeep(t);
      && Frac(u) == Frac(t) && |u| <= |t| && AtMost(u, top)
      && (|u| >= 2 ==> u[|u| - 1] != 0)
      && (t != [] ==> u != [])
  {
    TrimExact(t);
  }

  lemma MultipliedExact(digits: seq<nat>)
    ensures var m := Multiplied(digits);
      && m.carry as real + Frac(m.digits) == TwosTimes(29, Frac(digits))
      && |m.digits| <= |digits| && AtMost(m.digits, BASE)
      && (|m.digits| >= 2 ==> m.digits[|m.digits| - 1] != 0)
      && (digits != [] ==> m.digits != [])
  {
    MulDigitsExact(digits);
    TrimFacts(MulDigits(digits).digits, BASE);
  }

  lemma PrependExact(m: Product, rp: int, cap: nat)
    requires cap >= 2 && (m.carry == 0 || |m.digits| < cap)
    ensures Scale(Ten, if m.carry == 0 then rp else rp + 9, Frac(Prepend(m, cap)))
         == Scale(Ten, rp, m.carry as real + Frac(m.digits))
  {
    if m.carry != 0 {
      var s := [m.carry] + m.digits;
      assert s[1..] == m.digits;
      ValueTen9(rp, Frac(s));
    }
  }

  lemma UpRoomExact(n: Num, cap: nat)
    requires cap >= 2 && UpHasRoom(n, cap)
    ensures UpStep(n, cap).Value() == n.Value()
  {
    MultipliedExact(n.digits);
    PrependExact(Multiplied(n.digits), n.rp, cap);
    ValueTwo(n.e2 - 29, n.rp, 29, Frac(n.digits));
  }

  // Merging always loses: the digit merged away is never zero.
  lemma MergeDiffers(s: seq<nat>)
    requires |s| >= 2 && AtMost(s, BASE) && s[|s| - 1] != 0
    ensures Frac(Merge(s)) != Frac(s)
  {
    hide W.Or, Frac;
    var u, x, y := s[..|s| - 2], s[|s| - 2], s[|s| - 1];
    assert s == u + [x, y];
    FracPrefix(u, [x, y], [W.Or(x, y)]);
    FracShort(x, y);
    FracShort(W.Or(x, y), 0);
    OrIsNotShift(x, y);
  }

  lemma OrIsNotShift(x: nat, y: nat)
    requires 0 < y <= BASE
    ensures (W.Or(x, y) - x) * BASE != y
    ensures W.Or(x, y) as real != x as real + y as real / 1000000000.0
  {
    var d := W.Or(x, y) - x;
    assert d == 1 ==> y != BASE;
    OrRatio(d, y);
  }

  lemma OrRatio(d: nat, y: nat)
    ensures d as real == y as real / 1000000000.0 ==> d * BASE == y
  {
    if d as real == y as real / 1000000000.0 {
      assert (d * BASE) as real == y as real;
    }
  }

  lemma UpMergeDiffers(n: Num, cap: nat)
    requires cap >= 2 && !UpHasRoom(n, cap)
    ensures UpStep(n, cap).Value() != n.Value()
  {
    hide Multiplied, W.Or, Frac;
    var m := Multiplied(n.digits);
    var room := |m.digits| + 1;
    UpRoomExact(n, room);
    MultipliedExact(n.digits);
    MergeDiffers(m.digits);
    FracPrefix([m.carry], m.digits, Merge(m.digits));
    ValueDiffers(n.e2 - 29, n.rp + 9, Frac(Prepend(m, room)), Frac(Prepend(m, cap)));
  }

  /** The upscale round keeps the value exactly when it finds a slot for its carry. */
  lemma UpStepExactIff(n: Num, cap: nat)
    requires cap >= 2
    ensures UpStep(n, cap).Value() == n.Value() <==> UpHasRoom(n, cap)
  {
    if UpHasRoom(n, cap) {
      UpRoomExact(n, cap);
    } else {
      UpMergeDiffers(n, cap);
    }
  }

  lemma {:induction false} DropExact(t: seq<nat>, drop: nat, rp: int)
    requires drop <= |t| && AllZero(t[..drop])
    ensures Scale(Ten, rp - 9 * drop, Frac(t[drop..])) == Scale(Ten, rp, Frac(t))
    decreases drop
  {
    if drop == 0 {
      assert t[0..] == t;
    } else {
      assert t[0] == t[..drop][0] == 0;
      assert t[1..][..drop - 1] == t[..drop][1..];
      assert t[1..][drop - 1..] == t[drop..];
      DropExact(t[1..], drop - 1, rp - 9);
      FracLeadingZero(t);
      ValueTen9(rp - 9, Frac(t));
    }
  }

  lemma Divisors()
    ensures Twos(1) == 2 && Twos(9) == 512 && Divisor(2) && Divisor(512)
  {
    assert Twos(4) == 16;
    assert Twos(8) == 256;
  }

  /** The value DownStep would store if the ring were unbounded. */
  function DownWhole(n: Num, sh: nat): Num {
    Num(WithCarry(Divided(n.digits, Twos(sh))), n.rp - 9 * Dropped(n.digits, Twos(sh)), n.e2 + sh)
  }

  lemma DivisionFrac(digits: seq<nat>, rp: int, p: nat) returns (f: real)
    requires Divisor(p)
    ensures Divides(p, f, 0, Frac(digits))
    ensures Scale(Ten, rp - 9 * Dropped(digits, p), Frac(WithCarry(Divided(digits, p)))) == Scale(Ten, rp, f)
  {
    var q := DivDigits(digits, 0, p);
    var drop := LeadingZeros(q.digits);
    var t := q.digits + [q.carry];
    f := Frac(t);
    hide DivDigits, Frac, LeadingZeros, Scale;
    DivDigitsExact(digits, 0, p);
    LeadingZerosMeaning(q.digits);
    assert t[..drop] == q.digits[..drop];
    assert t[drop..] == q.digits[drop..] + [q.carry];
    DropExact(t, drop, rp);
    FracWithCarry(q.digits[drop..], q.carry);
  }

  lemma DownWholeExact(n: Num, sh: nat)
    requires sh == 1 || sh == 9
    ensures DownWhole(n, sh).Value() == n.Value()
  {
    Divisors();
    var f := DivisionFrac(n.digits, n.rp, Twos(sh));
    ValueTwo(n.e2, n.rp, sh, f);
  }

  // The truncated value lies strictly between two neighbours, and the low bit picks the odd one.
  lemma StickyDiffers(s: seq<nat>, c: nat)
    requires s != [] && 0 < c < BASE
    ensures Frac(StickyLast(s)) != Frac(s + [c])
  {
    var u, x := s[..|s| - 1], s[|s| - 1];
    assert s + [c] == u + [x, c];
    assert StickyLast(s) == u + [W.Or(x, 1)];
    FracPrefix(u, [x, c], [W.Or(x, 1)]);
    FracShort(x, c);
    FracShort(W.Or(x, 1), 0);
  }

  lemma DividedBound(s: seq<nat>, p: nat, top: nat)
    requires Divisor(p) && AtMost(s, top) && BASE - 1 <= top
    ensures AtMost(Divided(s, p).digits, top) && Divided(s, p).carry <= BASE - 1
    ensures |Divided(s, p).digits| + Dropped(s, p) == |s|
    ensures Divided(s, p).digits != [] ==> Divided(s, p).digits[0] > 0
  {
    DivDigitsBound(s, 0, p, top);
    LeadingZerosMeaning(DivDigits(s, 0, p).digits);
    assert p * (BASE / p) == BASE;
    assert BASE / p >= 1;
  }

  /** The downscale round keeps the value exactly when its carry is zero or finds a slot. */
  lemma DownStepExactIff(n: Num, sh: nat, cap: nat)
    requires n.Valid() && (sh == 1 || sh == 9) && cap >= 2
    ensures DownStep(n, sh, cap).Value() == n.Value() <==> DownHasRoom(n, sh, cap)
  {
    DownWholeExact(n, sh);
    if !DownHasRoom(n, sh, cap) {
      Divisors();
      DividedBound(n.digits, Twos(sh), LIMIT - 1);
      var q := Divided(n.digits, Twos(sh));
      StickyDiffers(q.digits, q.carry);
      ValueDiffers(n.e2 + sh, n.rp - 9 * Dropped(n.digits, Twos(sh)), Frac(q.digits + [q.carry]),
        Frac(StickyLast(q.digits)));
    }
  }

  // ---------- align ----------

  lemma {:induction false} TenToTimes(m: nat, f: real)
    ensures Scale(Ten, m, f) == TenTo(m) as real * f
  {
    if m > 0 {
      TenToTimes(m - 1, f);
    }
  }

  lemma TenToDivides(m: nat)
    requires 1 <= m <= 8
    ensures Divisor(TenTo(m))
  {
    assert TenTo(1) == 10 && TenTo(2) == 100 && TenTo(3) == 1000 && TenTo(4) == 10000;
    assert TenTo(5) == 100000 && TenTo(6) == 1000000 && TenTo(7) == 10000000 && TenTo(8) == 100000000;
  }

  lemma AlignShape(n: Num)
    requires n.Valid()
    ensures Align(n).Valid() && Align(n).rp % 9 == 0
    ensures n.rp - 8 <= Align(n).rp <= n.rp + 8
    ensures |Align(n).digits| <= |n.digits| + 1
    ensures AtMost(n.digits, BASE - 1) ==> AtMost(Align(n).digits, BASE - 1)
  {
    if n.rp % 9 != 0 {
      hide WithCarry, Divided, Dropped, TenTo;
      var p := TenTo(9 - n.rp % 9);
      TenToDivides(9 - n.rp % 9);
      WithCarryShape(n.digits, p, LIMIT - 1);
      if AtMost(n.digits, BASE - 1) { WithCarryShape(n.digits, p, BASE - 1); }
    }
  }

  lemma WithCarryShape(s: seq<nat>, p: nat, top: nat)
    requires Divisor(p) && s != [] && s[0] > 0 && AtMost(s, top) && BASE - 1 <= top
    ensures var t := WithCarry(Divided(s, p));
      t != [] && t[0] > 0 && AtMost(t, top) && |t| <= |s| + 1 && Dropped(s, p) <= 1
  {
    DividedShape(s, p);
    DividedBound(s, p, top);
  }

  /** Aligning keeps the value. */
  lemma AlignExact(n: Num)
    ensures Align(n).Value() == n.Value()
  {
    if n.rp % 9 != 0 {
      var m := 9 - n.rp % 9;
      TenToDivides(m);
      var f := DivisionFrac(n.digits, n.rp + m, TenTo(m));
      ShiftByTen(n.rp, m, f, Frac(n.digits));
    }
  }

  lemma ShiftByTen(rp: int, m: nat, f: real, whole: real)
    requires Divides(TenTo(m), f, 0, whole)
    ensures Scale(Ten, rp + m, f) == Scale(Ten, rp, whole)
  {
    TenToTimes(m, f);
    assert TenTo(m) as real * 0.0 / 1000000000.0 == 0.0;
    ScaleCompose(Ten, rp, m, f);
    assert Scale(Ten, m, f) == whole;
  }

  lemma QuotientPositive(d: nat, p: nat)
    requires d >= p > 0
    ensures d / p > 0
  {
    FactorNegative(p, -(d / p));
    assert p * (d / p) + d % p == d;
  }

  // With a nonzero leading digit the division drops at most that one digit.
  lemma DividedShape(s: seq<nat>, p: nat)
    requires Divisor(p) && s != [] && s[0] > 0
    ensures |Divided(s, p).digits| == |s| - Dropped(s, p)
    ensures s[0] >= p ==> Dropped(s, p) == 0 && Divided(s, p).digits[0] == s[0] / p > 0
    ensures s[0] < p ==> Dropped(s, p) == 1
    ensures s[0] < p && |s| == 1 ==> Divided(s, p).carry == BASE / p * s[0] > 0
    ensures s[0] < p && |s| > 1 ==> Divided(s, p).digits[0] == s[1] / p + BASE / p * s[0] > 0
  {
    DivDigitsExact(s, 0, p);
    if s[0] < p {
      SmallLead(s[0], p);
      ShapeAfterDrop(s, p);
    } else {
      QuotientPositive(s[0], p);
    }
  }

  lemma SmallLead(d: nat, p: nat)
    requires Divisor(p) && 0 < d < p
    ensures d / p == 0 && d % p == d && BASE / p * d > 0
  {
    assert p * (BASE / p) == BASE;
    assert BASE / p >= 1;
    FactorAtMost(BASE / p, d, BASE / p * d);
  }

  lemma ShapeAfterDrop(s: seq<nat>, p: nat)
    requires p > 0 && s != [] && s[0] / p == 0 && s[0] % p == s[0] && BASE / p * s[0] > 0
    ensures Dropped(s, p) == 1 && |DivDigits(s, 0, p).digits| >= 1
    ensures |s| == 1 ==> Divided(s, p).carry == BASE / p * s[0]
    ensures |s| > 1 ==> |Divided(s, p).digits| > 0 && Divided(s, p).digits[0] == s[1] / p + BASE / p * s[0] > 0
  {
    var low := BASE / p * s[0];
    var rest := DivDigits(s[1..], low, p);
    var q := DivDigits(s, 0, p);
    assert q.digits[1..] == rest.digits;
    if |s| > 1 {
      assert rest.digits[0] == s[1] / p + low && s[1] / p >= 0;
      assert LeadingZeros(rest.digits) == 0;
    }
  }

  // ---------- what the rounds keep ----------

  lemma LimitIsPower()
    ensures Twos(30) == LIMIT
  {
    assert Twos(6) == 64;
    assert Twos(12) == 4096;
    assert Twos(18) == 262144;
    assert Twos(24) == 16777216;
  }

  lemma MergeBound(s: seq<nat>)
    requires |s| >= 2 && AtMost(s, BASE)
    ensures AtMost(Merge(s), LIMIT - 1) && |Merge(s)| == |s| - 1
  {
    LimitIsPower();
    BitOrBelow(s[|s| - 2], s[|s| - 1], 30);
  }

  lemma MultipliedProgress(digits: seq<nat>)
    requires digits != [] && digits[0] > 0 && AtMost(digits, LIMIT - 1)
    ensures var m := Multiplied(digits);
      && m.carry < BASE && m.digits != []
      && (m.carry == 0 ==> digits[0] < m.digits[0] <= BASE)
  {
    MulDigitsExact(digits);
    MulDigitsFits(digits);
    MulDigitsProgress(digits);
  }

  lemma PrependBound(m: Product, cap: nat)
    requires cap >= 2 && AtMost(m.digits, BASE) && m.carry < BASE && |m.digits| <= cap
    ensures AtMost(Prepend(m, cap), LIMIT - 1) && |Prepend(m, cap)| <= cap
    ensures |Prepend(m, cap)| <= |m.digits| + (if m.carry == 0 then 0 else 1)
    ensures m.carry == 0 || |m.digits| < cap ==> AtMost(Prepend(m, cap), BASE)
  {
    if |m.digits| >= cap {
      MergeBound(m.digits);
    }
  }

  lemma UpStepProgress(n: Num, cap: nat)
    requires n.Valid() && 2 <= cap && |n.digits| <= cap
    ensures var r := UpStep(n, cap);
      && r.Valid() && |r.digits| <= cap
      && (r.rp == n.rp + 9 || (r.rp == n.rp && n.digits[0] < r.digits[0] <= BASE))
      && |r.digits| <= |n.digits| + (r.rp - n.rp) / 9
      && (UpHasRoom(n, cap) ==> AtMost(r.digits, BASE))
  {
    MultipliedExact(n.digits);
    MultipliedProgress(n.digits);
    PrependBound(Multiplied(n.digits), cap);
  }

  lemma StickyBound(s: seq<nat>)
    requires AtMost(s, LIMIT - 1)
    ensures AtMost(StickyLast(s), LIMIT - 1)
    ensures s != [] && s[0] > 0 ==> StickyLast(s)[0] > 0
    ensures forall i :: 0 <= i < |s| - 1 ==> StickyLast(s)[i] == s[i]
  {
    if s != [] {
      LimitIsPower();
      BitOrBelow(s[|s| - 1], 1, 30);
    }
  }

  lemma AppendBound(q: Quotient, cap: nat)
    requires cap >= 2 && AtMost(q.digits, LIMIT - 1) && q.carry < BASE && |q.digits| <= cap
    ensures AtMost(Append(q, cap), LIMIT - 1) && |q.digits| <= |Append(q, cap)| <= cap
    ensures |Append(q, cap)| <= |q.digits| + 1
    ensures q.digits != [] ==> Append(q, cap)[0] == q.digits[0]
    ensures q.digits == [] && q.carry > 0 ==> Append(q, cap) == [q.carry]
  {
    StickyBound(q.digits);
  }

  lemma DownStepProgress(n: Num, sh: nat, cap: nat)
    requires n.Valid() && (sh == 1 || sh == 9) && 2 <= cap && |n.digits| <= cap
    ensures var r := DownStep(n, sh, cap);
      && r.Valid() && |r.digits| <= cap
      && |r.digits| <= |n.digits| + 1 - (if n.digits[0] >= Twos(sh) then 0 else 1)
      && (if n.digits[0] >= Twos(sh) then r.rp == n.rp && r.digits[0] == n.digits[0] / Twos(sh)
          else r.rp == n.rp - 9)
  {
    Divisors();
    var p := Twos(sh);
    DividedShape(n.digits, p);
    DividedBound(n.digits, p, LIMIT - 1);
    AppendBound(Divided(n.digits, p), cap);
  }

  lemma DownStepCanonical(n: Num, sh: nat, cap: nat, top: nat)
    requires n.Valid() && (sh == 1 || sh == 9) && DownHasRoom(n, sh, cap)
    requires BASE - 1 <= top && AtMost(n.digits, top)
    ensures AtMost(DownStep(n, sh, cap).digits, top)
  {
    Divisors();
    DividedBound(n.digits, Twos(sh), top);
  }

  // ---------- the window ----------

  lemma {:induction false} LeadSame(s: seq<nat>, t: seq<nat>, k: nat)
    requires forall i :: 0 <= i < k ==> DigitAt(s, i) == DigitAt(t, i)
    ensures Lead(s, k) == Lead(t, k)
  {
    if k > 0 {
      LeadSame(s, t, k - 1);
    }
  }

  lemma {:induction false} DivDigitAt(s: seq<nat>, carry: nat, k: nat)
    ensures var q := DivDigits(s, carry, 2);
      |q.digits| == |s| &&
      DigitAt(q.digits + [q.carry], k) ==
        DigitAt(s, k) / 2 + (if k == 0 then carry else 500_000_000 * (DigitAt(s, k - 1) % 2))
  {
    if s != [] {
      var low := BASE / 2 * (s[0] % 2);
      var rest := DivDigits(s[1..], low, 2);
      DivDigitAt(s[1..], low, if k == 0 then 0 else k - 1);
      assert DivDigits(s, carry, 2).digits + [rest.carry] == [s[0] / 2 + carry] + (rest.digits + [rest.carry]);
      if k > 0 {
        assert DigitAt(s, k) == DigitAt(s[1..], k - 1);
        assert k > 1 ==> DigitAt(s, k - 1) == DigitAt(s[1..], k - 2);
      }
    }
  }

  // Halving the string halves the integer in front of every digit position, rounding down.
  lemma {:induction false} LeadHalved(s: seq<nat>, k: nat)
    ensures var q := DivDigits(s, 0, 2);
      2 * Lead(q.digits + [q.carry], k) + (if k == 0 then 0 else DigitAt(s, k - 1) % 2) == Lead(s, k)
  {
    if k > 0 {
      LeadHalved(s, k - 1);
      DivDigitAt(s, 0, k - 1);
    }
  }

  // Halving without dropping a digit halves the leading integer.
  lemma DownLead(n: Num, fmt: Format, cap: nat)
    requires n.Valid() && n.digits[0] >= 2 && cap > fmt.Words()
    ensures Lead(DownStep(n, 1, cap).digits, fmt.Words()) == Lead(n.digits, fmt.Words()) / 2
  {
    Divisors();
    DividedShape(n.digits, 2);
    DividedBound(n.digits, 2, LIMIT - 1);
    var q := DivDigits(n.digits, 0, 2);
    assert Divided(n.digits, 2) == q by { assert q.digits[0..] == q.digits; }
    StickyBound(q.digits);
    LeadHalved(n.digits, fmt.Words());
    LeadSame(q.digits + [q.carry], DownStep(n, 1, cap).digits, fmt.Words());
  }

  lemma {:induction false} LeadAtLeast(s: seq<nat>, k: nat)
    ensures k >= 1 ==> Lead(s, k) >= DigitAt(s, 0)
    ensures k >= 2 ==> Lead(s, k) >= DigitAt(s, 0) * BASE
    ensures k >= 3 ==> Lead(s, k) >= DigitAt(s, 0) * BASE * BASE
  {
    if k > 0 {
      LeadAtLeast(s, k - 1);
    }
  }

  // When the last surplus digit is dropped, what remains is far above the window's floor.
  lemma DownLeadAfterDrop(n: Num, fmt: Format, cap: nat)
    requires n.Valid() && n.digits[0] < 2 && cap > fmt.Words()
    ensures Lead(DownStep(n, 1, cap).digits, fmt.Words()) >= fmt.Half()
  {
    Divisors();
    DividedShape(n.digits, 2);
    DividedBound(n.digits, 2, LIMIT - 1);
    StickyBound(Divided(n.digits, 2).digits);
    var r := DownStep(n, 1, cap);
    assert r.digits[0] >= 500_000_000;
    LeadAtLeast(r.digits, fmt.Words());
  }

  // ---------- whole loops ----------

  ghost predicate NeedsUp(n: Num, fmt: Format) {
    n.rp < fmt.Point() || (n.rp == fmt.Point() && n.digits != [] && n.digits[0] < fmt.Top()[0])
  }

  // Places of rp still to gain, at most.
  ghost function Places(n: Num, fmt: Format): nat {
    if n.rp <= fmt.Point() then fmt.Point() + 9 - n.rp else 0
  }

  ghost predicate Fits(n: Num, fmt: Format) {
    n.Valid() && |n.digits| <= fmt.KMax() - 1
  }

  ghost function UpNext(n: Num, fmt: Format): (r: Num)
    requires Fits(n, fmt) && NeedsUp(n, fmt)
    ensures Fits(r, fmt) && r == UpStep(n, fmt.KMax() - 1)
    ensures r.rp == n.rp || r.rp == n.rp + 9
    ensures if r.rp == n.rp then Places(r, fmt) == Places(n, fmt) && r.digits[0] > n.digits[0]
      && |r.digits| <= |n.digits|
            else Places(r, fmt) < Places(n, fmt) && |r.digits| <= |n.digits| + 1
  {
    UpStepProgress(n, fmt.KMax() - 1);
    UpStep(n, fmt.KMax() - 1)
  }

  /** The loop of lines 185-210. */
  ghost function Upscale(n: Num, fmt: Format): (r: Num)
    requires Fits(n, fmt)
    ensures Fits(r, fmt) && !NeedsUp(r, fmt)
    decreases Places(n, fmt), LIMIT - n.digits[0]
  {
    if NeedsUp(n, fmt) then Upscale(UpNext(n, fmt), fmt) else n
  }

  ghost predicate UpscaleHasRoom(n: Num, fmt: Format)
    requires Fits(n, fmt)
    decreases Places(n, fmt), LIMIT - n.digits[0]
  {
    NeedsUp(n, fmt) ==> UpHasRoom(n, fmt.KMax() - 1) && UpscaleHasRoom(UpNext(n, fmt), fmt)
  }

  /** An upscale whose rounds all find a slot keeps the value, and its digits stay at most 10^9. */
  lemma {:induction false} UpscaleExact(n: Num, fmt: Format)
    requires Fits(n, fmt) && UpscaleHasRoom(n, fmt)
    ensures Upscale(n, fmt).Value() == n.Value()
    ensures AtMost(n.digits, BASE) ==> AtMost(Upscale(n, fmt).digits, BASE)
    decreases Places(n, fmt), LIMIT - n.digits[0]
  {
    if NeedsUp(n, fmt) {
      var cap := fmt.KMax() - 1;
      UpStepProgress(n, cap);
      UpStepExactIff(n, cap);
      UpscaleExact(UpNext(n, fmt), fmt);
    }
  }

  lemma RoomFromSize(n: Num, cap: nat)
    requires |n.digits| < cap
    ensures UpHasRoom(n, cap)
  {
    MultipliedExact(n.digits);
  }

  /**
   A caller can tell beforehand: one free slot for every nine places of rp, counted up to
   nine places past the window.
   */
  lemma {:induction false} UpscaleRoomBound(n: Num, fmt: Format, slots: nat)
    requires n.Valid() && n.rp + 9 * slots >= fmt.Point() + 9
    requires |n.digits| + slots <= fmt.KMax() - 1
    ensures UpscaleHasRoom(n, fmt)
    ensures |Upscale(n, fmt).digits| <= |n.digits| + slots
    decreases Places(n, fmt), LIMIT - n.digits[0]
  {
    if NeedsUp(n, fmt) {
      var r := UpNext(n, fmt);
      RoomFromSize(n, fmt.KMax() - 1);
      UpscaleRoomBound(r, fmt, if r.rp == n.rp then slots else slots - 1);
    }
  }

  /** What the upscale loop hands on to the downscale loop, and what that loop keeps. */
  ghost predicate AboveFloor(n: Num, fmt: Format) {
    && Fits(n, fmt)
    && n.rp >= fmt.Point() && n.rp % 9 == 0
    && (n.rp == fmt.Point() ==> Lead(n.digits, fmt.Words()) >= fmt.Half())
  }

  lemma {:induction false} UpscaleAligned(n: Num, fmt: Format)
    requires Fits(n, fmt) && n.rp % 9 == 0
    ensures Upscale(n, fmt).rp % 9 == 0
    decreases Places(n, fmt), LIMIT - n.digits[0]
  {
    if NeedsUp(n, fmt) {
      UpscaleAligned(UpNext(n, fmt), fmt);
    }
  }

  lemma UpscaleAboveFloor(n: Num, fmt: Format)
    requires Fits(n, fmt) && n.rp % 9 == 0
    ensures AboveFloor(Upscale(n, fmt), fmt)
  {
    UpscaleAligned(n, fmt);
    LeadAtLeast(Upscale(n, fmt).digits, fmt.Words());
  }

  ghost predicate InWindow(n: Num, fmt: Format) {
    n.rp == fmt.Point() && !Exceeds(n.digits, fmt.Top())
  }

  function Shift(rp: int, fmt: Format): nat {
    if rp > 9 + fmt.Point() then 9 else 1
  }

  lemma DownStepKeepsFloor(n: Num, fmt: Format)
    requires AboveFloor(n, fmt) && !InWindow(n, fmt)
    ensures var r := DownStep(n, Shift(n.rp, fmt), fmt.KMax() - 1);
      && AboveFloor(r, fmt)
      && (r.rp < n.rp || (r.rp == n.rp && r.digits[0] < n.digits[0]))
  {
    var cap := fmt.KMax() - 1;
    DownStepProgress(n, Shift(n.rp, fmt), cap);
    Divisors();
    if n.rp == fmt.Point() {
      ExceedsIff(n.digits, fmt);
      LeadingAtTop(n.digits, fmt);
      DownLead(n, fmt, cap);
    } else if n.rp == fmt.Point() + 9 && n.digits[0] < 2 {
      DownLeadAfterDrop(n, fmt, cap);
    }
  }

  // An integer above the window starts with a digit that survives a halving.
  lemma LeadingAtTop(s: seq<nat>, fmt: Format)
    requires Exceeds(s, fmt.Top())
    ensures s != [] && s[0] >= 18
  {
  }

  /** The loop of lines 212-244. */
  ghost function Downscale(n: Num, fmt: Format): (r: Num)
    requires AboveFloor(n, fmt)
    ensures AboveFloor(r, fmt) && InWindow(r, fmt)
    decreases n.rp, n.digits[0]
  {
    if InWindow(n, fmt) then n
    else
      DownStepKeepsFloor(n, fmt);
      Downscale(DownStep(n, Shift(n.rp, fmt), fmt.KMax() - 1), fmt)
  }

  ghost predicate DownscaleHasRoom(n: Num, fmt: Format)
    requires AboveFloor(n, fmt)
    decreases n.rp, n.digits[0]
  {
    !InWindow(n, fmt) ==>
      && DownHasRoom(n, Shift(n.rp, fmt), fmt.KMax() - 1)
      && (DownStepKeepsFloor(n, fmt); DownscaleHasRoom(DownStep(n, Shift(n.rp, fmt), fmt.KMax() - 1), fmt))
  }

  /** A downscale whose rounds all find a slot keeps the value. */
  lemma {:induction false} DownscaleExact(n: Num, fmt: Format)
    requires AboveFloor(n, fmt) && DownscaleHasRoom(n, fmt)
    ensures Downscale(n, fmt).Value() == n.Value()
    ensures AtMost(n.digits, BASE) ==> AtMost(Downscale(n, fmt).digits, BASE)
    decreases n.rp, n.digits[0]
  {
    if !InWindow(n, fmt) {
      var sh, cap := Shift(n.rp, fmt), fmt.KMax() - 1;
      DownStepKeepsFloor(n, fmt);
      DownStepExactIff(n, sh, cap);
      if AtMost(n.digits, BASE) { DownStepCanonical(n, sh, cap, BASE); }
      DownscaleExact(DownStep(n, sh, cap), fmt);
    }
  }

  /**
   Where the loops stop, whatever was lost on the way: the digits in front of the radix
   point form an integer of exactly MantDig() bits.
   */
  lemma WindowExact(n: Num, fmt: Format)
    requires AboveFloor(n, fmt)
    ensures fmt.Half() <= Lead(Downscale(n, fmt).digits, fmt.Words()) < 2 * fmt.Half()
  {
    ExceedsIff(Downscale(n, fmt).digits, fmt);
  }

  // ---------- align, upscale and downscale together ----------

  /** What lines 167-244 make of the number read. */
  ghost function Final(n: Num, fmt: Format): (r: Num)
    requires n.Valid() && |n.digits| <= fmt.KMax() - 3
    ensures AboveFloor(r, fmt) && InWindow(r, fmt)
  {
    AlignShape(n);
    UpscaleAboveFloor(Align(n), fmt);
    Downscale(Upscale(Align(n), fmt), fmt)
  }

  /** Every carry of the run finds a slot. */
  ghost predicate HasRoom(n: Num, fmt: Format)
    requires n.Valid() && |n.digits| <= fmt.KMax() - 3
  {
    AlignShape(n);
    UpscaleAboveFloor(Align(n), fmt);
    UpscaleHasRoom(Align(n), fmt) && DownscaleHasRoom(Upscale(Align(n), fmt), fmt)
  }

  /** A run in which every carry finds a slot keeps the value. */
  lemma FinalExact(n: Num, fmt: Format)
    requires n.Valid() && |n.digits| <= fmt.KMax() - 3 && HasRoom(n, fmt)
    ensures Final(n, fmt).Value() == n.Value()
    ensures AtMost(n.digits, BASE - 1) ==> AtMost(Final(n, fmt).digits, BASE)
  {
    AlignShape(n);
    AlignExact(n);
    UpscaleAboveFloor(Align(n), fmt);
    UpscaleExact(Align(n), fmt);
    DownscaleExact(Upscale(Align(n), fmt), fmt);
  }

  function Behind(s: seq<nat>, k: nat): seq<nat> {
    if k <= |s| then s[k..] else []
  }

  lemma NineMore(d: int, f: real)
    ensures Scale(Ten, d + 9, f) == 1000000000.0 * Scale(Ten, d, f)
  {
    ScaleSwap(d, 9, f);
    SmallScales(Scale(Ten, d, f));
  }

  lemma BehindStep(s: seq<nat>, k: nat)
    requires k > 0
    ensures 1000000000.0 * Frac(Behind(s, k - 1)) == DigitAt(s, k - 1) as real + Frac(Behind(s, k))
  {
    if k <= |s| {
      assert s[k - 1..][1..] == s[k..];
    }
  }

  // The integer in front of a digit position and the fraction behind it.
  lemma {:induction false} LeadFrac(s: seq<nat>, k: nat)
    ensures Scale(Ten, 9 * k, Frac(s)) == Lead(s, k) as real + Frac(Behind(s, k))
    decreases k
  {
    if k == 0 {
      assert s[0..] == s;
    } else {
      hide Behind, Frac, Scale;
      LeadFrac(s, k - 1);
      NineMore(9 * (k - 1), Frac(s));
      BehindStep(s, k);
    }
  }

  lemma {:induction false} ScaleSwap(d: int, k: nat, v: real)
    ensures Scale(Ten, k, Scale(Ten, d, v)) == Scale(Ten, d + k, v)
    decreases k
  {
    if k > 0 {
      ScaleSwap(d, k - 1, v);
      ScaleInside(Ten, d + k - 1, v);
    }
  }

  // With digits up to 10^9 the fraction may reach one, but hardly exceed it.
  lemma {:induction false} FracNearOne(s: seq<nat>)
    requires AtMost(s, BASE)
    ensures Frac(s) <= 1.000000002
  {
    if s != [] {
      FracNearOne(s[1..]);
    }
  }

  /** The significand: MantDig() bits in front of the radix point, the rest behind it. */
  ghost function Significand(r: Num, fmt: Format): nat {
    Lead(r.digits, fmt.Words())
  }

  ghost function Tail(r: Num, fmt: Format): real {
    Frac(Behind(r.digits, fmt.Words()))
  }

  /**
   The scaled number is 2^e2 times a significand of exactly MantDig() bits and a fraction
   behind it, which is all that rounding needs to know.
   */
  lemma FinalSignificand(n: Num, fmt: Format)
    requires n.Valid() && |n.digits| <= fmt.KMax() - 3
    ensures var r := Final(n, fmt);
      && fmt.Half() <= Significand(r, fmt) < 2 * fmt.Half()
      && r.Value() == Scale(Two, r.e2, Significand(r, fmt) as real + Tail(r, fmt))
      && (AtMost(r.digits, BASE - 1) ==> Tail(r, fmt) < 1.0)
      && (AtMost(r.digits, BASE) ==> Tail(r, fmt) <= 1.000000002)
  {
    var r := Final(n, fmt);
    ExceedsIff(r.digits, fmt);
    LeadFrac(r.digits, fmt.Words());
    if AtMost(r.digits, BASE - 1) { FracBelowOne(Behind(r.digits, fmt.Words())); }
    if AtMost(r.digits, BASE) { FracNearOne(Behind(r.digits, fmt.Words())); }
  }

  // ---------- digits of 10^9 ----------

  /** The product that the pass forms at position i, with the carry from its right. */
  function ProductAt(s: seq<nat>, i: nat): nat
    requires i < |s|
  {
    s[i] * UP + MulDigits(s[i + 1..]).carry
  }

  lemma AtMostCons(d: nat, s: seq<nat>, top: nat)
    ensures AtMost([d] + s, top) <==> d <= top && AtMost(s, top)
  {
    var t := [d] + s;
    assert t[0] == d;
    assert forall i :: 0 <= i < |s| ==> s[i] == t[i + 1];
  }

  lemma {:induction false} PassCanonicalIff(s: seq<nat>)
    ensures AtMost(MulDigits(s).digits, BASE - 1) <==> forall i :: 0 <= i < |s| ==> ProductAt(s, i) != BASE
  {
    if s != [] {
      var t := s[1..];
      PassCanonicalIff(t);
      var low := MulDigits(t);
      assert MulDigits(s).digits == [MulDigit(s[0], low.carry).1] + low.digits;
      AtMostCons(MulDigit(s[0], low.carry).1, low.digits, BASE - 1);
      assert ProductAt(s, 0) == s[0] * UP + low.carry;
      forall i | 0 <= i < |t| ensures ProductAt(t, i) == ProductAt(s, i + 1) {
        assert t[i + 1..] == s[i + 2..];
      }
      assert forall i :: 0 < i < |s| ==> ProductAt(s, i) == ProductAt(t, i - 1);
    }
  }

  /**
   Line 191 tests ">", so a product of exactly 10^9 stays as it is.  A round leaves proper
   base-10^9 digits if and only if it meets no such product.
   */
  lemma RoundCanonicalIff(n: Num, cap: nat)
    requires n.Valid() && cap >= 2 && UpHasRoom(n, cap)
    ensures AtMost(UpStep(n, cap).digits, BASE - 1)
       <==> forall i :: 0 <= i < |n.digits| ==> ProductAt(n.digits, i) != BASE
  {
    hide MulDigits, TrimKeep;
    PassCanonicalIff(n.digits);
    MultipliedProgress(n.digits);
    TrimAtMost(MulDigits(n.digits).digits, BASE - 1);
    AtMostCons(Multiplied(n.digits).carry, Multiplied(n.digits).digits, BASE - 1);
  }

  lemma TrimAtMost(s: seq<nat>, top: nat)
    ensures AtMost(s, top) <==> AtMost(TrimKeep(s), top)
  {
    hide TrimKeep;
    var t := TrimKeep(s);
    assert forall i :: |t| <= i < |s| ==> s[i] == s[|t|..][i - |t|];
  }

  // ---------- merging and comparisons ----------

  /** a and b are on the same side of t. */
  ghost predicate SameSide(a: real, b: real, t: real) {
    (t < a <==> t < b) && (a < t <==> b < t)
  }

  lemma OrOne(v: nat)
    ensures W.Or(v, 1) == if v % 2 == 1 then v else v + 1
  {
  }

  // The same side of the even integers.
  ghost predicate EvenSide(a: real, b: real, t: nat) {
    t % 2 == 0 ==> SameSide(a, b, t as real)
  }

  ghost predicate EvenSides(a: real, b: real) {
    forall t: nat :: EvenSide(a, b, t)
  }

  // An integer n with a fraction y/10^9 behind it, against an integer that replaces it.
  lemma IntegerSidesIff(n: nat, f: real, m: nat)
    requires 0.0 < f <= 1.0 && (f == 1.0 && n % 2 == 1 ==> m % 2 == 1 && m != n)
    ensures EvenSides(n as real + f, m as real) <==> m == if n % 2 == 1 then n else n + 1
  {
    var a, b := n as real + f, m as real;
    if m != if n % 2 == 1 then n else n + 1 {
      var t := if n % 2 == 0 then (if m <= n then n else n + 2) else if m <= n then n - 1 else n + 1;
      assert !EvenSide(a, b, t);
    } else {
      forall t: nat ensures EvenSide(a, b, t) {
        assert t <= n || t >= n + 1;
      }
    }
  }

  /** The grid of even integers in the last place of a full ring. */
  ghost function Grid(r: Num, t: nat): real {
    Scale(Two, r.e2, Scale(Ten, r.rp - 9 * |r.digits|, t as real))
  }

  ghost predicate GridSide(a: real, b: real, r: Num, t: nat) {
    t % 2 == 0 ==> SameSide(a, b, Grid(r, t))
  }

  ghost predicate SameSides(a: real, b: real, r: Num) {
    forall t: nat :: GridSide(a, b, r, t)
  }

  /** The digits u and one more, as an integer. */
  function InFront(u: seq<nat>, x: nat): (n: nat)
    ensures n % 2 == x % 2
  {
    Lead(u, |u|) * BASE + x
  }

  // A ring of |u| + 1 digits and some more, in units of digit |u| + 1.
  lemma InUnits(u: seq<nat>, x: nat, v: seq<nat>)
    ensures Scale(Ten, 9 * (|u| + 1), Frac(u + [x] + v)) == InFront(u, x) as real + Frac(v)
  {
    var k, s := |u|, u + [x] + v;
    LeadFrac(s, k + 1);
    assert s[k + 1..] == v;
    LeadSame(s, u, k);
  }

  lemma MergeInUnits(u: seq<nat>, x: nat, y: nat)
    ensures Scale(Ten, 9 * (|u| + 1), Frac(u + [x, y])) == InFront(u, x) as real + y as real / 1000000000.0
    ensures Scale(Ten, 9 * (|u| + 1), Frac(u + [W.Or(x, y)])) == InFront(u, W.Or(x, y)) as real
  {
    hide W.Or, Lead, Scale;
    InUnits(u, x, [y]);
    InUnits(u, W.Or(x, y), []);
    FracShort(y, 0);
    assert u + [x] + [y] == u + [x, y];
    assert u + [W.Or(x, y)] + [] == u + [W.Or(x, y)];
  }

  // Equal sides on a scaled grid are equal sides.
  lemma SidesScaled(a: real, b: real, e2: int, d: int, t: real)
    ensures SameSide(Scale(Two, e2, Scale(Ten, d, a)), Scale(Two, e2, Scale(Ten, d, b)),
      Scale(Two, e2, Scale(Ten, d, t)))
       <==> SameSide(a, b, t)
  {
    OrderScaled(a, t, e2, d);
    OrderScaled(b, t, e2, d);
  }

  lemma OrderScaled(a: real, b: real, e2: int, d: int)
    ensures Scale(Two, e2, Scale(Ten, d, a)) < Scale(Two, e2, Scale(Ten, d, b)) <==> a < b
    ensures Scale(Two, e2, Scale(Ten, d, b)) < Scale(Two, e2, Scale(Ten, d, a)) <==> b < a
  {
    ScaleOrder(Ten, d, a, b);
    ScaleOrder(Two, e2, Scale(Ten, d, a), Scale(Ten, d, b));
  }

  lemma ScaleOrder(r: Radix, e: int, a: real, b: real)
    ensures Scale(r, e, a) < Scale(r, e, b) <==> a < b
    ensures Scale(r, e, b) < Scale(r, e, a) <==> b < a
  {
    ScaleAdd(r, e, b - a, a);
    ScaleAdd(r, e, a - b, b);
  }

  /** What a full ring keeps of the comparisons when its last digit is OR-ed into the one before. */
  lemma MergeSidesIff(u: seq<nat>, x: nat, y: nat, rp: int, e2: int)
    requires x <= BASE && 0 < y <= BASE
    ensures var (s, r) := (Num(u + [x, y], rp, e2), Num(u + [W.Or(x, y)], rp, e2));
      SameSides(s.Value(), r.Value(), r) <==> W.Or(x, y) == W.Or(x, 1)
  {
    hide W.Or, Lead, Scale, Frac, SameSides, EvenSides;
    var w := W.Or(x, y);
    var s, r := Num(u + [x, y], rp, e2), Num(u + [w], rp, e2);
    var k, d := |u| + 1, rp - 9 * (|u| + 1);
    MergeInUnits(u, x, y);
    ScaleCompose(Ten, d, 9 * k, Frac(s.digits));
    ScaleCompose(Ten, d, 9 * k, Frac(r.digits));
    var n, m, f := InFront(u, x), InFront(u, w), y as real / 1000000000.0;
    SidesOnGrid(n as real + f, m as real, r);
    DigitSidesIff(u, x, y);
  }

  lemma DigitSidesIff(u: seq<nat>, x: nat, y: nat)
    requires x <= BASE && 0 < y <= BASE
    ensures EvenSides(InFront(u, x) as real + y as real / 1000000000.0, InFront(u, W.Or(x, y)) as real)
       <==> W.Or(x, y) == W.Or(x, 1)
  {
    OrOne(x);
    hide W.Or, EvenSides;
    var n, m, f := InFront(u, x), InFront(u, W.Or(x, y)), y as real / 1000000000.0;
    assert m - n == W.Or(x, y) - x;
    assert 0.0 < f <= 1.0 && (f == 1.0 ==> y == BASE);
    assert y == BASE && n % 2 == 1 ==> x % 2 == 1 && m != n;
    IntegerSidesIff(n, f, m);
  }

  lemma SidesOnGrid(a: real, b: real, r: Num)
    ensures var d := r.rp - 9 * |r.digits|;
      SameSides(Scale(Two, r.e2, Scale(Ten, d, a)), Scale(Two, r.e2, Scale(Ten, d, b)), r) <==> EvenSides(a, b)
  {
    var d := r.rp - 9 * |r.digits|;
    var (a', b') := (Scale(Two, r.e2, Scale(Ten, d, a)), Scale(Two, r.e2, Scale(Ten, d, b)));
    forall t: nat ensures GridSide(a', b', r, t) <==> EvenSide(a, b, t) {
      SidesScaled(a, b, r.e2, d, t as real);
    }
    assert (forall t: nat :: GridSide(a', b', r, t)) <==> forall t: nat :: EvenSide(a, b, t);
  }

  /**
   A round in a full ring whose carry needs a slot: the number keeps its side of every even
   integer in the last place if and only if the two digits OR-ed together give what OR-ing a
   one would have given.
   */
  lemma UpStepSidesIff(n: Num, cap: nat)
    requires cap >= 2 && |n.digits| <= cap && !UpHasRoom(n, cap)
    ensures var (r, s) := (UpStep(n, cap), Multiplied(n.digits).digits);
      && |s| == cap == |r.digits|
      && (SameSides(n.Value(), r.Value(), r) <==> W.Or(s[cap - 2], s[cap - 1]) == W.Or(s[cap - 2], 1))
  {
    hide W.Or, SameSides, Num.Value, Multiplied;
    MultipliedExact(n.digits);
    var m, s := Multiplied(n.digits), Multiplied(n.digits).digits;
    var u, x, y := [m.carry] + s[..cap - 2], s[cap - 2], s[cap - 1];
    UpRoomExact(n, cap + 1);
    assert UpStep(n, cap + 1).digits == u + [x, y];
    assert UpStep(n, cap).digits == u + [W.Or(x, y)];
    MergeSidesIff(u, x, y, n.rp + 9, n.e2 - 29);
  }

  // Digits w and words behind them, against w with a sticky last digit.
  lemma StickySides(u: seq<nat>, x: nat, v: seq<nat>, rp: int, e2: int)
    requires 0.0 < Frac(v) < 1.0
    ensures var (s, r) := (Num(u + [x] + v, rp, e2), Num(u + [W.Or(x, 1)], rp, e2));
      SameSides(s.Value(), r.Value(), r)
  {
    hide Lead, Scale, Frac, SameSides, EvenSides;
    OrOne(x);
    var w := W.Or(x, 1);
    hide W.Or;
    var s, r := Num(u + [x] + v, rp, e2), Num(u + [w], rp, e2);
    var k, d := |u| + 1, rp - 9 * (|u| + 1);
    InUnits(u, x, v);
    InUnits(u, w, []);
    FracNone();
    assert u + [w] + [] == u + [w];
    ScaleCompose(Ten, d, 9 * k, Frac(s.digits));
    ScaleCompose(Ten, d, 9 * k, Frac(r.digits));
    SidesOnGrid(InFront(u, x) as real + Frac(v), InFront(u, w) as real, r);
    IntegerSidesIff(InFront(u, x), Frac(v), InFront(u, w));
  }

  lemma FracNone()
    ensures Frac([]) == 0.0
  {
  }

  /** A downscale round that finds no slot for its carry keeps the number on its side of every even integer. */
  lemma DownStepSides(n: Num, sh: nat, cap: nat)
    requires n.Valid() && (sh == 1 || sh == 9) && |n.digits| <= cap && !DownHasRoom(n, sh, cap) && cap > 0
    ensures var r := DownStep(n, sh, cap);
      |r.digits| == cap && SameSides(n.Value(), r.Value(), r)
  {
    hide W.Or, SameSides, Num.Value, Divided, Dropped;
    Divisors();
    DownWholeExact(n, sh);
    DividedBound(n.digits, Twos(sh), LIMIT - 1);
    var q := Divided(n.digits, Twos(sh));
    var u, x := q.digits[..cap - 1], q.digits[cap - 1];
    assert q.digits + [q.carry] == u + [x] + [q.carry];
    assert StickyLast(q.digits) == u + [W.Or(x, 1)];
    FracShort(q.carry, 0);
    StickySides(u, x, [q.carry], n.rp - 9 * Dropped(n.digits, Twos(sh)), n.e2 + sh);
  }

  // ---------- enough room, known beforehand ----------

  function Bits(d: nat): nat {
    if d == 0 then 0 else 1 + Bits(d / 2)
  }

  function Nines(d: nat): nat {
    if d == 0 then 0 else 1 + Nines(d / 512)
  }

  lemma {:induction false} BitsBound(d: nat, k: nat)
    requires d < Twos(k)
    ensures Bits(d) <= k
    decreases k
  {
    if d > 0 {
      BitsBound(d / 2, k - 1);
    }
  }

  lemma NinesBound(d: nat)
    requires d < LIMIT
    ensures Nines(d) <= 4
  {
    assert d / 512 / 512 / 512 / 512 == 0;
    assert Nines(d / 512 / 512 / 512) <= 1;
    assert Nines(d / 512 / 512) <= 2;
  }

  /**
   Decimal places a downscale from n can use up, less nine for every leading digit that drops
   out, when n is c rounds of nine places past the window's edge.
   */
  function Growth(n: Num, fmt: Format, c: nat): nat {
    var lead := if n.digits == [] then 0 else n.digits[0];
    if n.rp <= fmt.Point() then Bits(lead)
    else if c == 0 then Bits(lead) + 22
    else 9 * Nines(lead) + 27 * (c - 1) + 43
  }

  /** d can be halved h times without a remainder. */
  predicate Halves(d: nat, h: nat) {
    h == 0 || (d % 2 == 0 && Halves(d / 2, h - 1))
  }

  lemma {:induction false} HalvesAdd(a: nat, b: nat, h: nat)
    requires Halves(a, h) && Halves(b, h)
    ensures Halves(a + b, h)
    decreases h
  {
    if h > 0 {
      assert (a + b) / 2 == a / 2 + b / 2;
      HalvesAdd(a / 2, b / 2, h - 1);
    }
  }

  lemma {:induction false} HalvesLess(d: nat, h: nat, k: nat)
    requires Halves(d, h) && k <= h
    ensures Halves(d, k)
    decreases h
  {
    if k > 0 {
      HalvesLess(d / 2, h - 1, k - 1);
    }
  }

  lemma {:induction false} HalvesZero(h: nat)
    ensures Halves(0, h)
  {
    if h > 0 {
      HalvesZero(h - 1);
    }
  }

  lemma HalvesCarry(h: nat)
    requires h <= 8
    ensures Halves(500_000_000, h)
  {
    assert Halves(31_250_000, 4);
    HalvesLess(500_000_000, 8, h);
  }

  lemma {:induction false} HalvesFive(x: nat, h: nat)
    requires Halves(x, h)
    ensures Halves(1_953_125 * x, h)
    decreases h
  {
    if h > 0 {
      HalvesFive(x / 2, h - 1);
    }
  }

  lemma RemainderTwice(e: nat, t: nat)
    requires t > 0
    ensures 2 * e % (2 * t) == 2 * (e % t)
  {
    var q := e / t;
    assert e == q * t + e % t;
    assert q * (2 * t) == 2 * (q * t);
    W.RemainderIs(2 * e, 2 * t, q, 2 * (e % t));
  }

  lemma {:induction false} HalvesRemainder(d: nat, h: nat, k: nat)
    requires Halves(d, h) && h <= k
    ensures Halves(d % Twos(k), h)
    decreases h
  {
    if h > 0 {
      var e, t := d / 2, Twos(k - 1);
      HalvesRemainder(e, h - 1, k - 1);
      RemainderTwice(e, t);
    }
  }

  // The last digit of the division pass and the carry behind it.
  lemma DivLast(s: seq<nat>, p: nat)
    requires p > 0 && s != []
    ensures var q := DivDigits(s, 0, p);
      && |q.digits| == |s| && q.carry == BASE / p * (s[|s| - 1] % p)
      && q.digits[|s| - 1] == s[|s| - 1] / p + (if |s| == 1 then 0 else BASE / p * (s[|s| - 2] % p))
  {
    var u := s[..|s| - 1];
    assert s == u + [s[|s| - 1]];
    DivDigitsLength(s, 0, p);
    DivDigitsLength(u, 0, p);
    DivDigitsSnoc(u, s[|s| - 1], 0, p);
    if |s| > 1 {
      assert u == u[..|u| - 1] + [s[|s| - 2]];
      DivDigitsSnoc(u[..|u| - 1], s[|s| - 2], 0, p);
    }
  }

  ghost predicate LastHalves(s: seq<nat>, h: nat) {
    s != [] && h <= 8 && Halves(s[|s| - 1], h)
  }

  /**
   A division by 2^sh adds at most sh places: a digit is appended only when the last one
   cannot be divided, and can then be halved as often again.
   */
  lemma DownStepPlaces(n: Num, sh: nat, cap: nat, h: nat) returns (h': nat)
    requires n.Valid() && (sh == 1 || sh == 9) && LastHalves(n.digits, h)
    requires |n.digits| <= cap && (|n.digits| == cap ==> sh == 1 && h > 0)
    ensures DownHasRoom(n, sh, cap)
    ensures var r := DownStep(n, sh, cap);
      && LastHalves(r.digits, h')
      && 9 * |r.digits| - h' + (if n.digits[0] >= Twos(sh) then 0 else 9) <= 9 * |n.digits| - h + sh
  {
    hide Halves, DivDigits;
    Divisors();
    var s, p := n.digits, Twos(sh);
    h' := DivisionHalves(s, sh, h);
    DividedShape(s, p);
    DivLast(s, p);
    var q, d := DivDigits(s, 0, p), Divided(s, p).digits;
    assert |d| == |s| - (if s[0] >= p then 0 else 1);
    if q.carry == 0 {
      assert d != [] && d[|d| - 1] == q.digits[|s| - 1];
    } else {
      assert |d| < cap;
    }
  }

  // How often the new last digit can be halved.
  lemma DivisionHalves(s: seq<nat>, sh: nat, h: nat) returns (h': nat)
    requires (sh == 1 || sh == 9) && LastHalves(s, h) && Twos(1) == 2 && Twos(9) == 512
    ensures var q := DivDigits(s, 0, Twos(sh));
      && |q.digits| == |s| && h' <= 8
      && Halves(if q.carry == 0 then q.digits[|s| - 1] else q.carry, h')
      && (if q.carry == 0 then h <= h' + sh else h' + sh >= h + 9)
      && (sh == 1 && h > 0 ==> q.carry == 0)
  {
    hide DivDigits;
    var last, carry := s[|s| - 1], DivDigits(s, 0, Twos(sh)).carry;
    DivLast(s, Twos(sh));
    if carry == 0 {
      h' := if sh == 1 && h > 0 then h - 1 else 0;
      if h' > 0 {
        HalvesZero(h');
        HalvesCarry(h');
        HalvesAdd(last / 2, DivDigits(s, 0, 2).digits[|s| - 1] - last / 2, h');
      }
    } else if sh == 1 {
      h' := 8;
      HalvesCarry(8);
    } else {
      h' := h;
      HalvesRemainder(last, h, 9);
      HalvesFive(last % 512, h);
    }
  }

  lemma {:induction false} DivDigitsLength(s: seq<nat>, carry: nat, p: nat)
    requires p > 0
    ensures |DivDigits(s, carry, p).digits| == |s|
  {
    if s != [] {
      DivDigitsLength(s[1..], DivDigit(s[0], p).1, p);
    }
  }

  /** A caller can tell beforehand that no digit will be lost on the way down. */
  lemma {:induction false} DownscaleRoomBound(n: Num, fmt: Format, c: nat, h: nat)
    requires AboveFloor(n, fmt) && (n.rp == fmt.Point() || n.rp == fmt.Point() + 9 + 9 * c)
    requires LastHalves(n.digits, h)
    requires 9 * |n.digits| - h + Growth(n, fmt, c) <= 9 * (fmt.KMax() - 1)
    ensures DownscaleHasRoom(n, fmt)
    decreases n.rp, n.digits[0]
  {
    if !InWindow(n, fmt) {
      var sh, cap := Shift(n.rp, fmt), fmt.KMax() - 1;
      var r := DownStep(n, sh, cap);
      DownStepKeepsFloor(n, fmt);
      DownStepProgress(n, sh, cap);
      Divisors();
      GrowthStep(n, r, fmt, c);
      var h' := DownStepPlaces(n, sh, cap, h);
      DownscaleRoomBound(r, fmt, if r.rp < n.rp && c > 0 then c - 1 else c, h');
    }
  }

  lemma GrowthStep(n: Num, r: Num, fmt: Format, c: nat)
    requires n.Valid() && r.Valid() && (n.rp == fmt.Point() || n.rp == fmt.Point() + 9 + 9 * c)
    requires var p := if n.rp > 9 + fmt.Point() then 512 else 2;
      && (n.rp == fmt.Point() ==> n.digits[0] >= 2)
      && (if n.digits[0] >= p then r.rp == n.rp && r.digits[0] == n.digits[0] / p else r.rp == n.rp - 9)
    ensures var sh := if n.rp > 9 + fmt.Point() then 9 else 1;
      Growth(r, fmt, if r.rp < n.rp && c > 0 then c - 1 else c) + sh
        <= Growth(n, fmt, c) + (if r.rp < n.rp then 9 else 0)
  {
    LimitIsPower();
    BitsBound(r.digits[0], 30);
    NinesBound(r.digits[0]);
  }

  lemma {:induction false} UpscaleEnds(n: Num, fmt: Format)
    requires Fits(n, fmt)
    ensures Upscale(n, fmt).rp <= fmt.Point() + 9 || Upscale(n, fmt) == n
    decreases Places(n, fmt), LIMIT - n.digits[0]
  {
    if NeedsUp(n, fmt) {
      UpscaleEnds(UpNext(n, fmt), fmt);
    }
  }

  lemma GrowthBound(n: Num, fmt: Format, c: nat)
    requires n.Valid()
    ensures Growth(n, fmt, c) <= if n.rp <= fmt.Point() || c == 0 then 52 else 27 * (c - 1) + 79
  {
    LimitIsPower();
    BitsBound(n.digits[0], 30);
    NinesBound(n.digits[0]);
  }

  lemma DownscaleRoomFor(u: Num, fmt: Format, used: nat)
    requires AboveFloor(u, fmt) && |u.digits| <= used
    requires if u.rp <= fmt.Point() + 9 then used + 6 <= fmt.KMax() - 1
             else 9 * used + 3 * (u.rp - fmt.Point()) + 25 <= 9 * (fmt.KMax() - 1)
    ensures DownscaleHasRoom(u, fmt)
  {
    var c := if u.rp < fmt.Point() + 9 then 0 else (u.rp - fmt.Point()) / 9 - 1;
    assert (u.rp - fmt.Point()) % 9 == 0;
    GrowthBound(u, fmt, c);
    DownscaleRoomBound(u, fmt, c, 0);
  }

  /** Few enough words for the place of their radix point. */
  predicate Short(words: nat, rp: int, fmt: Format) {
    && words + 7 < fmt.KMax()
    && rp + 9 * (fmt.KMax() - 8 - words) >= fmt.Point() + 17
    && 3 * words + rp <= 3 * (fmt.KMax() - 1) + fmt.Point() - 20
  }

  /**
   Every number of few enough words is converted without loss: there are slots for what lies
   below the window and for what the downscale of a large number can use.
   */
  lemma ShortHasRoom(n: Num, fmt: Format)
    requires n.Valid() && Short(|n.digits|, n.rp, fmt)
    ensures HasRoom(n, fmt)
  {
    var a, slots := Align(n), fmt.KMax() - 8 - |n.digits|;
    AlignShape(n);
    UpscaleRoomBound(a, fmt, slots);
    UpscaleAboveFloor(a, fmt);
    UpscaleEnds(a, fmt);
    var u := Upscale(a, fmt);
    if u.rp <= fmt.Point() + 9 {
      DownscaleRoomFor(u, fmt, |n.digits| + 1 + slots);
    } else {
      DownscaleRoomFor(u, fmt, |n.digits| + 1);
    }
  }
}
