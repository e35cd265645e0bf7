/**
 What the outcome of decfloat says about the number the text denotes.
 */
module DecfloatMeaning {
  import W = Words
  import opened Scaling
  import opened DigitFractions
  import opened ScaledDigits
  import opened DecimalText
  import opened Decfloat

  /** The number written at start, with the exponent as scanned. */
  ghost function TextValue(s: string, start: nat): real {
    MantissaValue(MantissaAt(s, start), Scanned10(s, EndOf(s, start)))
  }

  // ---------- the sticky digit ----------

  // One digit in front of two fractions that compare alike with a third.
  lemma CompareDigit(x: nat, h: nat, f: real, g: real, q: real)
    requires 0.0 <= f < 1.0 && 0.0 <= g < 1.0 && 0.0 <= q < 1.0
    requires (q < f <==> q < g) && (f < q <==> g < q)
    ensures var (l, a, b) := ((h as real + q) / 1000000000.0, (x as real + f) / 1000000000.0,
      (x as real + g) / 1000000000.0);
      (l < a <==> l < b) && (a < l <==> b < l)
  {
    if x < h {
      assert x as real + 1.0 <= h as real;
    } else if h < x {
      assert h as real + 1.0 <= x as real;
    }
  }

  lemma CompareLast(x: nat, h: nat, f: real)
    requires 0.0 < f < 1.0 && h % 2 == 0
    ensures h as real < x as real + f <==> h < W.Or(x, 1)
    ensures x as real + f < h as real <==> W.Or(x, 1) < h
  {
    OrOne(x);
  }

  lemma FracCons(x: nat, s: seq<nat>)
    ensures Frac([x] + s) == (x as real + Frac(s)) / 1000000000.0
  {
    assert ([x] + s)[1..] == s;
  }

  /** Words w followed by words t, of which some are not zero, against a threshold h on the grid of w. */
  lemma {:induction false} StickyCompares(w: seq<nat>, t: seq<nat>, h: seq<nat>)
    requires w != [] && |h| == |w| && AtMost(w, BASE - 1) && AtMost(t, BASE - 1) && AtMost(h, BASE - 1)
    requires !AllZero(t) && h[|h| - 1] % 2 == 0
    ensures Frac(h) < Frac(w + t) <==> Frac(h) < Frac(StickyLast(w))
    ensures Frac(w + t) < Frac(h) <==> Frac(StickyLast(w)) < Frac(h)
  {
    if |w| == 1 {
      StickyOne(w[0], t, h[0]);
      assert w == [w[0]] && h == [h[0]] && StickyLast(w) == [W.Or(w[0], 1)];
    } else {
      var w', h', u := w[1..], h[1..], StickyLast(w[1..]);
      StickyCompares(w', t, h');
      assert w + t == [w[0]] + (w' + t) && StickyLast(w) == [w[0]] + u && h == [h[0]] + h';
      StickyKeeps(w');
      CompareCons(w[0], w' + t, u, h[0], h');
    }
  }

  lemma StickyOne(x: nat, t: seq<nat>, h: nat)
    requires AtMost(t, BASE - 1) && !AllZero(t) && h % 2 == 0
    ensures Frac([h]) < Frac([x] + t) <==> Frac([h]) < Frac([W.Or(x, 1)])
    ensures Frac([x] + t) < Frac([h]) <==> Frac([W.Or(x, 1)]) < Frac([h])
  {
    FracBelowOne(t);
    FracZero(t);
    CompareLast(x, h, Frac(t));
    FracCons(x, t);
    FracShort(h, 0);
    FracShort(W.Or(x, 1), 0);
  }

  lemma CompareCons(x: nat, a: seq<nat>, b: seq<nat>, y: nat, h: seq<nat>)
    requires AtMost(a, BASE - 1) && AtMost(b, BASE - 1) && AtMost(h, BASE - 1)
    requires (Frac(h) < Frac(a) <==> Frac(h) < Frac(b)) && (Frac(a) < Frac(h) <==> Frac(b) < Frac(h))
    ensures Frac([y] + h) < Frac([x] + a) <==> Frac([y] + h) < Frac([x] + b)
    ensures Frac([x] + a) < Frac([y] + h) <==> Frac([x] + b) < Frac([y] + h)
  {
    hide Frac;
    FracBelowOne(a);
    FracBelowOne(b);
    FracBelowOne(h);
    FracCons(x, a);
    FracCons(x, b);
    FracCons(y, h);
    CompareDigit(x, y, Frac(a), Frac(b), Frac(h));
  }

  lemma KeptSplit(ds: seq<nat>, fmt: Format) returns (w: seq<nat>, t: seq<nat>)
    requires AreDigits(ds) && |ds| > Capacity(fmt)
    ensures w == Pack(ds[..Capacity(fmt)]) && |w| == fmt.KMax() - 3 && AtMost(w, BASE - 1) && AtMost(t, BASE - 1)
    ensures DecimalFrac(ds) == Frac(w + t)
    ensures AllZero(t) <==> AllZero(ds[Capacity(fmt)..])
    ensures Kept(ds, fmt) == if AllZero(ds[Capacity(fmt)..]) then w else StickyLast(w)
  {
    hide Pack, Frac, DecimalFrac, StickyLast;
    var head, tail := ds[..Capacity(fmt)], ds[Capacity(fmt)..];
    w, t := Pack(head), Pack(tail);
    assert ds == head + tail;
    assert |head| % 9 == 0 by { assert |head| == 9 * (fmt.KMax() - 3); }
    PackAppend(head, tail);
    PackExact(ds);
    PackExact(head);
    PackExact(tail);
    FracZero(t);
    DecimalZero(tail);
    assert ds[Capacity(fmt)..|ds|] == tail;
    assert head == ds[..9 * (fmt.KMax() - 3)];
  }

  /**
   However long the text, the words kept lie on the same side of every even threshold as the
   number written: the digits that did not fit cannot be mistaken for nothing.
   */
  lemma KeptCompares(ds: seq<nat>, fmt: Format, h: seq<nat>)
    requires AreDigits(ds) && AtMost(h, BASE - 1)
    requires |h| == fmt.KMax() - 3 && h[|h| - 1] % 2 == 0
    ensures Frac(h) < DecimalFrac(ds) <==> Frac(h) < Frac(Kept(ds, fmt))
    ensures DecimalFrac(ds) < Frac(h) <==> Frac(Kept(ds, fmt)) < Frac(h)
  {
    if |ds| <= Capacity(fmt) {
      PackExact(ds);
    } else {
      var w, t := KeptSplit(ds, fmt);
      if AllZero(t) {
        FracAppendZeros(w, t);
      } else {
        StickyCompares(w, t, h);
      }
    }
  }

  /** The digits read are the number written exactly when nothing but zeros fell off the buffer. */
  predicate FitsBuffer(ds: seq<nat>, fmt: Format) {
    |ds| <= Capacity(fmt) || AllZero(ds[Capacity(fmt)..])
  }

  lemma KeptExactIff(ds: seq<nat>, fmt: Format)
    requires AreDigits(ds)
    ensures Frac(Kept(ds, fmt)) == DecimalFrac(ds) <==> FitsBuffer(ds, fmt)
  {
    if |ds| <= Capacity(fmt) {
      PackExact(ds);
    } else {
      var w, t := KeptSplit(ds, fmt);
      if AllZero(t) {
        FracAppendZeros(w, t);
      } else {
        StickyTail(w, t);
      }
    }
  }

  lemma StickyTail(w: seq<nat>, t: seq<nat>)
    requires w != [] && AtMost(t, BASE - 1) && !AllZero(t)
    ensures Frac(w + t) != Frac(StickyLast(w))
  {
    var u, x := w[..|w| - 1], w[|w| - 1];
    assert w + t == u + ([x] + t) && StickyLast(w) == u + [W.Or(x, 1)];
    FracPrefix(u, [x] + t, [W.Or(x, 1)]);
    assert ([x] + t)[1..] == t;
    FracShort(W.Or(x, 1), 0);
    FracBelowOne(t);
    FracZero(t);
  }

  lemma TextValueSignificant(s: string, start: nat)
    ensures TextValue(s, start) == Scale(Ten, PointOf(s, start), DecimalFrac(Significant(MantissaAt(s, start))))
  {
    var m := MantissaAt(s, start);
    LeadingZerosMeaning(m.Digits());
    LeadingZerosMove(m.Digits(), LeadingZeros(m.Digits()), |m.whole| + Scanned10(s, EndOf(s, start)));
  }

  lemma ReadExactIff(s: string, start: nat, fmt: Format)
    ensures Read(s, start, fmt).Value() == TextValue(s, start)
       <==> FitsBuffer(Significant(MantissaAt(s, start)), fmt)
  {
    var m := MantissaAt(s, start);
    MantissaDigits(s, start);
    SignificantFacts(m, fmt);
    KeptExactIff(Significant(m), fmt);
    TextValueSignificant(s, start);
    var f, g := Frac(Kept(Significant(m), fmt)), DecimalFrac(Significant(m));
    if Scale(Ten, PointOf(s, start), f) == Scale(Ten, PointOf(s, start), g) {
      ScaleInjective(Ten, PointOf(s, start), f, g);
    }
  }

  // ---------- early returns ----------

  /** The number that ds with the radix point rp places in stands for. */
  ghost function DigitsValue(ds: seq<nat>, rp: int): real {
    Scale(Ten, rp, DecimalFrac(ds))
  }

  /** The number an exact return hands back: an integer times or over a power of ten. */
  ghost function Returned(o: Outcome): real
    requires o.Exact?
  {
    Scale(Ten, o.e10, o.x0 as real)
  }

  // The first kept word is the leading group, whatever was dropped.
  lemma KeptFirst(ds: seq<nat>, fmt: Format)
    requires ds != []
    ensures Kept(ds, fmt) != [] && Kept(ds, fmt)[0] == Horner(Group(ds))
  {
    if |ds| > Capacity(fmt) {
      var head := ds[..Capacity(fmt)];
      PackLength(head);
      assert head == ds[..9 * (fmt.KMax() - 3)];
      assert Group(head) == Group(ds);
      assert Kept(ds, fmt) == Pack(head) || Kept(ds, fmt) == StickyLast(Pack(head));
    }
  }

  // The digits behind the leading group.
  function Rest(ds: seq<nat>): seq<nat> {
    if |ds| >= 9 then ds[9..] else []
  }

  lemma GroupAndRest(ds: seq<nat>)
    requires ds != []
    ensures DigitsValue(ds, 9) == Horner(Group(ds)) as real + DecimalFrac(Rest(ds))
  {
    var g := Group(ds);
    if |ds| >= 9 {
      assert ds == g + ds[9..];
    } else {
      DecimalAppendZeros(ds, Zeros(9 - |ds|));
      assert g + [] == g;
    }
    FracBlock(g, Rest(ds));
  }

  lemma RestZero(ds: seq<nat>, fmt: Format)
    requires LastNonzero(ds, Min(|ds|, Capacity(fmt))) < 9
    ensures AllZero(Rest(ds)) <==> FitsBuffer(ds, fmt)
  {
    hide LastNonzero;
    var cap, r := Capacity(fmt), Rest(ds);
    assert forall i :: 0 <= i < |r| ==> r[i] == ds[9 + i];
    if |ds| > cap {
      RestSplit(r, ds[cap..], cap - 9);
    }
  }

  lemma RestSplit(r: seq<nat>, t: seq<nat>, k: nat)
    requires |r| == k + |t| && forall i :: 0 <= i < |t| ==> t[i] == r[k + i]
    requires forall i :: 0 <= i < k ==> r[i] == 0
    ensures AllZero(r) <==> AllZero(t)
  {
    assert forall i :: k <= i < |r| ==> r[i] == t[i - k];
  }

  /**
   The mid-size return looks at lnz only, which digits past the buffer do not move: it gives
   the number exactly when those digits are zero, and too small a number otherwise.
   */
  lemma MidSizeExactIff(ds: seq<nat>, rp: int, bits: nat, fmt: Format)
    requires ds != [] && bits >= 24 && MidSize(ds, rp, bits, fmt).Exact?
    ensures var r := Returned(MidSize(ds, rp, bits, fmt));
      r <= DigitsValue(ds, rp) && (r == DigitsValue(ds, rp) <==> FitsBuffer(ds, fmt))
  {
    hide Kept, Horner, LastNonzero, DecimalFrac, Scale, FitsBuffer, AllZero, Rest, Capacity, Group;
    var x0, f := Horner(Group(ds)), DecimalFrac(Rest(ds));
    KeptFirst(ds, fmt);
    GroupAndRest(ds);
    ScaleCompose(Ten, rp - 9, 9, DecimalFrac(ds));
    ScaleAdd(Ten, rp - 9, f, x0 as real);
    DecimalZero(Rest(ds));
    RestZero(ds, fmt);
  }

  /**
   What each return for small numbers, over- or underflow says about the number.  The exact
   ones give the number if and only if nothing but zeros fell off the buffer.
   */
  lemma DecideDigitsMeaning(ds: seq<nat>, rp: int, bits: nat, emin: int, fmt: Format)
    requires bits >= 24 && emin < 0 && AreDigits(ds) && (ds != [] ==> ds[0] > 0)
    ensures var o, v := DecideDigits(ds, rp, bits, emin, fmt), DigitsValue(ds, rp);
      && (o.Zero? <==> v == 0.0)
      && (o.Overflow? ==> v >= Scale(Ten, -emin / 2, 1.0))
      && (o.Underflow? ==> v < Scale(Ten, emin - 2 * fmt.MantDig(), 1.0))
      && (o.Exact? ==> Returned(o) <= v && (Returned(o) == v <==> FitsBuffer(ds, fmt)))
  {
    DecimalZero(ds);
    DecimalBounds(ds);
    ScaleAdd(Ten, rp, DecimalFrac(ds), 0.0);
    var o := DecideDigits(ds, rp, bits, emin, fmt);
    if o.Overflow? {
      ScaleAtLeast(rp, -emin / 2, DecimalFrac(ds));
    } else if o.Underflow? {
      ScaleBelow(rp, emin - 2 * fmt.MantDig(), DecimalFrac(ds));
    } else if o.Exact? {
      if rp == |ds| && |ds| < 10 && FitsIn(Horner(ds), bits) {
        assert ds + [] == ds;
        FracBlock(ds, []);
      } else {
        MidSizeExactIff(ds, rp, bits, fmt);
      }
    }
  }

  lemma {:induction false} ScaleMonotone(d: int, e: int, v: real)
    requires d <= e && v >= 0.0
    ensures Scale(Ten, d, v) <= Scale(Ten, e, v)
    decreases e - d
  {
    if d < e {
      ScaleInside(Ten, d, v);
      ScaleAdd(Ten, d, v, 0.0);
      ScaleMonotone(d + 1, e, v);
    }
  }

  lemma ScaleAtLeast(rp: int, e: int, f: real)
    requires rp > e && f >= 0.1
    ensures Scale(Ten, rp, f) >= Scale(Ten, e, 1.0)
  {
    ScaleInside(Ten, rp - 1, f);
    ScaleAdd(Ten, rp - 1, 10.0 * f - 1.0, 1.0);
    ScaleMonotone(e, rp - 1, 1.0);
  }

  lemma ScaleBelow(rp: int, e: int, f: real)
    requires rp < e && 0.0 <= f < 1.0
    ensures Scale(Ten, rp, f) < Scale(Ten, e, 1.0)
  {
    ScaleAdd(Ten, rp, 1.0 - f, f);
    ScaleMonotone(rp, e, 1.0);
  }

  // ---------- the main theorems ----------

  /** Early returns, on the text; an exact one is right exactly when the digits fit the buffer. */
  lemma EarlyReturnMeaning(s: string, start: nat, bits: nat, emin: int, pok: bool, fmt: Format)
    requires bits >= 24 && emin < 0
    ensures var o, v := Decide(s, start, bits, emin, pok, fmt), TextValue(s, start);
      && (o.Zero? ==> v == 0.0)
      && (v == 0.0 ==> o.Zero? || o.NoDigits? || o.BadExponent?)
      && (o.Overflow? ==> v >= Scale(Ten, -emin / 2, 1.0))
      && (o.Underflow? ==> v < Scale(Ten, emin - 2 * fmt.MantDig(), 1.0))
      && (o.Exact? ==> Returned(o) <= v && (Returned(o) == v <==> FitsBuffer(Significant(MantissaAt(s, start)), fmt)))
  {
    var m := MantissaAt(s, start);
    MantissaDigits(s, start);
    SignificantFacts(m, fmt);
    TextValueSignificant(s, start);
    DecideDigitsMeaning(Significant(m), PointOf(s, start), bits, emin, fmt);
  }

  /** The number v is 2^e2 times a significand of MantDig() bits plus a tail that is a fraction. */
  ghost predicate IsSignificand(v: real, r: Num, fmt: Format) {
    && v == Scale(Two, r.e2, Significand(r, fmt) as real + Tail(r, fmt))
    && fmt.Half() <= Significand(r, fmt) < 2 * fmt.Half()
    && 0.0 <= Tail(r, fmt) <= 1.000000002
    && (AtMost(r.digits, BASE - 1) ==> Tail(r, fmt) < 1.0)
  }

  lemma FinalMeaning(n: Num, fmt: Format)
    requires n.Valid() && AtMost(n.digits, BASE - 1) && |n.digits| <= fmt.KMax() - 3 && HasRoom(n, fmt)
    ensures IsSignificand(n.Value(), Final(n, fmt), fmt)
  {
    FinalSignificand(n, fmt);
    FinalExact(n, fmt);
  }

  /**
   When the digits fit the buffer and every carry finds a slot, the significand the scanner
   arrives at and the digits behind it are exactly the number written.
   */
  lemma ConversionExact(s: string, start: nat, bits: nat, emin: int, pok: bool, fmt: Format)
    requires bits >= 24 && emin < 0 && Decide(s, start, bits, emin, pok, fmt).Scaled?
    requires FitsBuffer(Significant(MantissaAt(s, start)), fmt)
    ensures var n := Read(s, start, fmt);
      && n.Valid() && |n.digits| <= fmt.KMax() - 3
      && (HasRoom(n, fmt) ==> IsSignificand(TextValue(s, start), Final(n, fmt), fmt))
  {
    var n := Read(s, start, fmt);
    MantissaDigits(s, start);
    SignificantFacts(MantissaAt(s, start), fmt);
    ReadExactIff(s, start, fmt);
    if HasRoom(n, fmt) {
      FinalMeaning(n, fmt);
    }
  }

  /**
   A text with few enough digits for the place of its radix point is converted without loss.
   */
  lemma ShortTextExact(s: string, start: nat, bits: nat, emin: int, pok: bool, fmt: Format)
    requires bits >= 24 && emin < 0 && Decide(s, start, bits, emin, pok, fmt).Scaled?
    requires Short((|Significant(MantissaAt(s, start))| + 8) / 9, PointOf(s, start), fmt)
    ensures var n := Read(s, start, fmt);
      && n.Valid() && |n.digits| <= fmt.KMax() - 3 && HasRoom(n, fmt)
      && Final(n, fmt).Value() == TextValue(s, start)
      && IsSignificand(TextValue(s, start), Final(n, fmt), fmt)
  {
    var n := Read(s, start, fmt);
    var ds := Significant(MantissaAt(s, start));
    MantissaDigits(s, start);
    SignificantFacts(MantissaAt(s, start), fmt);
    PackLength(ds);
    ShortHasRoom(n, fmt);
    ReadExactIff(s, start, fmt);
    FinalExact(n, fmt);
    FinalMeaning(n, fmt);
  }

  /** So 207 digits, or 3600 in the extended format, are exact over the format's whole range, subnormals included. */
  lemma RangeTextExact(s: string, start: nat, bits: nat, emin: int, pok: bool, fmt: Format)
    requires bits >= 24 && emin < 0 && Decide(s, start, bits, emin, pok, fmt).Scaled?
    requires |Significant(MantissaAt(s, start))| <= if fmt == Binary64 then 207 else 3600
    requires if fmt == Binary64 then -323 <= PointOf(s, start) <= 309 else -4950 <= PointOf(s, start) <= 4933
    ensures var n := Read(s, start, fmt);
      && n.Valid() && |n.digits| <= fmt.KMax() - 3 && HasRoom(n, fmt)
      && IsSignificand(TextValue(s, start), Final(n, fmt), fmt)
  {
    ShortTextExact(s, start, bits, emin, pok, fmt);
  }

  /** The radix point with the exponent as written, not as scanned. */
  function PointExact(s: string, start: nat): int {
    var m, pos := MantissaAt(s, start), EndOf(s, start);
    |m.whole| - LeadingZeros(m.Digits()) +
    (if Marked(s, pos) && ExponentAt(s, pos + 1).Exponent? then ExponentAt(s, pos + 1).Exact() else 0)
  }

  // Far outside the range, only the side matters.
  lemma DecideFar(ds: seq<nat>, rp: int, rp': int, bits: nat, emin: int, fmt: Format)
    requires bits >= 24 && -0x10_0000 <= emin < 0
    requires rp == rp' || (rp > 0x10_0000 && rp' > 0x10_0000) || (rp < -0x20_0000 && rp' < -0x20_0000)
    ensures DecideDigits(ds, rp, bits, emin, fmt) == DecideDigits(ds, rp', bits, emin, fmt)
  {
  }

  lemma ScannedSide(ex: Exponent)
    requires ex.Exponent? && AreDigits(ex.digits)
    ensures ex.Scanned() == ex.Exact()
         || (ex.Scanned() >= LLONG_MAX / 100 && ex.Exact() >= LLONG_MAX / 100)
         || (ex.Scanned() <= -(LLONG_MAX / 100) && ex.Exact() <= -(LLONG_MAX / 100))
  {
    SaturatedMeaning(ex.digits);
  }

  /** Clipping a huge exponent in scanexp never changes what decfloat decides. */
  lemma SaturationHarmless(s: string, start: nat, bits: nat, emin: int, fmt: Format)
    requires bits >= 24 && -0x10_0000 <= emin < 0 && start <= |s| < 0x100_0000_0000_0000
    ensures var ds := Significant(MantissaAt(s, start));
      DecideDigits(ds, PointOf(s, start), bits, emin, fmt) == DecideDigits(ds, PointExact(s, start), bits, emin, fmt)
  {
    var m, pos := MantissaAt(s, start), EndOf(s, start);
    MantissaLength(s, start);
    if Marked(s, pos) && ExponentAt(s, pos + 1).Exponent? {
      DigitRunDigits(s, pos + 1);
      DigitRunDigits(s, pos + 2);
      ScannedSide(ExponentAt(s, pos + 1));
    }
    DecideFar(Significant(m), PointOf(s, start), PointExact(s, start), bits, emin, fmt);
  }

  lemma MantissaLength(s: string, start: nat)
    requires start <= |s|
    ensures |MantissaAt(s, start).whole| <= |s| && |MantissaAt(s, start).Digits()| <= |s|
  {
  }
}
