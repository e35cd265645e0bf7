/**
 What rounding sees: the number that the scaling loops leave lies on the same side of every half
 of a unit in the last place of the significand as the number written, even where the downscale
 ran out of slots and for texts of any length.
 */
module DecfloatRounding {
  import W = Words
  import opened Scaling
  import opened DigitFractions
  import opened ScaledDigits
  import opened DecimalText
  import opened Decfloat
  import opened DecfloatMeaning

  // ---------- halves of a unit lie on every grid ----------

  // Scaling a natural number up gives one, which is even.
  lemma {:induction false} NatScaled(r: Radix, k: nat, w: nat) returns (t: nat, half: nat)
    ensures t as real == Scale(r, k, w as real)
    ensures k > 0 ==> t == 2 * half
  {
    if k == 0 {
      t, half := w, 0;
    } else {
      var h, _ := NatScaled(r, k - 1, w);
      half := if r == Two then h else 5 * h;
      t := 2 * half;
      DoubledReal(half);
      FiveReal(h);
    }
  }

  lemma DoubledReal(h: nat)
    ensures (2 * h) as real == 2.0 * h as real
  {
  }

  lemma FiveReal(h: nat)
    ensures (5 * h) as real == 5.0 * h as real
  {
  }

  lemma TwiceIsEven(h: nat)
    ensures 2 * h % 2 == 0
  {
  }

  lemma HalfScaled(r: Radix, e: int, v: real)
    ensures Scale(r, e, v / 2.0) == Scale(r, e, v) / 2.0
  {
    ScaleAdd(r, e, v / 2.0, v / 2.0);
  }

  /** t halves of 2^top are an even number of units of 2^e2 * 10^-p, for p of at least two. */
  lemma HalfOnGrid(t: nat, top: int, e2: int, p: int) returns (g: nat)
    requires e2 <= top && p >= 2
    ensures g % 2 == 0 && Scale(Two, top - 1, t as real) == Scale(Two, e2, Scale(Ten, -p, g as real))
  {
    hide Scale;
    var w, _ := NatScaled(Two, top - e2, t);
    var half;
    g, half := NatScaled(Ten, p - 1, 5 * w);
    TwiceIsEven(half);
    ScaleCompose(Ten, -p, p - 1, (5 * w) as real);
    Tenth((5 * w) as real);
    ScaleInside(Two, e2 - 1, w as real / 2.0);
    ScaleCompose(Two, e2 - 1, top - e2, t as real);
    assert (5 * w) as real / 10.0 == w as real / 2.0;
    assert Up(Two, w as real / 2.0) == w as real;
  }

  lemma Tenth(v: real)
    ensures Scale(Ten, -1, v) == v / 10.0
  {
  }

  // Powers of a half are powers of a tenth times powers of five.
  lemma {:induction false} Fives(m: nat, t: nat) returns (f: nat)
    ensures Scale(Ten, -(m as int), f as real) == Scale(Two, -(m as int), t as real)
  {
    if m == 0 {
      f := t;
    } else {
      var h := Fives(m - 1, t);
      f := 5 * h;
      ScaleInside(Ten, -(m as int), (5 * h) as real / 10.0);
      assert Up(Ten, (5 * h) as real / 10.0) == (5 * h) as real;
      assert (5 * h) as real / 10.0 == h as real / 2.0;
      HalfScaled(Ten, 1 - m, h as real);
    }
  }

  /** The same on the decimal grid of the words read. */
  lemma HalfOnDecimalGrid(t: nat, top: int, p: int) returns (g: nat)
    requires p >= 2 && p >= 2 - top
    ensures g % 2 == 0 && Scale(Two, top - 1, t as real) == Scale(Ten, -p, g as real)
  {
    if top >= 0 {
      g := HalfOnGrid(t, top, 0, p);
    } else {
      var m := 1 - top;
      var f := Fives(m, t);
      var half;
      g, half := NatScaled(Ten, p - m, f);
      TwiceIsEven(half);
      ScaleCompose(Ten, -p, p - m, f as real);
    }
  }

  // ---------- the downscale ----------

  lemma SideTwice(a: real, b: real, c: real, t: real)
    requires SameSide(a, b, t) && SameSide(b, c, t)
    ensures SameSide(a, c, t)
  {
  }

  lemma {:induction false} DownscaleExponent(n: Num, fmt: Format)
    requires AboveFloor(n, fmt)
    ensures Downscale(n, fmt).e2 >= n.e2
    decreases n.rp, n.digits[0]
  {
    if !InWindow(n, fmt) {
      DownStepKeepsFloor(n, fmt);
      DownscaleExponent(DownStep(n, Shift(n.rp, fmt), fmt.KMax() - 1), fmt);
    }
  }

  // One round, with or without a slot.
  lemma RoundSide(n: Num, sh: nat, cap: nat, top: int, t: nat)
    requires n.Valid() && (sh == 1 || sh == 9) && cap >= 2 && |n.digits| <= cap
    requires DownStep(n, sh, cap).e2 <= top && 9 * cap - DownStep(n, sh, cap).rp >= 2
    ensures SameSide(n.Value(), DownStep(n, sh, cap).Value(), Scale(Two, top - 1, t as real))
  {
    hide Scale, DownStep, Num.Value, Num.Valid, DownHasRoom;
    var r := DownStep(n, sh, cap);
    if DownHasRoom(n, sh, cap) {
      DownStepExactIff(n, sh, cap);
    } else {
      DownStepSides(n, sh, cap);
      var g := HalfOnGrid(t, top, r.e2, 9 * cap - r.rp);
      assert GridSide(n.Value(), r.Value(), r, g);
    }
  }

  /**
   Whatever carries the downscale loses on its way, the number keeps its side of every half of a
   unit of the significand it arrives at.
   */
  lemma {:induction false} DownscaleSides(n: Num, fmt: Format, t: nat)
    requires AboveFloor(n, fmt) && n.rp <= 9 * (fmt.KMax() - 1) - 2
    ensures var r := Downscale(n, fmt);
      SameSide(n.Value(), r.Value(), Scale(Two, r.e2 - 1, t as real))
    decreases n.rp, n.digits[0]
  {
    hide Scale, DownStep, Num.Value;
    if !InWindow(n, fmt) {
      var sh, cap, top := Shift(n.rp, fmt), fmt.KMax() - 1, Downscale(n, fmt).e2;
      var m := DownStep(n, sh, cap);
      DownStepKeepsFloor(n, fmt);
      assert Downscale(n, fmt) == Downscale(m, fmt);
      DownscaleExponent(m, fmt);
      RoundSide(n, sh, cap, top, t);
      DownscaleSides(m, fmt, t);
      SideTwice(n.Value(), m.Value(), Downscale(m, fmt).Value(), Scale(Two, top - 1, t as real));
    }
  }

  /** The same for the three stages, when the upscale finds its slots. */
  lemma FinalSides(n: Num, fmt: Format, t: nat)
    requires n.Valid() && |n.digits| <= fmt.KMax() - 3 && n.rp <= 9 * (fmt.KMax() - 1) - 10
    requires AlignFits(n, fmt) && UpscaleHasRoom(Align(n), fmt)
    ensures var r := Final(n, fmt);
      SameSide(n.Value(), r.Value(), Scale(Two, r.e2 - 1, t as real))
  {
    AlignShape(n);
    AlignExact(n);
    UpscaleAboveFloor(Align(n), fmt);
    UpscaleExact(Align(n), fmt);
    UpscaleEnds(Align(n), fmt);
    DownscaleSides(Upscale(Align(n), fmt), fmt, t);
  }

  ghost predicate AlignFits(n: Num, fmt: Format) {
    Fits(Align(n), fmt)
  }

  // ---------- the words read ----------

  lemma WordsOnly(digits: seq<nat>, rp: int)
    ensures Num(digits, rp, 0).Value() == Scale(Ten, rp, Frac(digits))
  {
  }

  /** Digits that do not fit leave the words on the number's side of every even integer in the last word. */
  lemma KeptSides(ds: seq<nat>, rp: int, fmt: Format)
    requires AreDigits(ds) && |ds| > Capacity(fmt)
    ensures var r := Num(Kept(ds, fmt), rp, 0);
      |r.digits| == fmt.KMax() - 3 && SameSides(Scale(Ten, rp, DecimalFrac(ds)), r.Value(), r)
  {
    hide Scale, Frac, DecimalFrac, Num.Value, AllZero, W.Or, StickyLast, Pack, Kept, SameSides;
    var w, t := KeptSplit(ds, fmt);
    var r := Num(Kept(ds, fmt), rp, 0);
    WordsOnly(r.digits, rp);
    if AllZero(t) {
      FracAppendZeros(w, t);
      NoDifference(r.Value(), r);
    } else {
      var u, x := w[..|w| - 1], w[|w| - 1];
      LastApart(w, t);
      FracBelowOne(t);
      FracZero(t);
      StickySides(u, x, t, rp, 0);
      WordsOnly(w + t, rp);
    }
  }

  lemma NoDifference(a: real, r: Num)
    ensures SameSides(a, a, r)
  {
  }

  lemma LastApart(w: seq<nat>, t: seq<nat>)
    requires w != []
    ensures w + t == w[..|w| - 1] + [w[|w| - 1]] + t
    ensures StickyLast(w) == w[..|w| - 1] + [W.Or(w[|w| - 1], 1)]
  {
    hide W.Or;
  }

  lemma ReadSide(s: string, start: nat, fmt: Format, top: int, t: nat)
    requires Significant(MantissaAt(s, start)) != []
    requires Capacity(fmt) - PointOf(s, start) >= 2 && Capacity(fmt) - PointOf(s, start) >= 2 - top
    ensures SameSide(TextValue(s, start), Read(s, start, fmt).Value(), Scale(Two, top - 1, t as real))
  {
    hide Scale, Num.Value, MantissaAt, TextValue, DecimalFrac, Kept, SameSides;
    var ds, rp := Significant(MantissaAt(s, start)), PointOf(s, start);
    MantissaDigits(s, start);
    SignificantFacts(MantissaAt(s, start), fmt);
    TextValueSignificant(s, start);
    if |ds| <= Capacity(fmt) {
      ReadExactIff(s, start, fmt);
    } else {
      KeptSides(ds, rp, fmt);
      var g := HalfOnDecimalGrid(t, top, Capacity(fmt) - rp);
      SidesAt(Scale(Ten, rp, DecimalFrac(ds)), Read(s, start, fmt).Value(), Read(s, start, fmt), g);
      GridIs(Read(s, start, fmt), g);
    }
  }

  lemma SidesAt(a: real, b: real, r: Num, g: nat)
    requires SameSides(a, b, r) && g % 2 == 0
    ensures SameSide(a, b, Grid(r, g))
  {
    assert GridSide(a, b, r, g);
  }

  lemma GridIs(r: Num, g: nat)
    requires r.e2 == 0
    ensures Grid(r, g) == Scale(Ten, r.rp - 9 * |r.digits|, g as real)
  {
  }

  // ---------- how small the exponent can get ----------

  lemma {:induction false} TwosRise(d: int, e: int)
    requires d <= e
    ensures Scale(Two, d, 1.0) <= Scale(Two, e, 1.0)
    ensures Scale(Two, e, 1.0) > 0.0
    decreases e - d
  {
    ScaleAdd(Two, e, 1.0, 0.0);
    if d < e {
      TwosRise(d, e - 1);
      ScaleInside(Two, e - 1, 1.0);
      ScaleAdd(Two, e - 1, 1.0, 1.0);
    }
  }

  // A tenth is more than a sixteenth.
  lemma {:induction false} TenthsAbove(m: nat)
    ensures Scale(Ten, -(m as int), 1.0) >= Scale(Two, -4 * m, 1.0) > 0.0
  {
    if m > 0 {
      TenthsAbove(m - 1);
      var e := -4 * m;
      assert Scale(Two, e, 1.0) == Scale(Two, e + 1, 1.0) / 2.0;
      assert Scale(Two, e + 1, 1.0) == Scale(Two, e + 2, 1.0) / 2.0;
      assert Scale(Two, e + 2, 1.0) == Scale(Two, e + 3, 1.0) / 2.0;
      assert Scale(Two, e + 3, 1.0) == Scale(Two, e + 4, 1.0) / 2.0;
    }
  }

  lemma {:induction false} FracBelowTwo(s: seq<nat>)
    requires AtMost(s, LIMIT - 1)
    ensures Frac(s) < 2.0
  {
    if s != [] {
      FracBelowTwo(s[1..]);
    }
  }

  // The number a run ends with is below 2^(e2 + MantDig + 1).
  lemma FinalBelow(n: Num, fmt: Format)
    requires n.Valid() && |n.digits| <= fmt.KMax() - 3
    ensures var r := Final(n, fmt);
      r.Value() < Scale(Two, r.e2 - 1, (8 * fmt.Half()) as real) == Scale(Two, r.e2 + fmt.MantDig() + 1, 1.0)
  {
    hide Scale, Num.Value;
    var r := Final(n, fmt);
    FinalSignificand(n, fmt);
    FracBelowTwo(Behind(r.digits, fmt.Words()));
    HalfIsPower(fmt);
    ScaleCompose(Two, r.e2 - 1, fmt.MantDig() + 2, 1.0);
    ScaleInside(Two, r.e2 - 1, (4 * fmt.Half()) as real);
    ScaleOrder(Two, r.e2, Significand(r, fmt) as real + Tail(r, fmt), (4 * fmt.Half()) as real);
    assert Up(Two, (4 * fmt.Half()) as real) == (8 * fmt.Half()) as real;
  }

  lemma HalfIsPower(fmt: Format)
    ensures Scale(Two, fmt.MantDig() + 2, 1.0) == (8 * fmt.Half()) as real
  {
    assert Scale(Two, 11, 1.0) == 2048.0;
    assert Scale(Two, 22, 1.0) == 4194304.0;
    assert Scale(Two, 33, 1.0) == 8589934592.0;
    assert Scale(Two, 44, 1.0) == 17592186044416.0;
    assert Scale(Two, 55, 1.0) == 36028797018963968.0;
    assert Scale(Two, 66, 1.0) == 73786976294838206464.0;
  }

  /** A radix point for which the exponent of the significand cannot get too small for the words kept. */
  predicate PointInRange(rp: int, fmt: Format) {
    rp <= Capacity(fmt) - 2 - fmt.MantDig() && 3 * rp >= 6 + fmt.MantDig() - Capacity(fmt)
  }

  lemma ExponentBound(v: real, rp: int, b: int)
    requires Scale(Ten, rp - 1, 1.0) <= v < Scale(Two, b, 1.0)
    ensures b > if rp >= 1 then 0 else 4 * (rp - 1)
  {
    hide Scale;
    if rp >= 1 {
      ScaleMonotone(0, rp - 1, 1.0);
      assert Scale(Ten, 0, 1.0) == 1.0 == Scale(Two, 0, 1.0) by { NoScale(1.0); }
      if b <= 0 { TwosRise(b, 0); }
    } else {
      TenthsAbove(1 - rp);
      if b <= 4 * (rp - 1) { TwosRise(b, 4 * (rp - 1)); }
    }
  }

  lemma NoScale(v: real)
    ensures Scale(Ten, 0, v) == v == Scale(Two, 0, v)
  {
  }

  // ---------- the main theorems ----------

  /** So many words at this radix point that the upscale finds its slots, or a number that needs no upscale. */
  predicate UpRoomy(words: nat, rp: int, fmt: Format) {
    rp >= fmt.Point() + 9 || rp + 9 * (fmt.KMax() - 2 - words) >= fmt.Point() + 17
  }

  lemma UpRoomyMeaning(n: Num, fmt: Format)
    requires n.Valid() && |n.digits| <= fmt.KMax() - 3 && UpRoomy(|n.digits|, n.rp, fmt)
    ensures AlignFits(n, fmt) && UpscaleHasRoom(Align(n), fmt)
  {
    AlignShape(n);
    if n.rp < fmt.Point() + 9 {
      UpscaleRoomBound(Align(n), fmt, fmt.KMax() - 2 - |n.digits|);
    }
  }

  /** A text for which rounding is decided rightly; how many digits it has beyond the buffer does not matter. */
  predicate Roundable(s: string, start: nat, fmt: Format) {
    var words, rp := Min((|Significant(MantissaAt(s, start))| + 8) / 9, fmt.KMax() - 3), PointOf(s, start);
    PointInRange(rp, fmt) && UpRoomy(words, rp, fmt)
  }

  lemma ReadFacts(s: string, start: nat, bits: nat, emin: int, pok: bool, fmt: Format)
    requires bits >= 24 && emin < 0 && Decide(s, start, bits, emin, pok, fmt).Scaled? && Roundable(s, start, fmt)
    ensures var (n, rp) := (Read(s, start, fmt), PointOf(s, start));
      && n.rp == rp && PointInRange(rp, fmt) && n.Valid() && |n.digits| <= fmt.KMax() - 3
      && AlignFits(n, fmt) && UpscaleHasRoom(Align(n), fmt)
      && Significant(MantissaAt(s, start)) != [] && n.Value() >= Scale(Ten, rp - 1, 1.0)
  {
    hide *;
    var ds, n := Significant(MantissaAt(s, start)), Read(s, start, fmt);
    ReadShape(s, start, fmt);
    DecideDigitsOf(s, start, bits, emin, pok, fmt);
    ScaledHasDigits(ds, PointOf(s, start), bits, emin, fmt);
    RoundableMeaning(s, start, fmt);
    UpRoomyMeaning(n, fmt);
    KeptAbove(ds, n.rp, fmt);
  }

  lemma ReadShape(s: string, start: nat, fmt: Format)
    ensures var (ds, n) := (Significant(MantissaAt(s, start)), Read(s, start, fmt));
      && AreDigits(ds) && (ds != [] ==> ds[0] > 0 && n.Valid())
      && n == Num(Kept(ds, fmt), PointOf(s, start), 0)
      && |n.digits| == Min((|ds| + 8) / 9, fmt.KMax() - 3) <= fmt.KMax() - 3
  {
    hide MantissaAt, PointOf, Significant, Kept;
    MantissaDigits(s, start);
    SignificantFacts(MantissaAt(s, start), fmt);
    KeptLength(Significant(MantissaAt(s, start)), fmt);
    SameDigits(Read(s, start, fmt));
  }

  lemma DecideDigitsOf(s: string, start: nat, bits: nat, emin: int, pok: bool, fmt: Format)
    requires bits >= 24 && emin < 0 && Decide(s, start, bits, emin, pok, fmt).Scaled?
    ensures DecideDigits(Significant(MantissaAt(s, start)), PointOf(s, start), bits, emin, fmt).Scaled?
  {
    hide MantissaAt, PointOf, Significant, DecideDigits;
  }

  lemma RoundableMeaning(s: string, start: nat, fmt: Format)
    requires Roundable(s, start, fmt)
    ensures var words := Min((|Significant(MantissaAt(s, start))| + 8) / 9, fmt.KMax() - 3);
      PointInRange(PointOf(s, start), fmt) && UpRoomy(words, PointOf(s, start), fmt)
  {
    hide MantissaAt, PointOf, Significant, PointInRange, UpRoomy;
  }

  lemma SameDigits(n: Num)
    ensures Num(n.digits, 0, 0).Valid() <==> n.Valid()
  {
  }

  lemma KeptAbove(ds: seq<nat>, rp: int, fmt: Format)
    requires AreDigits(ds) && ds != [] && ds[0] > 0
    ensures Num(Kept(ds, fmt), rp, 0).Value() >= Scale(Ten, rp - 1, 1.0)
  {
    hide Scale, Num.Value, Frac;
    var f := Frac(Kept(ds, fmt));
    KeptTenth(ds, fmt);
    WordsOnly(Kept(ds, fmt), rp);
    ScaleInside(Ten, rp - 1, f);
    ScaleAdd(Ten, rp - 1, Up(Ten, f) - 1.0, 1.0);
    ScaleAdd(Ten, rp - 1, 1.0, 0.0);
  }

  lemma ScaledHasDigits(ds: seq<nat>, rp: int, bits: nat, emin: int, fmt: Format)
    requires bits >= 24 && emin < 0 && DecideDigits(ds, rp, bits, emin, fmt).Scaled?
    ensures ds != []
  {
  }

  lemma KeptLength(ds: seq<nat>, fmt: Format)
    ensures |Kept(ds, fmt)| == Min((|ds| + 8) / 9, fmt.KMax() - 3)
  {
    if |ds| <= Capacity(fmt) {
      PackLength(ds);
    } else {
      PackLength(ds[..Capacity(fmt)]);
      assert ds[..Capacity(fmt)] == ds[..9 * (fmt.KMax() - 3)];
    }
  }

  // The first digit of the words kept is the first digit written.
  lemma KeptTenth(ds: seq<nat>, fmt: Format)
    requires AreDigits(ds) && ds != [] && ds[0] > 0
    ensures Frac(Kept(ds, fmt)) >= 0.1
  {
    hide Frac, DecimalFrac, Pack, AllZero;
    if |ds| <= Capacity(fmt) {
      PackExact(ds);
      DecimalBounds(ds);
    } else {
      var head := ds[..Capacity(fmt)];
      var w, t := KeptSplit(ds, fmt);
      PackExact(head);
      DecimalBounds(head);
      StickyAbove(w);
    }
  }

  lemma StickyAbove(w: seq<nat>)
    requires w != []
    ensures Frac(StickyLast(w)) >= Frac(w)
  {
    hide W.Or;
    OrOne(w[|w| - 1]);
    var u, x, y := w[..|w| - 1], w[|w| - 1], W.Or(w[|w| - 1], 1);
    assert w == u + [x] && StickyLast(w) == u + [y];
    FracShort(x, 0);
    FracShort(y, 0);
    FracPrefix(u, [y], [x]);
  }

  /**
   Of a text with any number of digits, the number the scanner arrives at lies on the same side of
   every half of a unit of its significand as the number written.
   */
  lemma TextSides(s: string, start: nat, bits: nat, emin: int, pok: bool, fmt: Format, t: nat)
    requires bits >= 24 && emin < 0 && Decide(s, start, bits, emin, pok, fmt).Scaled? && Roundable(s, start, fmt)
    ensures var n := Read(s, start, fmt);
      && n.Valid() && |n.digits| <= fmt.KMax() - 3
      && var r := Final(n, fmt); SameSide(TextValue(s, start), r.Value(), Scale(Two, r.e2 - 1, t as real))
  {
    hide Scale, Num.Value, Num.Valid, MantissaAt, TextValue, UpscaleHasRoom, AlignFits, Decide, PointOf;
    hide Roundable, Read;
    var n := Read(s, start, fmt);
    ReadFacts(s, start, bits, emin, pok, fmt);
    var r := Final(n, fmt);
    FinalSides(n, fmt, 8 * fmt.Half());
    FinalBelow(n, fmt);
    ExponentBound(n.Value(), n.rp, r.e2 + fmt.MantDig() + 1);
    ReadSide(s, start, fmt, r.e2, t);
    FinalSides(n, fmt, t);
    SideTwice(TextValue(s, start), n.Value(), r.Value(), Scale(Two, r.e2 - 1, t as real));
  }

  /**
   What stands behind the significand tells rounding to nearest the truth about v: it is below, at or
   above one half exactly when v is below, at or above the middle between two significands, and it is
   zero, or below one, exactly when v is the significand, or below the next one.
   */
  ghost predicate TellsTruth(v: real, r: Num, fmt: Format) {
    var (sig, tail) := (Significand(r, fmt), Tail(r, fmt));
    && fmt.Half() <= sig < 2 * fmt.Half()
    && v >= Scale(Two, r.e2, sig as real)
    && (tail == 0.0 <==> v == Scale(Two, r.e2, sig as real))
    && (tail < 0.5 <==> v < Scale(Two, r.e2, sig as real + 0.5))
    && (tail > 0.5 <==> v > Scale(Two, r.e2, sig as real + 0.5))
    && (tail < 1.0 <==> v < Scale(Two, r.e2, sig as real + 1.0))
  }

  /** Whatever was lost on the way, the significand and its tail decide rounding rightly for the number written. */
  lemma TailDecides(s: string, start: nat, bits: nat, emin: int, pok: bool, fmt: Format)
    requires bits >= 24 && emin < 0 && Decide(s, start, bits, emin, pok, fmt).Scaled? && Roundable(s, start, fmt)
    ensures var n := Read(s, start, fmt);
      n.Valid() && |n.digits| <= fmt.KMax() - 3 && TellsTruth(TextValue(s, start), Final(n, fmt), fmt)
  {
    hide Scale, Num.Value, MantissaAt, TextValue, Decide, PointOf, Roundable, Read, Tail, Significand;
    TextSides(s, start, bits, emin, pok, fmt, 0);
    var r := Final(Read(s, start, fmt), fmt);
    var sig, tail := Significand(r, fmt), Tail(r, fmt);
    FinalSignificand(Read(s, start, fmt), fmt);
    TailPositive(r, fmt);
    TextSides(s, start, bits, emin, pok, fmt, 2 * sig);
    TextSides(s, start, bits, emin, pok, fmt, 2 * sig + 1);
    TextSides(s, start, bits, emin, pok, fmt, 2 * sig + 2);
    HalfUnits(r.e2, 2 * sig);
    HalfUnits(r.e2, 2 * sig + 1);
    HalfUnits(r.e2, 2 * sig + 2);
    ScaleOrder(Two, r.e2, sig as real + tail, sig as real);
    ScaleOrder(Two, r.e2, sig as real + tail, sig as real + 0.5);
    ScaleOrder(Two, r.e2, sig as real + tail, sig as real + 1.0);
  }

  lemma TailPositive(r: Num, fmt: Format)
    ensures Tail(r, fmt) >= 0.0
  {
  }

  lemma HalfUnits(e2: int, t: nat)
    ensures Scale(Two, e2 - 1, t as real) == Scale(Two, e2, t as real / 2.0)
  {
    ScaleInside(Two, e2 - 1, t as real / 2.0);
    assert Up(Two, t as real / 2.0) == t as real;
  }

  /**
   That is so for 774 digits over the whole range of the 53-bit format and for 13419 over that of
   the extended one, and for any number of digits from 10^26 or 10^35 on.
   */
  lemma RangeDecides(s: string, start: nat, bits: nat, emin: int, pok: bool, fmt: Format)
    requires bits >= 24 && emin < 0 && Decide(s, start, bits, emin, pok, fmt).Scaled?
    requires if fmt == Binary64 then -323 <= PointOf(s, start) <= 309 else -4950 <= PointOf(s, start) <= 4933
    requires |Significant(MantissaAt(s, start))| <= (if fmt == Binary64 then 774 else 13419)
          || PointOf(s, start) >= (if fmt == Binary64 then 27 else 36)
    ensures var n := Read(s, start, fmt);
      n.Valid() && |n.digits| <= fmt.KMax() - 3 && TellsTruth(TextValue(s, start), Final(n, fmt), fmt)
  {
    hide Final, TellsTruth, Decide, Read;
    TailDecides(s, start, bits, emin, pok, fmt);
  }

  // ---------- what the scanner makes of the tail ----------

  /**
   Lines 267-277: the quarters of a unit that stand for what is behind the significand, from one
   digit and from whether there are more.
   */
  function Quarters(digits: seq<nat>, k: nat): (q: nat) {
    if |digits| <= k then 0
    else
      var t, more := digits[k], |digits| > k + 1;
      if t < 500_000_000 && (t != 0 || more) then 1
      else if t > 500_000_000 then 3
      else if t == 500_000_000 then if more then 3 else 2
      else 0
  }

  /** The test on the ring, once it has all words of the significand. */
  method TailQuarters(x: array<nat>, p: Place, fmt: Format, ghost n: Num) returns (q: nat)
    requires Represents(x, p, n) && |n.digits| >= fmt.Words()
    ensures q == Quarters(n.digits, fmt.Words())
  {
    q := 0;
    var i := RingIndex(x, p, fmt.Words(), n);
    if i != p.z {
      var j := RingIndex(x, p, fmt.Words() + 1, n);
      var t := x[i];
      if t < 500_000_000 && (t != 0 || j != p.z) {
        q := 1;
      } else if t > 500_000_000 {
        q := 3;
      } else if t == 500_000_000 {
        q := if j == p.z then 2 else 3;
      }
    }
  }

  /** The quarters say where the tail lies: at zero, below, at or above one half. */
  ghost predicate Fair(q: nat, tail: real) {
    && (q == 0 <==> tail == 0.0) && (q == 1 <==> 0.0 < tail < 0.5)
    && (q == 2 <==> tail == 0.5) && (q == 3 <==> tail > 0.5)
  }

  /** Words of zeros behind a tail of nothing or of one half. */
  predicate ZerosBehind(digits: seq<nat>, k: nat) {
    |digits| > k + 1 && (digits[k] == 0 || digits[k] == 500_000_000) && AllZero(digits[k + 1..])
  }

  /** Digits that make one: nines, and then one that is not a proper digit. */
  predicate MakesOne(s: seq<nat>) {
    s != [] && (s[0] >= BASE || (s[0] == BASE - 1 && MakesOne(s[1..])))
  }

  lemma {:induction false} MakesOneIff(s: seq<nat>)
    requires AtMost(s, LIMIT - 1)
    ensures MakesOne(s) <==> Frac(s) >= 1.0
  {
    if s != [] {
      MakesOneIff(s[1..]);
      FracBelowTwo(s[1..]);
    }
  }

  /**
   The one digit is enough except in two cases: nothing but words of zeros behind it, which the
   scanner never drops, and digits that were left at 10^9 and make up what is missing to one half.
   */
  lemma FairIff(digits: seq<nat>, k: nat)
    requires AtMost(digits, LIMIT - 1)
    ensures Fair(Quarters(digits, k), Frac(Behind(digits, k)))
       <==> !ZerosBehind(digits, k) && !(|digits| > k && digits[k] == 499_999_999 && MakesOne(digits[k + 1..]))
  {
    if |digits| <= k {
      assert Behind(digits, k) == [];
    } else {
      var t, rest := digits[k], digits[k + 1..];
      assert digits[k..] == [t] + rest;
      FracCons(t, rest);
      assert AtMost(rest, LIMIT - 1);
      MakesOneIff(rest);
      FracBelowTwo(rest);
      FracZero(rest);
      QuarterOf(t, rest, Frac(rest));
    }
  }

  lemma QuarterOf(t: nat, rest: seq<nat>, f: real)
    requires 0.0 <= f < 2.0 && (f == 0.0 <==> AllZero(rest))
    ensures var q := if t < 500_000_000 && (t != 0 || rest != []) then 1 else if t > 500_000_000 then 3
      else if t == 500_000_000 then if rest != [] then 3 else 2 else 0;
      Fair(q, (t as real + f) / 1000000000.0)
      <==> !(rest != [] && (t == 0 || t == 500_000_000) && f == 0.0) && !(t == 499_999_999 && f >= 1.0)
  {
    if t < 499_999_999 {
      assert t as real + 1.0 <= 499999999.0;
    } else if t > 500_000_000 {
      assert t as real >= 500000001.0;
    }
  }

  /** The quarters tell where v lies: at the significand, below, at or above the middle to the next one. */
  ghost predicate FairTo(q: nat, v: real, r: Num, fmt: Format) {
    var sig := Significand(r, fmt) as real;
    var (low, middle) := (Scale(Two, r.e2, sig), Scale(Two, r.e2, sig + 0.5));
    && (q == 0 <==> v == low) && (q == 1 <==> low < v < middle)
    && (q == 2 <==> v == middle) && (q == 3 <==> v > middle)
  }

  /** For the number written, with any number of digits: the quarters are fair to it exactly outside the two cases. */
  lemma TextFairIff(s: string, start: nat, bits: nat, emin: int, pok: bool, fmt: Format)
    requires bits >= 24 && emin < 0 && Decide(s, start, bits, emin, pok, fmt).Scaled? && Roundable(s, start, fmt)
    ensures var n := Read(s, start, fmt);
      && n.Valid() && |n.digits| <= fmt.KMax() - 3
      && var (r, k) := (Final(n, fmt), fmt.Words());
      FairTo(Quarters(r.digits, k), TextValue(s, start), r, fmt)
      <==> !ZerosBehind(r.digits, k) && !(|r.digits| > k && r.digits[k] == 499_999_999 && MakesOne(r.digits[k + 1..]))
  {
    hide Decide, Read, Roundable, TextValue, Quarters, ZerosBehind, MakesOne, Scale;
    TailDecides(s, start, bits, emin, pok, fmt);
    var r := Final(Read(s, start, fmt), fmt);
    FairIff(r.digits, fmt.Words());
    FairBoth(Quarters(r.digits, fmt.Words()), TextValue(s, start), r, fmt);
  }

  lemma FairBoth(q: nat, v: real, r: Num, fmt: Format)
    requires TellsTruth(v, r, fmt)
    ensures FairTo(q, v, r, fmt) <==> Fair(q, Tail(r, fmt))
  {
    hide Scale, Significand, Tail;
    TailPositive(r, fmt);
  }
}
