/**
 decfloat: from the text of a decimal numeral to the integer that becomes the significand.
 The digits are read into the ring, the radix point is aligned, and the ring is scaled by
 powers of two until its integer part has exactly LDBL_MANT_DIG bits.
 */
module Decfloat {
  import opened Wrappers
  import W = Words
  import opened Scaling
  import opened DigitFractions
  import opened ScaledDigits
  import opened DigitRing
  import opened DecimalText

  // ---------- reading the digits ----------

  /** The significant digits of a mantissa: those from the first nonzero one on. */
  function Significant(m: Mantissa): seq<nat> {
    m.Digits()[LeadingZeros(m.Digits())..]
  }

  /** How many decimal digits the buffer takes exactly. */
  function Capacity(fmt: Format): nat {
    9 * (fmt.KMax() - 3)
  }

  function Min(a: nat, b: nat): nat {
    if a < b then a else b
  }

  /** The k full words after n significant digits, the last one sticky for digits that did not fit. */
  function Words(ds: seq<nat>, n: nat, k: nat, fmt: Format): (w: seq<nat>)
    requires 9 * k <= n <= |ds|
  {
    var p := Pack(ds[..9 * k]);
    if n > Capacity(fmt) && !AllZero(ds[Capacity(fmt)..n]) then StickyLast(p) else p
  }

  /** All words the scanner keeps of the digits ds. */
  function Kept(ds: seq<nat>, fmt: Format): seq<nat> {
    if |ds| <= Capacity(fmt) then Pack(ds) else Words(ds, |ds|, fmt.KMax() - 3, fmt)
  }

  // The last nonzero digit among the first n, counted from one.
  function LastNonzero(ds: seq<nat>, n: nat): (l: nat)
    requires n <= |ds|
    ensures l <= n
    ensures forall i :: l <= i < n ==> ds[i] == 0
    ensures l > 0 ==> ds[l - 1] != 0
  {
    if n == 0 then 0 else if ds[n - 1] != 0 then n else LastNonzero(ds, n - 1)
  }

  /** The buffer after n significant digits. */
  ghost predicate Buffered(x: array<nat>, ds: seq<nat>, n: nat, k: nat, j: nat, fmt: Format)
    reads x
  {
    && x.Length == fmt.KMax() && n <= |ds| && j < 9
    && 9 * k + j == Min(n, Capacity(fmt))
    && x[..k] == Words(ds, n, k, fmt)
    && (j > 0 || k == 0 ==> x[k] == Horner(ds[9 * k..9 * k + j]))
  }

  lemma HornerStep(ds: seq<nat>, lo: nat, hi: nat)
    requires lo <= hi < |ds|
    ensures Horner(ds[lo..hi + 1]) == Horner(ds[lo..hi]) * 10 + ds[hi]
  {
    assert ds[lo..hi + 1][..hi - lo] == ds[lo..hi];
  }

  // A ninth digit completes a word.
  lemma WordsStep(ds: seq<nat>, n: nat, k: nat, fmt: Format)
    requires 9 * k <= n < |ds| && n < Capacity(fmt)
    ensures Words(ds, n + 1, k, fmt) == Words(ds, n, k, fmt)
    ensures n == 9 * k + 8 ==> Words(ds, n + 1, k + 1, fmt) == Words(ds, n, k, fmt) + [Horner(ds[9 * k..n + 1])]
  {
    if n == 9 * k + 8 {
      var a, g := ds[..9 * k], ds[9 * k..n + 1];
      assert ds[..9 * (k + 1)] == a + g;
      assert |a| % 9 == 0;
      PackAppend(a, g);
      PackGroup(g);
      assert Group(g) == g;
    }
  }

  lemma HornerNone()
    ensures Horner([]) == 0
  {
  }

  /** Lines 96-101: one digit into the buffer. */
  method PutDigit(x: array<nat>, k0: nat, j0: nat, d: nat, fmt: Format, ghost ds: seq<nat>, ghost n: nat)
    returns (k: nat, j: nat)
    requires Buffered(x, ds, n, k0, j0, fmt) && k0 < fmt.KMax() - 3 && n < |ds| && d == ds[n]
    modifies x
    ensures Buffered(x, ds, n + 1, k, j, fmt)
  {
    hide Words, Horner;
    HornerNone();
    ghost var words := x[..k0];
    WordsStep(ds, n, k0, fmt);
    HornerStep(ds, 9 * k0, n);
    assert j0 == 0 ==> ds[9 * k0..n] == [];
    x[k0] := if j0 > 0 then x[k0] * 10 + d else d;
    assert x[k0] == Horner(ds[9 * k0..n + 1]);
    k, j := if j0 == 8 then k0 + 1 else k0, if j0 == 8 then 0 else j0 + 1;
    assert x[..k] == Words(ds, n + 1, k, fmt) by {
      assert x[..k0] == words && x[..k0 + 1] == words + [x[k0]];
    }
  }

  lemma AllZeroSnoc(s: seq<nat>, d: nat)
    ensures AllZero(s + [d]) <==> AllZero(s) && d == 0
  {
    assert forall i :: 0 <= i < |s| ==> (s + [d])[i] == s[i];
    assert (s + [d])[|s|] == d;
  }

  lemma StickyTwice(w: seq<nat>)
    requires w != []
    ensures StickyLast(StickyLast(w)) == StickyLast(w)
    ensures StickyLast(w) == w[|w| - 1 := W.Or(w[|w| - 1], 1)]
  {
    OrOne(w[|w| - 1]);
    OrOne(W.Or(w[|w| - 1], 1));
  }

  // The sticky mark after one more digit past the buffer.
  lemma WordsSticky(ds: seq<nat>, n: nat, fmt: Format)
    requires Capacity(fmt) <= n < |ds|
    ensures var k := fmt.KMax() - 3;
      var w := Words(ds, n, k, fmt);
      && |w| == k
      && Words(ds, n + 1, k, fmt) == if ds[n] == 0 then w else w[k - 1 := W.Or(w[k - 1], 1)]
  {
    var k, cap := fmt.KMax() - 3, Capacity(fmt);
    PackLength(ds[..9 * k]);
    assert ds[cap..n + 1] == ds[cap..n] + [ds[n]];
    AllZeroSnoc(ds[cap..n], ds[n]);
    StickyTwice(Pack(ds[..9 * k]));
    StickyTwice(Words(ds, n, k, fmt));
  }

  /** Lines 104-105: a digit past the buffer only leaves a mark. */
  method SkipDigit(x: array<nat>, d: nat, fmt: Format, ghost ds: seq<nat>, ghost n: nat)
    requires Buffered(x, ds, n, fmt.KMax() - 3, 0, fmt) && n < |ds| && d == ds[n]
    modifies x
    ensures Buffered(x, ds, n + 1, fmt.KMax() - 3, 0, fmt)
  {
    ghost var k, w := fmt.KMax() - 3, x[..fmt.KMax() - 3];
    WordsSticky(ds, n, fmt);
    if d != 0 {
      x[fmt.KMax() - 4] := W.Or(x[fmt.KMax() - 4], 1);
      assert x[..k] == w[k - 1 := W.Or(w[k - 1], 1)];
    }
  }

  // ---------- walking over the mantissa ----------

  /** Position pos of the text: q digits of the mantissa and maybe its radix point lie behind. */
  ghost predicate Cursor(s: string, start: nat, pos: nat, q: nat, dot: bool) {
    var m := MantissaAt(s, start);
    && pos == start + q + (if dot then 1 else 0)
    && (if dot then m.point && |m.whole| <= q <= |m.Digits()| else q <= |m.whole|)
  }

  lemma CursorStep(s: string, start: nat, pos: nat, q: nat, dot: bool)
    requires Cursor(s, start, pos, q, dot)
    ensures var m, c := MantissaAt(s, start), CharAt(s, pos);
      && (IsDigit(c) ==> q < |m.Digits()| && DigitOf(c) == m.Digits()[q] && Cursor(s, start, pos + 1, q + 1, dot))
      && (c == '.' as int && !dot ==> q == |m.whole| && Cursor(s, start, pos + 1, q, true))
      && (!IsDigit(c) && (dot || c != '.' as int) ==> q == |m.Digits()| && pos == start + m.Length())
  {
    var m := MantissaAt(s, start);
    if dot {
      DigitRunAt(s, start + |m.whole| + 1, q - |m.whole|);
    } else {
      DigitRunAt(s, start, q);
    }
  }

  lemma {:induction false} LeadingZerosAre(s: seq<nat>, n: nat)
    requires n <= |s| && AllZero(s[..n]) && (n == |s| || s[n] != 0)
    ensures LeadingZeros(s) == n
  {
    if n > 0 {
      assert s[0] == s[..n][0] == 0;
      assert s[1..][..n - 1] == s[..n][1..];
      LeadingZerosAre(s[1..], n - 1);
    }
  }

  /** One run of zeros: line 81 or line 84. */
  method SkipRun(s: string, ghost start: nat, pos0: nat, ghost q0: nat, ghost dot: bool)
    returns (pos: nat, count: nat, ghost q: nat)
    requires Cursor(s, start, pos0, q0, dot) && AllZero(MantissaAt(s, start).Digits()[..q0])
    ensures Cursor(s, start, pos, q, dot) && q == q0 + count && CharAt(s, pos) != '0' as int
    ensures q <= |MantissaAt(s, start).Digits()| && AllZero(MantissaAt(s, start).Digits()[..q])
  {
    ghost var ds := MantissaAt(s, start).Digits();
    pos, count, q := pos0, 0, q0;
    while CharAt(s, pos) == '0' as int
      invariant Cursor(s, start, pos, q, dot) && q == q0 + count
      invariant q <= |ds| && AllZero(ds[..q])
      decreases |s| - pos
    {
      CursorStep(s, start, pos, q, dot);
      assert ds[..q + 1] == ds[..q] + [ds[q]];
      AllZeroSnoc(ds[..q], ds[q]);
      pos, count, q := pos + 1, count + 1, q + 1;
    }
  }

  /** Lines 80-85: leading zeros on both sides of the radix point. */
  method SkipZeros(s: string, start: nat) returns (pos: nat, gotrad: bool, gotdig: bool, lrp: int, ghost q: nat)
    ensures Cursor(s, start, pos, q, gotrad) && q == LeadingZeros(MantissaAt(s, start).Digits())
    ensures gotdig <==> q > 0
    ensures if gotrad then lrp == |MantissaAt(s, start).whole| - q else lrp == 0 && CharAt(s, pos) != '.' as int
  {
    ghost var m := MantissaAt(s, start);
    var count;
    gotrad, lrp := false, 0;
    assert m.Digits()[..0] == [];
    pos, count, q := SkipRun(s, start, start, 0, false);
    gotdig := count > 0;
    CursorStep(s, start, pos, q, false);
    if CharAt(s, pos) == '.' as int {
      gotrad := true;
      pos, count, q := SkipRun(s, start, pos + 1, q, true);
      gotdig := gotdig || count > 0;
      lrp := -(count as int);
      CursorStep(s, start, pos, q, true);
    }
    LeadingZerosAre(m.Digits(), q);
  }

  /** The counters of the digit loop. */
  datatype Scan = Scan(k: nat, j: nat, lrp: int, dc: nat, lnz: nat, gotrad: bool)

  ghost predicate Scanned(s: string, start: nat, x: array<nat>, fmt: Format, pos: nat, st: Scan)
    reads x
  {
    var m := MantissaAt(s, start);
    var z, ds := LeadingZeros(m.Digits()), Significant(m);
    && Cursor(s, start, pos, z + st.dc, st.gotrad) && st.dc <= |ds|
    && (st.gotrad ==> st.lrp == |m.whole| - z)
    && Buffered(x, ds, st.dc, st.k, st.j, fmt)
    && st.lnz == LastNonzero(ds, Min(st.dc, Capacity(fmt)))
  }

  // One character of the digit loop, lines 89-106.
  method ReadChar(s: string, start: nat, x: array<nat>, fmt: Format, pos: nat, st: Scan) returns (st': Scan)
    requires Scanned(s, start, x, fmt, pos, st)
    requires IsDigit(CharAt(s, pos)) || (CharAt(s, pos) == '.' as int && !st.gotrad)
    modifies x
    ensures Scanned(s, start, x, fmt, pos + 1, st')
    ensures st'.dc == if IsDigit(CharAt(s, pos)) then st.dc + 1 else st.dc
  {
    hide Buffered, LastNonzero, MantissaAt;
    ghost var m := MantissaAt(s, start);
    ghost var z := LeadingZeros(m.Digits());
    CursorStep(s, start, pos, z + st.dc, st.gotrad);
    if CharAt(s, pos) == '.' as int {
      st' := st.(gotrad := true, lrp := st.dc);
    } else {
      var d := DigitOf(CharAt(s, pos));
      assert m.Digits()[z..][st.dc] == m.Digits()[z + st.dc] == d;
      var k, j, lnz := ReadDigit(x, st.k, st.j, st.lnz, d, fmt, Significant(m), st.dc);
      st' := Scan(k, j, st.lrp, st.dc + 1, lnz, st.gotrad);
    }
  }

  lemma NothingBuffered(x: array<nat>, ds: seq<nat>, fmt: Format)
    requires x.Length == fmt.KMax() && x[0] == 0
    ensures Buffered(x, ds, 0, 0, 0, fmt) && LastNonzero(ds, 0) == 0
  {
    assert ds[..0] == [] && x[..0] == [];
  }

  /** Lines 80-108: the significant digits into the buffer, the radix point into lrp. */
  method ReadMantissa(s: string, start: nat, x: array<nat>, fmt: Format)
    returns (st: Scan, gotdig: bool, pos: nat)
    requires x.Length == fmt.KMax()
    modifies x
    ensures var m := MantissaAt(s, start);
      && Scanned(s, start, x, fmt, pos, st) && st.dc == |Significant(m)|
      && st.lrp == |m.whole| - LeadingZeros(m.Digits())
      && (gotdig <==> m.Digits() != [])
      && pos == start + m.Length()
  {
    hide LastNonzero, MantissaAt, Buffered, LeadingZeros;
    ghost var m := MantissaAt(s, start);
    ghost var z := LeadingZeros(m.Digits());
    var gotrad, lrp;
    ghost var q;
    pos, gotrad, gotdig, lrp, q := SkipZeros(s, start);
    st := Scan(0, 0, lrp, 0, 0, gotrad);
    x[0] := 0;
    NothingBuffered(x, Significant(m), fmt);
    while IsDigit(CharAt(s, pos)) || (CharAt(s, pos) == '.' as int && !st.gotrad)
      invariant Scanned(s, start, x, fmt, pos, st)
      invariant gotdig <==> z + st.dc > 0
      decreases |s| - pos
    {
      gotdig := gotdig || IsDigit(CharAt(s, pos));
      st := ReadChar(s, start, x, fmt, pos, st);
      pos := pos + 1;
    }
    CursorStep(s, start, pos, z + st.dc, st.gotrad);
    if !st.gotrad {
      st := st.(lrp := st.dc);
    }
  }

  // Lines 93-106: one digit, kept or only marked.
  method ReadDigit(x: array<nat>, k0: nat, j0: nat, lnz0: nat, d: nat, fmt: Format, ghost ds: seq<nat>, ghost n: nat)
    returns (k: nat, j: nat, lnz: nat)
    requires Buffered(x, ds, n, k0, j0, fmt) && n < |ds| && d == ds[n]
    requires lnz0 == LastNonzero(ds, Min(n, Capacity(fmt)))
    modifies x
    ensures Buffered(x, ds, n + 1, k, j, fmt)
    ensures lnz == LastNonzero(ds, Min(n + 1, Capacity(fmt)))
  {
    k, j, lnz := k0, j0, lnz0;
    if k0 < fmt.KMax() - 3 {
      if d != 0 {
        lnz := 9 * k0 + j0 + 1;
      }
      k, j := PutDigit(x, k0, j0, d, fmt, ds, n);
    } else {
      SkipDigit(x, d, fmt, ds, n);
    }
  }

  // ---------- from the buffer to the ring ----------

  lemma HornerZero(g: seq<nat>, m: nat)
    ensures Horner(g + Zeros(m + 1)) == Horner(g + Zeros(m)) * 10
  {
    assert (g + Zeros(m + 1))[..|g| + m] == g + Zeros(m);
  }

  lemma PackTail(ds: seq<nat>, k: nat, j: nat)
    requires |ds| == 9 * k + j && j < 9
    ensures Pack(ds) == Pack(ds[..9 * k]) + (if j == 0 then [] else [Horner(ds[9 * k..] + Zeros(9 - j))])
  {
    var a, g := ds[..9 * k], ds[9 * k..];
    assert ds == a + g;
    PackAppend(a, g);
    if j > 0 {
      PackGroup(g);
    }
  }

  lemma KeptTail(ds: seq<nat>, k: nat, j: nat, fmt: Format)
    requires 9 * k + j == Min(|ds|, Capacity(fmt)) && j < 9
    ensures Kept(ds, fmt)
      == Words(ds, |ds|, k, fmt) + (if j == 0 then [] else [Horner(ds[9 * k..9 * k + j] + Zeros(9 - j))])
  {
    if |ds| <= Capacity(fmt) {
      assert ds[9 * k..9 * k + j] == ds[9 * k..];
      PackTail(ds, k, j);
    } else {
      assert k == fmt.KMax() - 3;
    }
  }

  lemma HoldsFromZero(x: array<nat>, k: nat, s: seq<nat>)
    requires k < x.Length && x[..k] == s
    ensures Holds(x, 0, k, s)
  {
    SlotIsWrap(0, k, x.Length);
    forall i {:trigger s[i]} | 0 <= i < k ensures x[Slot(0, i, x.Length)] == s[i] {
      SlotIsWrap(0, i, x.Length);
      assert x[..k][i] == s[i];
    }
  }

  /** Lines 146-151: fill up the last word. */
  method FillWord(x: array<nat>, k: nat, j0: nat, ghost g: seq<nat>)
    requires k < x.Length && j0 < 9 && x[k] == Horner(g)
    modifies x
    ensures x[k] == Horner(g + Zeros(9 - j0))
    ensures forall i :: 0 <= i < x.Length && i != k ==> x[i] == old(x[i])
  {
    var j := j0;
    assert g + Zeros(0) == g;
    while j < 9
      invariant j0 <= j <= 9 && x[k] == Horner(g + Zeros(j - j0))
      invariant forall i :: 0 <= i < x.Length && i != k ==> x[i] == old(x[i])
    {
      HornerZero(g, j - j0);
      x[k] := x[k] * 10;
      j := j + 1;
    }
  }

  /** Lines 146-154: the digits as a window that starts at 0. */
  method Complete(x: array<nat>, k0: nat, j0: nat, fmt: Format, ghost ds: seq<nat>) returns (k: nat)
    requires Buffered(x, ds, |ds|, k0, j0, fmt)
    modifies x
    ensures Holds(x, 0, k, Kept(ds, fmt))
  {
    ghost var words := x[..k0];
    KeptTail(ds, k0, j0, fmt);
    k := k0;
    if j0 > 0 {
      FillWord(x, k0, j0, ds[9 * k0..9 * k0 + j0]);
      k := k + 1;
      assert x[..k] == words + [x[k0]];
    }
    HoldsFromZero(x, k, Kept(ds, fmt));
  }

  // ---------- the scaling loops on the ring ----------

  datatype Place = Place(a: nat, z: nat, rp: int, e2: int)

  /** The ring between p.a and p.z, with p.rp and p.e2, stands for the number n. */
  ghost predicate Represents(x: array<nat>, p: Place, n: Num)
    reads x
  {
    Holds(x, p.a, p.z, n.digits) && p.rp == n.rp && p.e2 == n.e2
  }

  /** Lines 167-183. */
  method AlignRing(x: array<nat>, p: Place, ghost n: Num) returns (q: Place)
    requires Represents(x, p, n) && n.Valid() && |n.digits| < x.Length - 1
    modifies x
    ensures Represents(x, q, Align(n))
  {
    q := p;
    if p.rp % 9 != 0 {
      var rpm9 := p.rp % 9;
      var p10 := TenTo(9 - rpm9);
      var a, rp, carry := DividePass(x, p.a, p.z, p.rp, p10, n.digits);
      TenToDivides(9 - rpm9);
      DividedShape(n.digits, p10);
      var z := AppendCarry(x, a, p.z, carry, Divided(n.digits, p10).digits);
      q := Place(a, z, rp + 9 - rpm9, p.e2);
    }
  }

  /** Lines 188-209: one round of the upscale loop. */
  method UpscaleRound(x: array<nat>, p: Place, ghost n: Num) returns (q: Place)
    requires Represents(x, p, n) && n.Valid() && x.Length >= 3
    modifies x
    ensures Represents(x, q, UpStep(n, x.Length - 1))
  {
    var z, carry := MultiplyPass(x, p.a, p.z, n.digits);
    var a, rp := p.a, p.rp;
    if carry != 0 {
      rp := rp + 9;
      a, z := CarryFront(x, a, z, carry, Multiplied(n.digits).digits);
    }
    q := Place(a, z, rp, p.e2 - 29);
  }

  /** Lines 203-208. */
  method CarryFront(x: array<nat>, a0: nat, z0: nat, carry: nat, ghost s: seq<nat>) returns (a: nat, z: nat)
    requires Holds(x, a0, z0, s) && x.Length >= 3 && carry != 0
    modifies x
    ensures Holds(x, a, z, Prepend(Product(carry, s), x.Length - 1))
  {
    SlotBefore(a0, x.Length, |s|);
    z := z0;
    if Wrap(a0 - 1, x.Length) == z {
      z := MergeLast(x, a0, z, s);
      a := StoreFront(x, a0, z, carry, Merge(s));
    } else {
      a := StoreFront(x, a0, z, carry, s);
    }
  }

  /** Lines 185-210. */
  method UpscaleRing(x: array<nat>, p: Place, fmt: Format, ghost n: Num) returns (q: Place)
    requires Represents(x, p, n) && Fits(n, fmt) && x.Length == fmt.KMax()
    modifies x
    ensures Represents(x, q, Upscale(n, fmt))
  {
    q := p;
    ghost var m := n;
    while q.rp < fmt.Point() || (q.rp == fmt.Point() && x[q.a] < fmt.Top()[0])
      invariant Represents(x, q, m) && Fits(m, fmt) && Upscale(m, fmt) == Upscale(n, fmt)
      decreases Places(m, fmt), LIMIT - m.digits[0]
    {
      FrontDigit(x, q, m);
      q := UpscaleRound(x, q, m);
      m := UpNext(m, fmt);
    }
    FrontDigit(x, q, m);
  }

  lemma FrontDigit(x: array<nat>, p: Place, n: Num)
    requires Represents(x, p, n) && n.digits != []
    ensures x[p.a] == n.digits[0]
  {
    assert Slot(p.a, 0, x.Length) == p.a;
  }

  /** Lines 216-223: does the ring exceed the largest window, digit by digit? */
  method TestTop(x: array<nat>, p: Place, fmt: Format, ghost n: Num) returns (above: bool)
    requires Represents(x, p, n)
    ensures above == Exceeds(n.digits, fmt.Top())
  {
    var th := fmt.Top();
    var i := 0;
    above := false;
    assert n.digits[0..] == n.digits && th[0..] == th;
    while i < |th|
      invariant i <= |th| && i <= |n.digits|
      invariant Exceeds(n.digits, th) == Exceeds(n.digits[i..], th[i..])
    {
      var k := RingIndex(x, p, i, n);
      if k == p.z || x[k] < th[i] {
        return false;
      }
      if x[k] > th[i] {
        return true;
      }
      assert n.digits[i..][1..] == n.digits[i + 1..] && th[i..][1..] == th[i + 1..];
      i := i + 1;
    }
  }

  // a + i & MASK
  method RingIndex(x: array<nat>, p: Place, i: nat, ghost n: Num) returns (k: nat)
    requires Represents(x, p, n) && i <= |n.digits|
    ensures k < x.Length && (k == p.z <==> i == |n.digits|)
    ensures i < |n.digits| ==> x[k] == n.digits[i]
  {
    SlotIsWrap(p.a, i, x.Length);
    SlotDistinct(p.a, |n.digits|, |n.digits| + 1, x.Length);
    k := Wrap(p.a + i, x.Length);
    assert k == Slot(p.a, i, x.Length);
  }

  /** Lines 225-243: one round of the downscale loop. */
  method DownscaleRound(x: array<nat>, p: Place, fmt: Format, ghost n: Num) returns (q: Place)
    requires Represents(x, p, n) && n.Valid() && x.Length == fmt.KMax()
    modifies x
    ensures Represents(x, q, DownStep(n, Shift(n.rp, fmt), fmt.KMax() - 1))
  {
    var sh := Shift(p.rp, fmt);
    var a, rp, carry := DividePass(x, p.a, p.z, p.rp, Twos(sh), n.digits);
    var z := AppendCarry(x, a, p.z, carry, Divided(n.digits, Twos(sh)).digits);
    q := Place(a, z, rp, p.e2 + sh);
  }

  /** Lines 212-244. */
  method DownscaleRing(x: array<nat>, p: Place, fmt: Format, ghost n: Num) returns (q: Place)
    requires Represents(x, p, n) && AboveFloor(n, fmt) && x.Length == fmt.KMax()
    modifies x
    ensures Represents(x, q, Downscale(n, fmt))
  {
    q := p;
    ghost var m := n;
    while true
      invariant Represents(x, q, m) && AboveFloor(m, fmt) && Downscale(m, fmt) == Downscale(n, fmt)
      decreases m.rp, m.digits[0]
    {
      var above := TestTop(x, q, fmt, m);
      if !above && q.rp == fmt.Point() {
        break;
      }
      DownStepKeepsFloor(m, fmt);
      q := DownscaleRound(x, q, fmt, m);
      m := DownStep(m, Shift(m.rp, fmt), fmt.KMax() - 1);
    }
  }

  // ---------- the whole conversion ----------

  /**
   How decfloat leaves its integer part.  Exact is one of the early returns: the small
   integer x0 times 10^e10, by one multiplication or division with an entry of p10s.
   Scaled goes on to assembling the significand.
   */
  datatype Outcome =
    | NoDigits | BadExponent | Zero | Overflow | Underflow
    | Exact(x0: nat, e10: int)
    | Scaled

  predicate Marked(s: string, pos: nat) {
    CharAt(s, pos) == 'e' as int || CharAt(s, pos) == 'E' as int
  }

  /** The exponent scanned behind the mantissa; a marker without digits counts as zero. */
  function Scanned10(s: string, pos: nat): int {
    if Marked(s, pos) && ExponentAt(s, pos + 1).Exponent? then ExponentAt(s, pos + 1).Scanned() else 0
  }

  function EndOf(s: string, start: nat): nat {
    start + MantissaAt(s, start).Length()
  }

  /** lrp: where the radix point stands behind the first significant digit. */
  function PointOf(s: string, start: nat): int {
    var m := MantissaAt(s, start);
    |m.whole| - LeadingZeros(m.Digits()) + Scanned10(s, EndOf(s, start))
  }

  // x0 >> bits == 0, or more bits than a digit can have
  predicate FitsIn(x0: nat, bits: nat) {
    bits > 30 || x0 / Twos(bits) == 0
  }

  /** Lines 159-165. */
  function MidSize(ds: seq<nat>, rp: int, bits: nat, fmt: Format): (o: Outcome)
    requires ds != [] && bits >= 24
  {
    var x0, lnz := Kept(ds, fmt)[0], LastNonzero(ds, Min(|ds|, Capacity(fmt)));
    if lnz < 9 && lnz <= rp < 18 then
      if rp == 9 then Exact(x0, 0)
      else if rp < 9 then Exact(x0, rp - 9)
      else if FitsIn(x0, bits - 3 * (rp - 9)) then Exact(x0, rp - 9)
      else Scaled
    else Scaled
  }

  /** Lines 131-165, for the significant digits ds with the radix point rp places in. */
  function DecideDigits(ds: seq<nat>, rp: int, bits: nat, emin: int, fmt: Format): (o: Outcome)
    requires bits >= 24 && emin < 0
  {
    if ds == [] then Zero
    else if rp == |ds| && |ds| < 10 && FitsIn(Horner(ds), bits) then Exact(Horner(ds), 0)
    else if rp > -emin / 2 then Overflow
    else if rp < emin - 2 * fmt.MantDig() then Underflow
    else MidSize(ds, rp, bits, fmt)
  }

  /** Lines 110-165. */
  function Decide(s: string, start: nat, bits: nat, emin: int, pok: bool, fmt: Format): (o: Outcome)
    requires bits >= 24 && emin < 0
  {
    var m, end := MantissaAt(s, start), EndOf(s, start);
    if m.Digits() == [] then NoDigits
    else if Marked(s, end) && ExponentAt(s, end + 1).NoExponent? && !pok then BadExponent
    else DecideDigits(Significant(m), PointOf(s, start), bits, emin, fmt)
  }

  /** The number in the ring when scaling starts. */
  function Read(s: string, start: nat, fmt: Format): Num {
    Num(Kept(Significant(MantissaAt(s, start)), fmt), PointOf(s, start), 0)
  }

  lemma {:induction false} SignificantFirst(ds: seq<nat>)
    ensures var z := LeadingZeros(ds); z < |ds| ==> ds[z..][0] > 0
  {
    LeadingZerosMeaning(ds);
  }

  lemma SignificantFacts(m: Mantissa, fmt: Format)
    requires AreDigits(m.Digits())
    ensures var ds := Significant(m);
      && AreDigits(ds) && (ds != [] ==> ds[0] > 0)
      && (ds != [] ==> Num(Kept(ds, fmt), 0, 0).Valid() && AtMost(Kept(ds, fmt), BASE - 1))
      && |Kept(ds, fmt)| <= fmt.KMax() - 3
  {
    var ds := Significant(m);
    SignificantFirst(m.Digits());
    KeptBound(ds, fmt);
  }

  lemma PackFirst(ds: seq<nat>)
    requires AreDigits(ds) && ds != []
    ensures Pack(ds) != [] && AtMost(Pack(ds), BASE - 1)
    ensures ds[0] > 0 ==> Pack(ds)[0] > 0
  {
    PackExact(ds);
    if ds[0] > 0 {
      assert Group(ds)[0] == ds[0];
      HornerPositive(Group(ds));
    }
  }

  lemma StickyKeeps(w: seq<nat>)
    requires w != [] && AtMost(w, BASE - 1)
    ensures AtMost(StickyLast(w), BASE - 1) && (w[0] > 0 ==> StickyLast(w)[0] > 0)
  {
    OrOne(w[|w| - 1]);
  }

  lemma KeptBound(ds: seq<nat>, fmt: Format)
    requires AreDigits(ds)
    ensures AtMost(Kept(ds, fmt), BASE - 1) && |Kept(ds, fmt)| <= fmt.KMax() - 3
    ensures ds != [] ==> Kept(ds, fmt) != []
    ensures ds != [] && ds[0] > 0 ==> Kept(ds, fmt)[0] > 0
  {
    if ds != [] {
      var head := if |ds| <= Capacity(fmt) then ds else ds[..Capacity(fmt)];
      PackFirst(head);
      PackLength(head);
      StickyKeeps(Pack(head));
      assert Kept(ds, fmt) == Pack(head) || Kept(ds, fmt) == StickyLast(Pack(head));
    }
  }

  lemma MantissaDigits(s: string, i: nat)
    ensures AreDigits(MantissaAt(s, i).Digits())
  {
    DigitRunDigits(s, i);
    DigitRunDigits(s, i + |DigitRun(s, i)| + 1);
  }

  // What lines 132 and 135 see in the first word.
  lemma FirstWord(x: array<nat>, ds: seq<nat>, k: nat, j: nat, fmt: Format)
    requires Buffered(x, ds, |ds|, k, j, fmt) && (ds != [] ==> ds[0] > 0)
    ensures x[0] == 0 <==> ds == []
    ensures |ds| < 10 ==> x[0] == Horner(ds)
  {
    if k == 0 {
      assert ds[0..j] == ds;
      if ds != [] { HornerPositive(ds); }
    } else {
      assert x[0] == x[..k][0] == Words(ds, |ds|, k, fmt)[0];
      var a := ds[..9 * k];
      PackLength(a);
      HornerPositive(Group(a));
      assert Pack(a)[0] == Horner(Group(a));
      assert |ds| == 9 ==> Group(a) == ds;
    }
  }

  /** Lines 158-165. */
  method MidSizeReturn(x: array<nat>, lnz: nat, rp: int, bits: nat, fmt: Format,
        ghost ds: seq<nat>) returns (o: Outcome)
    requires bits >= 24 && ds != [] && Kept(ds, fmt) != [] && x.Length > 0 && x[0] == Kept(ds, fmt)[0]
    requires lnz == LastNonzero(ds, Min(|ds|, Capacity(fmt)))
    ensures o == MidSize(ds, rp, bits, fmt)
  {
    if lnz < 9 && lnz <= rp && rp < 18 {
      if rp == 9 {
        return Exact(x[0], 0);
      }
      if rp < 9 {
        return Exact(x[0], rp - 9);
      }
      var bitlim := bits - 3 * (rp - 9);
      if bitlim > 30 || x[0] / Twos(bitlim) == 0 {
        return Exact(x[0], rp - 9);
      }
    }
    return Scaled;
  }

  /** Lines 167-244. */
  method ScaleRing(x: array<nat>, p: Place, fmt: Format, ghost n: Num) returns (q: Place)
    requires Represents(x, p, n) && n.Valid() && |n.digits| <= fmt.KMax() - 3 && x.Length == fmt.KMax()
    modifies x
    ensures Represents(x, q, Final(n, fmt))
  {
    AlignShape(n);
    UpscaleAboveFloor(Align(n), fmt);
    q := AlignRing(x, p, n);
    q := UpscaleRing(x, q, fmt, Align(n));
    q := DownscaleRing(x, q, fmt, Upscale(Align(n), fmt));
  }

  /** Lines 77-124: the mantissa, and the exponent if there is one. */
  method ReadText(s: string, start: nat, x: array<nat>, pok: bool, fmt: Format)
    returns (gotdig: bool, ok: bool, st: Scan, lrp: int)
    requires x.Length == fmt.KMax()
    modifies x
    ensures var m, end := MantissaAt(s, start), EndOf(s, start);
      && (gotdig <==> m.Digits() != [])
      && (gotdig ==> (ok <==> !(Marked(s, end) && ExponentAt(s, end + 1).NoExponent? && !pok)))
      && (gotdig && ok ==>
            && lrp == PointOf(s, start) && st.dc == |Significant(m)|
            && Buffered(x, Significant(m), st.dc, st.k, st.j, fmt)
            && st.lnz == LastNonzero(Significant(m), Min(st.dc, Capacity(fmt))))
  {
    hide Buffered, LastNonzero, MantissaAt, ExponentAt, LeadingZeros;
    var pos;
    st, gotdig, pos := ReadMantissa(s, start, x, fmt);
    lrp, ok := st.lrp, true;
    if gotdig && Marked(s, pos) {
      var found, e10 := ScanExp(s, pos + 1);
      if found {
        lrp := lrp + e10;
      } else {
        ok := pok;
      }
    }
  }

  /** Lines 131-143, once digits have been read: the outcome is settled, or the mid-size test settles it. */
  method EarlyReturn(x0: nat, lrp: int, dc: nat, bits: nat, emin: int, fmt: Format, ghost ds: seq<nat>)
    returns (o: Outcome)
    requires bits >= 24 && emin < 0
    requires dc == |ds| && (x0 == 0 <==> ds == []) && (|ds| < 10 ==> x0 == Horner(ds))
    ensures !o.Scaled? ==> o == DecideDigits(ds, lrp, bits, emin, fmt)
    ensures o.Scaled? ==> ds != [] && DecideDigits(ds, lrp, bits, emin, fmt) == MidSize(ds, lrp, bits, fmt)
  {
    if x0 == 0 {
      return Zero;
    }
    if lrp == dc && dc < 10 && (bits > 30 || x0 / Twos(bits) == 0) {
      return Exact(x0, 0);
    }
    if lrp > -emin / 2 {
      return Overflow;
    }
    if lrp < emin - 2 * fmt.MantDig() {
      return Underflow;
    }
    return Scaled;
  }

  /**
   decfloat up to line 244.  The early returns are Decide's; otherwise the ring holds the
   number read, aligned and scaled into the window.
   */
  method ConvertText(s: string, start: nat, bits: nat, emin: int, pok: bool, fmt: Format)
    returns (o: Outcome, x: array<nat>, p: Place)
    requires bits >= 24 && emin < 0
    ensures o == Decide(s, start, bits, emin, pok, fmt)
    ensures o.Scaled? ==> var n := Read(s, start, fmt);
      n.Valid() && |n.digits| <= fmt.KMax() - 3 && Represents(x, p, Final(n, fmt))
  {
    x := new nat[fmt.KMax()];
    p := Place(0, 0, 0, 0);
    var gotdig, ok, st, lrp := ReadText(s, start, x, pok, fmt);
    if !gotdig {
      return NoDigits, x, p;
    }
    if !ok {
      return BadExponent, x, p;
    }
    ghost var ds := Significant(MantissaAt(s, start));
    MantissaDigits(s, start);
    SignificantFacts(MantissaAt(s, start), fmt);
    FirstWord(x, ds, st.k, st.j, fmt);
    o := EarlyReturn(x[0], lrp, st.dc, bits, emin, fmt, ds);
    if o.Scaled? {
      o, p := Continue(x, st, lrp, bits, fmt, ds);
    }
  }

  // Lines 146-244.
  method Continue(x: array<nat>, st: Scan, lrp: int, bits: nat, fmt: Format, ghost ds: seq<nat>)
    returns (o: Outcome, p: Place)
    requires bits >= 24 && ds != [] && Buffered(x, ds, |ds|, st.k, st.j, fmt)
    requires st.lnz == LastNonzero(ds, Min(|ds|, Capacity(fmt)))
    requires Num(Kept(ds, fmt), lrp, 0).Valid() && |Kept(ds, fmt)| <= fmt.KMax() - 3
    modifies x
    ensures o == MidSize(ds, lrp, bits, fmt)
    ensures o.Scaled? ==> Represents(x, p, Final(Num(Kept(ds, fmt), lrp, 0), fmt))
  {
    var k := Complete(x, st.k, st.j, fmt, ds);
    p := Place(0, k, lrp, 0);
    FrontDigit(x, p, Num(Kept(ds, fmt), lrp, 0));
    o := MidSizeReturn(x, st.lnz, lrp, bits, fmt, ds);
    if o.Scaled? {
      p := ScaleRing(x, p, fmt, Num(Kept(ds, fmt), lrp, 0));
    }
  }
}
