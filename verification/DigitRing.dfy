/**
 The circular buffer x[KMAX] of decfloat and the loops that rewrite it in place.  The
 window runs from a up to but not including z; "& MASK" is arithmetic modulo KMAX.
 */
module DigitRing {
  import W = Words
  import opened DigitFractions
  import opened ScaledDigits

  /** i & (k - 1) for an index at most one lap away. */
  function Wrap(i: int, k: nat): (w: nat)
    requires 0 - k <= i < 2 * k
    ensures w < k
  {
    if i < 0 then i + k else if i >= k then i - k else i
  }

  /** The slot i steps after slot a. */
  function Slot(a: nat, i: nat, k: nat): (w: nat)
    requires a < k
    ensures w < k
  {
    if i == 0 then a else Wrap(Slot(a, i - 1, k) + 1, k)
  }

  lemma {:induction false} SlotIsWrap(a: nat, i: nat, k: nat)
    requires a < k && i <= k
    ensures Slot(a, i, k) == Wrap(a + i, k)
  {
    if i > 0 {
      SlotIsWrap(a, i - 1, k);
    }
  }

  lemma SlotStep(a: nat, i: nat, k: nat)
    requires a < k
    ensures Slot(a, i + 1, k) == Wrap(Slot(a, i, k) + 1, k)
  {
  }

  // Within one lap, slots differ when offsets do.
  lemma SlotDistinct(a: nat, i: nat, n: nat, k: nat)
    requires a < k && i < n <= k
    ensures forall m :: 0 <= m < n && m != i ==> Slot(a, m, k) != Slot(a, i, k)
  {
    SlotIsWrap(a, i, k);
    forall m | 0 <= m < n && m != i ensures Slot(a, m, k) != Slot(a, i, k) {
      SlotIsWrap(a, m, k);
    }
  }

  lemma {:induction false} SlotAdd(a: nat, i: nat, j: nat, k: nat)
    requires a < k
    ensures Slot(Slot(a, i, k), j, k) == Slot(a, i + j, k)
  {
    if j > 0 {
      SlotAdd(a, i, j - 1, k);
    }
  }

  /** The slots from a on hold the digits y. */
  ghost predicate View(x: array<nat>, a: nat, y: seq<nat>)
    reads x
  {
    && a < x.Length && |y| < x.Length
    && forall i {:trigger y[i]} :: 0 <= i < |y| ==> x[Slot(a, i, x.Length)] == y[i]
  }

  /** The window from a up to z holds the digits s. */
  ghost predicate Holds(x: array<nat>, a: nat, z: nat, s: seq<nat>)
    reads x
  {
    View(x, a, s) && z == Slot(a, |s|, x.Length)
  }

  method Store(x: array<nat>, k: nat, d: nat, ghost a: nat, ghost y: seq<nat>, ghost i: nat)
    requires View(x, a, y) && i < |y| && k == Slot(a, i, x.Length)
    modifies x
    ensures View(x, a, y[i := d])
  {
    SlotDistinct(a, i, |y|, x.Length);
    x[k] := d;
  }

  // ---------- division ----------

  datatype Pass = Pass(digits: seq<nat>, carry: nat, zeros: nat)

  /** The pass after its first i digits, the way the loop computes it. */
  ghost function DivPass(s: seq<nat>, p: nat, i: nat): (r: Pass)
    requires p > 0 && i <= |s|
    ensures |r.digits| == i && r.zeros <= i
  {
    if i == 0 then Pass([], 0, 0)
    else
      var r := DivPass(s, p, i - 1);
      var (high, low) := DivDigit(s[i - 1], p);
      var d := high + r.carry;
      Pass(r.digits + [d], low, if r.zeros == i - 1 && d == 0 then i else r.zeros)
  }

  lemma {:induction false} DivPassMeaning(s: seq<nat>, p: nat, i: nat)
    requires p > 0 && i <= |s|
    ensures DivDigits(s[..i], 0, p) == Quotient(DivPass(s, p, i).digits, DivPass(s, p, i).carry)
  {
    if i > 0 {
      DivPassMeaning(s, p, i - 1);
      assert s[..i] == s[..i - 1] + [s[i - 1]];
      DivDigitsSnoc(s[..i - 1], s[i - 1], 0, p);
    }
  }

  lemma {:induction false} DivPassZeros(s: seq<nat>, p: nat, i: nat)
    requires p > 0 && i <= |s|
    ensures LeadingZeros(DivPass(s, p, i).digits) == DivPass(s, p, i).zeros
  {
    if i > 0 {
      DivPassZeros(s, p, i - 1);
      var r := DivPass(s, p, i - 1);
      LeadingZerosSnoc(r.digits, DivDigit(s[i - 1], p).0 + r.carry);
    }
  }

  lemma DivPassDone(s: seq<nat>, p: nat)
    requires p > 0
    ensures var r := DivPass(s, p, |s|);
      Divided(s, p) == Quotient(r.digits[r.zeros..], r.carry) && Dropped(s, p) == r.zeros
  {
    DivPassMeaning(s, p, |s|);
    DivPassZeros(s, p, |s|);
    assert s[..|s|] == s;
  }

  lemma HoldsSuffix(x: array<nat>, a: nat, z: nat, t: seq<nat>, drop: nat)
    requires Holds(x, a, z, t) && drop <= |t|
    ensures Holds(x, Slot(a, drop, x.Length), z, t[drop..])
  {
    var k := x.Length;
    SlotAdd(a, drop, |t| - drop, k);
    forall i | 0 <= i < |t| - drop ensures x[Slot(Slot(a, drop, k), i, k)] == t[drop..][i] {
      SlotAdd(a, drop, i, k);
    }
  }

  // The ring when the first i digits have been rewritten.
  ghost function DivView(s: seq<nat>, p: nat, i: nat): seq<nat>
    requires p > 0 && i <= |s|
  {
    DivPass(s, p, i).digits + s[i..]
  }

  lemma DivViewStep(s: seq<nat>, p: nat, i: nat)
    requires p > 0 && i < |s|
    ensures |DivView(s, p, i)| == |s| && DivView(s, p, i)[i] == s[i]
    ensures DivView(s, p, i + 1) == DivView(s, p, i)[i := DivDigit(s[i], p).0 + DivPass(s, p, i).carry]
  {
  }

  // What the test of line 232 sees, and what dropping the digit does.
  lemma DivLeadStep(s: seq<nat>, p: nat, i: nat, a: nat, k: nat)
    requires p > 0 && i < |s| < k && a < k
    ensures var r := DivPass(s, p, i);
      && (Slot(a, i, k) == Slot(a, r.zeros, k) <==> r.zeros == i)
      && Slot(a, r.zeros + 1, k) == Wrap(Slot(a, r.zeros, k) + 1, k)
      && DivPass(s, p, i + 1).carry == DivDigit(s[i], p).1
      && DivPass(s, p, i + 1).zeros ==
           if r.zeros == i && DivDigit(s[i], p).0 + r.carry == 0 then r.zeros + 1 else r.zeros
  {
    SlotDistinct(a, i, |s|, k);
    SlotStep(a, DivPass(s, p, i).zeros, k);
  }

  // One digit of the loop body.
  method DivideDigit(x: array<nat>, k: nat, a: nat, rp: int, carry: nat, p: nat, ghost a0: nat,
        ghost s: seq<nat>, ghost i: nat)
    returns (a': nat, rp': int, carry': nat)
    requires p > 0 && i < |s| && View(x, a0, DivView(s, p, i)) && k == Slot(a0, i, x.Length)
    requires carry == DivPass(s, p, i).carry && a == Slot(a0, DivPass(s, p, i).zeros, x.Length)
    modifies x
    ensures View(x, a0, DivView(s, p, i + 1))
    ensures var r := DivPass(s, p, i + 1);
      && carry' == r.carry && a' == Slot(a0, r.zeros, x.Length)
      && rp' == rp - 9 * (r.zeros - DivPass(s, p, i).zeros)
  {
    DivViewStep(s, p, i);
    DivLeadStep(s, p, i, a0, x.Length);
    assert x[k] == s[i] by { assert x[k] == DivView(s, p, i)[i]; }
    var (high, low) := DivDigit(x[k], p);
    var d := high + carry;
    Store(x, k, d, a0, DivView(s, p, i), i);
    a', rp', carry' := a, rp, low;
    if k == a && d == 0 {
      a' := Wrap(a + 1, x.Length);
      rp' := rp - 9;
    }
  }

  /** Lines 172-180 and 228-237: divide the window by p from the left, dropping leading zeros. */
  method DivideLoop(x: array<nat>, a0: nat, z: nat, rp0: int, p: nat, ghost s: seq<nat>)
    returns (a: nat, rp: int, carry: nat)
    requires p > 0 && View(x, a0, DivView(s, p, 0)) && z == Slot(a0, |s|, x.Length) && |s| < x.Length
    modifies x
    ensures View(x, a0, DivView(s, p, |s|))
    ensures var r := DivPass(s, p, |s|);
      a == Slot(a0, r.zeros, x.Length) && rp == rp0 - 9 * r.zeros && carry == r.carry
  {
    var kmax := x.Length;
    ghost var i: nat := 0;
    a, rp, carry := a0, rp0, 0;
    var k := a;
    SlotDistinct(a0, |s|, |s| + 1, kmax);
    while k != z
      invariant i <= |s| && k == Slot(a0, i, kmax)
      invariant View(x, a0, DivView(s, p, i))
      invariant a == Slot(a0, DivPass(s, p, i).zeros, kmax) && carry == DivPass(s, p, i).carry
      invariant rp == rp0 - 9 * DivPass(s, p, i).zeros
      decreases |s| - i
    {
      a, rp, carry := DivideDigit(x, k, a, rp, carry, p, a0, s, i);
      SlotStep(a0, i, kmax);
      i := i + 1;
      k := Wrap(k + 1, kmax);
    }
  }

  method DividePass(x: array<nat>, a0: nat, z: nat, rp0: int, p: nat, ghost s: seq<nat>)
    returns (a: nat, rp: int, carry: nat)
    requires Holds(x, a0, z, s) && p > 0
    modifies x
    ensures Holds(x, a, z, Divided(s, p).digits)
    ensures carry == Divided(s, p).carry && rp == rp0 - 9 * Dropped(s, p)
  {
    assert DivView(s, p, 0) == s;
    a, rp, carry := DivideLoop(x, a0, z, rp0, p, s);
    DivPassDone(s, p);
    assert DivView(s, p, |s|) == DivPass(s, p, |s|).digits;
    HoldsSuffix(x, a0, z, DivPass(s, p, |s|).digits, DivPass(s, p, |s|).zeros);
  }

  // ---------- multiplication ----------

  datatype MulState = MulState(carry: nat, digits: seq<nat>, kept: nat)

  /** The pass after it has worked from the right end down to digit i. */
  ghost function MulPass(s: seq<nat>, i: nat): (r: MulState)
    requires i <= |s|
    ensures |r.digits| == |s| - i && r.kept <= |s| - i
    decreases |s| - i
  {
    if i == |s| then MulState(0, [], 0)
    else
      var r := MulPass(s, i + 1);
      var (carry, d) := MulDigit(s[i], r.carry);
      MulState(carry, [d] + r.digits, if r.kept > 0 || d != 0 then r.kept + 1 else 0)
  }

  lemma {:induction false} MulPassMeaning(s: seq<nat>, i: nat)
    requires i <= |s|
    ensures var r := MulPass(s, i);
      MulDigits(s[i..]) == Product(r.carry, r.digits) && r.kept == |Trim(r.digits)|
    decreases |s| - i
  {
    if i < |s| {
      MulPassMeaning(s, i + 1);
      var r := MulPass(s, i + 1);
      assert s[i..][1..] == s[i + 1..];
      TrimCons(MulDigit(s[i], r.carry).1, r.digits);
    }
  }

  lemma SlotBack(a: nat, i: nat, k: nat)
    requires a < k
    ensures Wrap(Slot(a, i + 1, k) - 1, k) == Slot(a, i, k)
  {
    SlotStep(a, i, k);
  }

  // Where z stands after digit i: the leading position is never trimmed.
  ghost function MulEnd(s: seq<nat>, i: nat): nat
    requires i <= |s|
  {
    if i == 0 && MulPass(s, 0).kept == 0 then 1 else i + MulPass(s, i).kept
  }

  // The ring when the digits from i on have been rewritten.
  ghost function MulView(s: seq<nat>, i: nat): seq<nat>
    requires i <= |s|
  {
    s[..i] + MulPass(s, i).digits
  }

  lemma MulViewStep(s: seq<nat>, i: nat)
    requires i < |s|
    ensures |MulView(s, i + 1)| == |s| && MulView(s, i + 1)[i] == s[i]
    ensures MulView(s, i) == MulView(s, i + 1)[i := MulDigit(s[i], MulPass(s, i + 1).carry).1]
  {
  }

  // What the trimming test of line 198 sees.
  lemma MulEndStep(s: seq<nat>, i: nat, a: nat, k: nat)
    requires i < |s| < k && a < k
    ensures Wrap(Slot(a, MulEnd(s, i + 1), k) - 1, k) == Slot(a, i, k) <==> MulPass(s, i + 1).kept == 0
    ensures Slot(a, i, k) == a <==> i == 0
    ensures MulEnd(s, i) ==
      var last := MulPass(s, i + 1).kept == 0 && i != 0 && MulDigit(s[i], MulPass(s, i + 1).carry).1 == 0;
      if last then i else MulEnd(s, i + 1)
  {
    var kept := MulPass(s, i + 1).kept;
    SlotBack(a, i + kept, k);
    SlotDistinct(a, i, |s|, k);
    assert Slot(a, 0, k) == a;
    assert kept != 0 ==> Slot(a, i + kept, k) != Slot(a, i, k);
  }

  // One digit of the loop body.
  method MultiplyDigit(x: array<nat>, a: nat, k: nat, z0: nat, carry0: nat, ghost s: seq<nat>, ghost i: nat)
    returns (z: nat, carry: nat)
    requires i < |s| && View(x, a, MulView(s, i + 1)) && k == Slot(a, i, x.Length)
    requires carry0 == MulPass(s, i + 1).carry && z0 == Slot(a, MulEnd(s, i + 1), x.Length)
    modifies x
    ensures View(x, a, MulView(s, i))
    ensures carry == MulPass(s, i).carry && z == Slot(a, MulEnd(s, i), x.Length)
  {
    MulViewStep(s, i);
    MulEndStep(s, i, a, x.Length);
    assert x[k] == s[i] by { assert x[k] == MulView(s, i + 1)[i]; }
    var (c, d) := MulDigit(x[k], carry0);
    Store(x, k, d, a, MulView(s, i + 1), i);
    carry := c;
    z := if k == Wrap(z0 - 1, x.Length) && k != a && d == 0 then k else z0;
  }

  /** Lines 187-200: multiply the window by 2^29 from the right, trimming trailing zeros. */
  method MultiplyLoop(x: array<nat>, a: nat, z0: nat, ghost s: seq<nat>) returns (z: nat, carry: nat)
    requires View(x, a, MulView(s, |s|)) && z0 == Slot(a, |s|, x.Length) && s != []
    modifies x
    ensures View(x, a, MulView(s, 0))
    ensures carry == MulPass(s, 0).carry && z == Slot(a, MulEnd(s, 0), x.Length)
  {
    var kmax := x.Length;
    ghost var i: nat := |s| - 1;
    z, carry := z0, 0;
    SlotBack(a, i, kmax);
    var k: nat := Wrap(z - 1, kmax);
    while true
      invariant 0 <= i < |s| && k == Slot(a, i, kmax)
      invariant View(x, a, MulView(s, i + 1))
      invariant carry == MulPass(s, i + 1).carry && z == Slot(a, MulEnd(s, i + 1), kmax)
      decreases i
    {
      z, carry := MultiplyDigit(x, a, k, z, carry, s, i);
      SlotLeads(a, i, kmax);
      if k == a {
        break;
      }
      SlotBack(a, i - 1, kmax);
      i := i - 1;
      k := Wrap(k - 1, kmax);
    }
  }

  method MultiplyPass(x: array<nat>, a: nat, z0: nat, ghost s: seq<nat>) returns (z: nat, carry: nat)
    requires Holds(x, a, z0, s) && s != []
    modifies x
    ensures Holds(x, a, z, Multiplied(s).digits) && carry == Multiplied(s).carry
  {
    assert MulView(s, |s|) == s;
    z, carry := MultiplyLoop(x, a, z0, s);
    MulPassDone(s);
    assert MulView(s, 0) == MulPass(s, 0).digits;
    HoldsPrefix(x, a, MulPass(s, 0).digits, MulEnd(s, 0));
  }

  lemma SlotLeads(a: nat, i: nat, k: nat)
    requires a < k && i < k
    ensures Slot(a, i, k) == a <==> i == 0
  {
    SlotIsWrap(a, i, k);
  }

  lemma MulPassDone(s: seq<nat>)
    requires s != []
    ensures var r := MulPass(s, 0);
      r.carry == MulDigits(s).carry && TrimKeep(MulDigits(s).digits) == r.digits[..MulEnd(s, 0)]
  {
    MulPassMeaning(s, 0);
    assert s[0..] == s;
  }

  lemma HoldsPrefix(x: array<nat>, a: nat, t: seq<nat>, n: nat)
    requires View(x, a, t) && n <= |t|
    ensures Holds(x, a, Slot(a, n, x.Length), t[..n])
  {
  }

  // ---------- carries that need a slot ----------

  lemma SlotBefore(a: nat, k: nat, n: nat)
    requires a < k && n < k
    ensures Wrap(a - 1, k) < k && Slot(Wrap(a - 1, k), 1, k) == a
    ensures forall i :: 0 <= i <= n ==> Slot(Wrap(a - 1, k), i + 1, k) == Slot(a, i, k)
    ensures n < k - 1 ==> forall i :: 0 <= i <= n ==> Slot(a, i, k) != Wrap(a - 1, k)
    ensures n == k - 1 ==> Slot(a, n, k) == Wrap(a - 1, k)
  {
    var b := Wrap(a - 1, k);
    SlotStep(b, 0, k);
    assert Slot(b, 0, k) == b;
    forall i | 0 <= i <= n ensures Slot(b, i + 1, k) == Slot(a, i, k) {
      SlotAdd(b, 1, i, k);
    }
    SlotIsWrap(a, n, k);
    forall i | 0 <= i <= n ensures n < k - 1 ==> Slot(a, i, k) != b {
      SlotIsWrap(a, i, k);
    }
  }

  /** x[a] = carry, with a moved one slot to the left. */
  method StoreFront(x: array<nat>, a0: nat, z: nat, d: nat, ghost s: seq<nat>) returns (a: nat)
    requires Holds(x, a0, z, s) && |s| < x.Length - 1
    modifies x
    ensures Holds(x, a, z, [d] + s)
  {
    SlotBefore(a0, x.Length, |s|);
    a := Wrap(a0 - 1, x.Length);
    x[a] := d;
    forall i | 0 <= i < |s| + 1 ensures x[Slot(a, i, x.Length)] == ([d] + s)[i] {
      if i > 0 {
        assert Slot(a, i, x.Length) == Slot(a0, i - 1, x.Length);
        assert s[i - 1] == ([d] + s)[i];
      }
    }
  }

  /** Lines 205-206: the last digit is merged into its neighbour. */
  method MergeLast(x: array<nat>, a: nat, z0: nat, ghost s: seq<nat>) returns (z: nat)
    requires Holds(x, a, z0, s) && |s| >= 2
    modifies x
    ensures Holds(x, a, z, Merge(s))
  {
    var k := x.Length;
    SlotBack(a, |s| - 1, k);
    SlotBack(a, |s| - 2, k);
    z := Wrap(z0 - 1, k);
    var last := Wrap(z - 1, k);
    assert x[z] == s[|s| - 1] && x[last] == s[|s| - 2];
    var d := W.Or(x[last], x[z]);
    Store(x, last, d, a, s, |s| - 2);
    HoldsPrefix(x, a, s[|s| - 2 := d], |s| - 1);
    assert s[|s| - 2 := d][..|s| - 1] == Merge(s);
  }

  /** Lines 238-243: x[z] = carry if there is a slot, else x[z-1] |= 1. */
  method AppendCarry(x: array<nat>, a: nat, z0: nat, carry: nat, ghost s: seq<nat>) returns (z: nat)
    requires Holds(x, a, z0, s) && x.Length >= 2
    modifies x
    ensures Holds(x, a, z, Append(Quotient(s, carry), x.Length - 1))
  {
    var k := x.Length;
    z := z0;
    if carry != 0 {
      SlotIsWrap(a, |s| + 1, k);
      SlotStep(a, |s|, k);
      if Wrap(z + 1, k) != a {
        SlotDistinct(a, |s|, |s| + 1, k);
        x[z] := carry;
        z := Wrap(z + 1, k);
        forall i {:trigger (s + [carry])[i]} | 0 <= i < |s| + 1 ensures x[Slot(a, i, k)] == (s + [carry])[i] {
          if i < |s| {
            assert s[i] == (s + [carry])[i];
          }
        }
      } else {
        SlotBack(a, |s| - 1, k);
        var last := Wrap(z - 1, k);
        assert x[last] == s[|s| - 1];
        Store(x, last, W.Or(x[last], 1), a, s, |s| - 1);
      }
    }
  }
}
