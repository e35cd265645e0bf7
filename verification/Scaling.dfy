/** Multiplying a real by 2^e or 10^e for an exponent of either sign. */
module Scaling {

  datatype Radix = Two | Ten

  ghost function Up(r: Radix, v: real): real {
    if r == Two then 2.0 * v else 10.0 * v
  }

  ghost function Down(r: Radix, v: real): real {
    if r == Two then v / 2.0 else v / 10.0
  }

  ghost function Scale(r: Radix, e: int, v: real): real
    decreases if e < 0 then -e else e
  {
    if e == 0 then v
    else if e > 0 then Up(r, Scale(r, e - 1, v))
    else Down(r, Scale(r, e + 1, v))
  }

  lemma {:induction false} ScaleInside(r: Radix, e: int, v: real)
    ensures Scale(r, e + 1, v) == Scale(r, e, Up(r, v)) == Up(r, Scale(r, e, v))
    decreases if e < 0 then -e else e
  {
    if e > 0 {
      ScaleInside(r, e - 1, v);
    } else if e < 0 {
      ScaleInside(r, e + 1, v);
    }
  }

  lemma {:induction false} ScaleCompose(r: Radix, e: int, k: nat, v: real)
    ensures Scale(r, e, Scale(r, k, v)) == Scale(r, e + k, v)
    decreases k
  {
    if k > 0 {
      ScaleCompose(r, e + 1, k - 1, v);
      ScaleInside(r, e, Scale(r, k - 1, v));
    }
  }

  // Scaling is additive, so it keeps order and signs.
  lemma {:induction false} ScaleAdd(r: Radix, e: int, v: real, w: real)
    ensures Scale(r, e, v + w) == Scale(r, e, v) + Scale(r, e, w)
    ensures v > 0.0 ==> Scale(r, e, v) > 0.0
    ensures v == 0.0 ==> Scale(r, e, v) == 0.0
    decreases if e < 0 then -e else e
  {
    if e > 0 {
      ScaleAdd(r, e - 1, v, w);
    } else if e < 0 {
      ScaleAdd(r, e + 1, v, w);
    }
  }

  lemma ScaleInjective(r: Radix, e: int, v: real, w: real)
    requires Scale(r, e, v) == Scale(r, e, w)
    ensures v == w
  {
    ScaleAdd(r, e, v - w, w);
    ScaleAdd(r, e, w - v, v);
  }

  lemma SmallScales(v: real)
    ensures Scale(Two, 1, v) == 2.0 * v
    ensures Scale(Two, 9, v) == 512.0 * v
    ensures Scale(Two, 29, v) == 536870912.0 * v
    ensures Scale(Ten, 9, v) == 1000000000.0 * v
  {
    assert Scale(Two, 3, v) == 8.0 * v;
    assert Scale(Two, 6, v) == 64.0 * v;
    assert Scale(Two, 9, v) == 512.0 * v;
    assert Scale(Two, 12, v) == 4096.0 * v;
    assert Scale(Two, 15, v) == 32768.0 * v;
    assert Scale(Two, 18, v) == 262144.0 * v;
    assert Scale(Two, 21, v) == 2097152.0 * v;
    assert Scale(Two, 24, v) == 16777216.0 * v;
    assert Scale(Two, 27, v) == 134217728.0 * v;
    assert Scale(Ten, 3, v) == 1000.0 * v;
    assert Scale(Ten, 6, v) == 1000000.0 * v;
  }

  /** The radix-ten integer power, for the table p10s. */
  function TenTo(k: nat): (p: nat)
    ensures p > 0
  {
    if k == 0 then 1 else 10 * TenTo(k - 1)
  }

  /** The integer power of two. */
  function Twos(k: nat): (p: nat)
    ensures p > 0
  {
    if k == 0 then 1 else 2 * Twos(k - 1)
  }
}
