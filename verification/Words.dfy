/**
 Unsigned 64-bit words (size_t, uintptr_t) as numbers below 2^64, with the bit operations that
 dynlink.c uses for alignment.
 */
module Words {

  const WORD := 0x1_0000_0000_0000_0000

  /** The word that a sum or difference wraps around to. */
  function Wrap(x: int): (w: nat)
    ensures w < WORD
    ensures 0 <= x < WORD ==> w == x
  {
    x % WORD
  }

  /** Bitwise and. */
  function And(x: nat, y: nat): nat
    decreases x
  {
    if x == 0 then 0 else (if x % 2 == 1 && y % 2 == 1 then 1 else 0) + 2 * And(x / 2, y / 2)
  }

  /** Bitwise or. */
  function Or(x: nat, y: nat): (r: nat)
    ensures x <= r && y <= r <= x + y
    ensures x % 2 == 1 || y % 2 == 1 <==> r % 2 == 1
  {
    if x == 0 then y else if y == 0 then x
    else 2 * Or(x / 2, y / 2) + (if x % 2 == 1 || y % 2 == 1 then 1 else 0)
  }

  predicate PowerOfTwo(a: nat) {
    a == 1 || (a > 1 && a % 2 == 0 && PowerOfTwo(a / 2))
  }

  function Minus(x: nat): nat {
    Wrap(-(x as int))
  }

  /** MAXP2 of line 40. */
  function MaxP2(a: nat, b: nat): nat {
    Minus(And(Minus(a), Minus(b)))
  }

  /** ALIGN of line 41. */
  function Align(x: nat, y: nat): nat {
    And(Wrap(x + y - 1), Minus(y))
  }

  // ---------- remainders ----------

  lemma RemainderIs(x: int, a: nat, q: int, r: nat)
    requires a > 0 && x == q * a + r && r < a
    ensures x % a == r
  {
    var d := x / a - q;
    assert d * a == r - x % a by {
      assert x == (x / a) * a + x % a;
      assert (x / a - q) * a == (x / a) * a - q * a;
    }
    assert d >= 1 ==> d * a >= a;
    assert d <= -1 ==> d * a + a <= 0;
  }

  lemma Quotient(x: int, a: nat)
    requires a > 0
    ensures x == (x / a) * a + x % a
  {
  }

  lemma MultipleSum(x: int, y: int, a: nat)
    requires a > 0 && x % a == 0
    ensures (x + y) % a == y % a && (y - x) % a == y % a
  {
    Quotient(x, a);
    Quotient(y, a);
    assert (x / a + y / a) * a == (x / a) * a + (y / a) * a;
    assert (y / a - x / a) * a == (y / a) * a - (x / a) * a;
    RemainderIs(x + y, a, x / a + y / a, y % a);
    RemainderIs(y - x, a, y / a - x / a, y % a);
  }

  // Rounding down to a multiple.
  lemma RoundDown(x: int, a: nat)
    requires a > 0
    ensures (x - x % a) % a == 0
  {
    Quotient(x, a);
    RemainderIs(x - x % a, a, x / a, 0);
  }

  lemma MultipleOfMultiple(x: int, a: nat, b: nat)
    requires a > 0 && b > 0 && b % a == 0 && x % b == 0
    ensures x % a == 0
  {
    Quotient(x, b);
    Quotient(b, a);
    assert x == (x / b) * ((b / a) * a) == ((x / b) * (b / a)) * a;
    RemainderIs(x, a, (x / b) * (b / a), 0);
  }

  // ---------- powers of two ----------

  lemma {:induction false} PowersDivide(a: nat, b: nat)
    requires PowerOfTwo(a) && PowerOfTwo(b) && a <= b
    ensures b % a == 0
  {
    if a > 1 {
      PowersDivide(a / 2, b / 2);
      Quotient(b / 2, a / 2);
      assert b == ((b / 2) / (a / 2)) * a by {
        assert 2 * (((b / 2) / (a / 2)) * (a / 2)) == ((b / 2) / (a / 2)) * (2 * (a / 2));
      }
      RemainderIs(b, a, (b / 2) / (a / 2), 0);
    }
  }

  lemma HalfRemainder(x: nat, a: nat)
    requires a > 0
    ensures x % (2 * a) == x % 2 + 2 * ((x / 2) % a)
  {
    Quotient(x / 2, a);
    var q := (x / 2) / a;
    assert 2 * (q * a) == q * (2 * a);
    RemainderIs(x, 2 * a, q, x % 2 + 2 * ((x / 2) % a));
  }

  /** The mask a - 1 of a power of two takes the remainder by it. */
  lemma {:induction false} MaskIsRemainder(x: nat, a: nat)
    requires PowerOfTwo(a)
    ensures And(x, a - 1) == x % a
  {
    if x == 0 {
      RemainderIs(0, a, 0, 0);
    } else if a == 1 {
      AndZero(x);
    } else {
      MaskIsRemainder(x / 2, a / 2);
      assert (a - 1) / 2 == a / 2 - 1 && (a - 1) % 2 == 1;
      HalfRemainder(x, a / 2);
    }
  }

  lemma {:induction false} AndZero(x: nat)
    ensures And(x, 0) == 0
  {
    if x != 0 { AndZero(x / 2); }
  }

  lemma {:induction false} AndCommutes(x: nat, y: nat)
    ensures And(x, y) == And(y, x)
  {
    if x == 0 {
      AndZero(y);
    } else if y == 0 {
      AndZero(x);
    } else {
      AndCommutes(x / 2, y / 2);
    }
  }

  // Negating below a bound n that both divide.
  lemma {:induction false} AndOfNegatives(a: nat, b: nat, n: nat)
    requires PowerOfTwo(a) && PowerOfTwo(b) && PowerOfTwo(n) && a <= b <= n
    ensures And(n - a, n - b) == n - b
  {
    if a == 1 {
      AndCommutes(n - 1, n - b);
      MaskIsRemainder(n - b, n);
      RemainderIs(n - b, n, 0, n - b);
    } else if a < n {
      AndOfNegatives(a / 2, b / 2, n / 2);
    }
  }

  lemma {:induction false} PowerProduct(a: nat, b: nat)
    requires PowerOfTwo(a) && PowerOfTwo(b)
    ensures PowerOfTwo(a * b)
  {
    if a > 1 {
      PowerProduct(a / 2, b);
      assert a * b == 2 * ((a / 2) * b);
    }
  }

  lemma WordIsPower()
    ensures PowerOfTwo(WORD) && PowerOfTwo(32)
  {
    assert PowerOfTwo(4);
    PowerProduct(4, 4);
    PowerProduct(4 * 4, 2);
    PowerProduct(0x10, 0x10);
    PowerProduct(0x100, 0x100);
    PowerProduct(0x1_0000, 0x1_0000);
    PowerProduct(0x1_0000_0000, 0x1_0000_0000);
  }

  lemma WrapNegative(x: nat)
    requires 0 < x < WORD
    ensures Minus(x) == WORD - x
  {
    RemainderIs(-(x as int), WORD, -1, WORD - x);
  }

  /** MAXP2 is the maximum of two powers of two. */
  lemma MaxP2IsMax(a: nat, b: nat)
    requires PowerOfTwo(a) && PowerOfTwo(b) && a < WORD && b < WORD
    ensures MaxP2(a, b) == if a <= b then b else a
  {
    hide And, PowerOfTwo, Minus;
    PowerPositive(a);
    PowerPositive(b);
    WordIsPower();
    WrapNegative(a);
    WrapNegative(b);
    if a <= b {
      AndOfNegatives(a, b, WORD);
      WrapNegative(WORD - b);
    } else {
      AndOfNegatives(b, a, WORD);
      AndCommutes(WORD - a, WORD - b);
      WrapNegative(WORD - a);
    }
  }

  lemma PowerPositive(a: nat)
    requires PowerOfTwo(a)
    ensures a > 0
  {
  }

  // The low bits do not see the wrap-around.
  lemma MaskOfWrapped(x: int, a: nat)
    requires PowerOfTwo(a) && a < WORD
    ensures And(Wrap(x), a - 1) == x % a
  {
    WordIsPower();
    MaskIsRemainder(Wrap(x), a);
    PowersDivide(a, WORD);
    Quotient(x, WORD);
    MultipleTimes(x / WORD, WORD, a);
    MultipleSum(x / WORD * WORD, x % WORD, a);
  }

  lemma MultipleTimes(q: int, b: nat, a: nat)
    requires a > 0 && b % a == 0
    ensures (q * b) % a == 0
  {
    Quotient(b, a);
    assert q * b == (q * (b / a)) * a;
    RemainderIs(q * b, a, q * (b / a), 0);
  }

  lemma {:induction false} ComplementMask(x: nat, a: nat, n: nat)
    requires PowerOfTwo(a) && PowerOfTwo(n) && a <= n && x < n
    ensures a > 0 && And(x, n - a) == x - x % a
  {
    if x == 0 {
      RemainderIs(0, a, 0, 0);
    } else if a == 1 {
      MaskIsRemainder(x, n);
      RemainderIs(x, n, 0, x);
      RemainderIs(x, 1, x, 0);
    } else {
      ComplementMask(x / 2, a / 2, n / 2);
      HalfRemainder(x, a / 2);
      assert (n - a) / 2 == n / 2 - a / 2 && (n - a) % 2 == 0;
    }
  }

  /** ALIGN rounds up to a multiple. */
  lemma AlignRoundsUp(x: nat, y: nat)
    requires PowerOfTwo(y) && y < WORD && x + y - 1 < WORD
    ensures y > 0 && x <= Align(x, y) < x + y && Align(x, y) % y == 0
  {
    hide And, PowerOfTwo, Minus;
    PowerPositive(y);
    WordIsPower();
    WrapNegative(y);
    ComplementMask(x + y - 1, y, WORD);
    RoundDown(x + y - 1, y);
  }

  lemma {:induction false} OrZero(x: nat)
    ensures Or(x, 0) == x
  {
    if x != 0 { OrZero(x / 2); }
  }

  /** Or with bits below a multiple of a power of two adds them. */
  lemma {:induction false} OrIsSum(q: nat, a: nat, y: nat)
    requires PowerOfTwo(a) && y < a
    ensures Or(q * a, y) == q * a + y
  {
    if a == 1 {
      OrZero(q);
    } else {
      assert q * a == 2 * (q * (a / 2));
      OrIsSum(q, a / 2, y / 2);
    }
  }

  /** Or of a field into a gap: p has no bits below a, q none below b and none from a up, lo only bits below b. */
  lemma {:induction false} OrDisjoint(p: nat, a: nat, q: nat, b: nat, lo: nat)
    requires PowerOfTwo(a) && PowerOfTwo(b) && b <= a
    requires a > 0 && b > 0 && p % a == 0 && q % b == 0 && q < a && lo < b
    ensures Or(p + lo, q) == p + q + lo
  {
    hide Or, PowerOfTwo;
    if b == 1 {
      OrAboveZeros(p, a, q);
    } else {
      HalvesFit(p, a, q, b);
      OrDisjoint(p / 2, a / 2, q / 2, b / 2, lo / 2);
      OrHalves(p / 2, q / 2, lo);
    }
  }

  lemma OrAboveZeros(p: nat, a: nat, q: nat)
    requires PowerOfTwo(a) && a > 0 && p % a == 0 && q < a
    ensures Or(p, q) == p + q
  {
    hide Or, PowerOfTwo;
    Quotient(p, a);
    OrIsSum(p / a, a, q);
  }

  lemma HalvesFit(p: nat, a: nat, q: nat, b: nat)
    requires PowerOfTwo(a) && PowerOfTwo(b) && 1 != b <= a && b > 0 && p % a == 0 && q % b == 0 && q < a
    ensures PowerOfTwo(a / 2) && PowerOfTwo(b / 2) && a % 2 == 0 && b % 2 == 0 && p % 2 == 0 && q % 2 == 0
    ensures p / 2 % (a / 2) == 0 && q / 2 % (b / 2) == 0
  {
    HalfRemainder(p, a / 2);
    HalfRemainder(q, b / 2);
  }

  lemma OrHalves(p: nat, q: nat, lo: nat)
    ensures Or(2 * p + lo, 2 * q) == lo % 2 + 2 * Or(p + lo / 2, q)
  {
  }

  lemma OrIntoGap(hi: nat, a: nat, mid: nat, b: nat, lo: nat)
    requires PowerOfTwo(a) && PowerOfTwo(b) && b <= a && mid * b < a && lo < b
    ensures Or(hi * a + lo, mid * b) == hi * a + mid * b + lo
  {
    hide Or, PowerOfTwo;
    RemainderIs(hi * a, a, hi, 0);
    RemainderIs(mid * b, b, mid, 0);
    OrDisjoint(hi * a, a, mid * b, b, lo);
  }
}
