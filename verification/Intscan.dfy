/**
 __intscan of intscan.c: a number in any base, accumulated first in 32 and then in 64 bits, and
 clamped to a limit.
 */
module Intscan {
  import opened Wrappers
  import opened Words
  import opened Scaling

  const UINT := 0x1_0000_0000
  const ULLONG_MAX := 0xffff_ffff_ffff_ffff

  datatype Errno = Ok | Erange | Einval

  // ---------- characters ----------

  /** The digit table: 255 for everything that is no digit, the end of the input (-1) included. */
  function Val(c: int): nat {
    if '0' as int <= c <= '9' as int then c - '0' as int
    else if 'A' as int <= c <= 'Z' as int then c - 'A' as int + 10
    else if 'a' as int <= c <= 'z' as int then c - 'a' as int + 10
    else 255
  }

  predicate IsSpace(c: int) {
    c == ' ' as int || 9 <= c <= 13
  }

  function SkipSpace(s: string, i: nat): (j: nat)
    ensures i <= j && !IsSpace(CharAt(s, j))
    decreases |s| - i
  {
    if IsSpace(CharAt(s, i)) then SkipSpace(s, i + 1) else i
  }

  predicate IsX(c: int) {
    c == 'x' as int || c == 'X' as int
  }

  /** Where the digits are, what comes before them and in which base they count. */
  datatype Prefix = NoNumber | OnlyHex(x: nat) | Digits(neg: bool, base: nat, from: nat)

  function Sign(s: string, i: nat): bool {
    CharAt(s, i) == '-' as int
  }

  function AfterSign(s: string, i: nat): nat {
    if CharAt(s, i) == '+' as int || CharAt(s, i) == '-' as int then i + 1 else i
  }

  /** Spaces, a sign, and the prefix that base 0 and base 16 allow. */
  function Front(s: string, base: nat): Prefix {
    var i := SkipSpace(s, 0);
    var d := AfterSign(s, i);
    if (base == 0 || base == 16) && CharAt(s, d) == '0' as int then
      if IsX(CharAt(s, d + 1)) then
        if Val(CharAt(s, d + 2)) >= 16 then OnlyHex(d + 1) else Digits(Sign(s, i), 16, d + 2)
      else Digits(Sign(s, i), if base == 0 then 8 else base, d + 1)
    else
      var b := if base == 0 then 10 else base;
      if Val(CharAt(s, d)) >= b then NoNumber else Digits(Sign(s, i), b, d)
  }

  // ---------- the number ----------

  /** The end of the digits from i on. */
  function RunEnd(s: string, base: nat, i: nat): (j: nat)
    requires base <= 36
    ensures i <= j && Val(CharAt(s, j)) >= base
    decreases |s| - i
  {
    if Val(CharAt(s, i)) < base then RunEnd(s, base, i + 1) else i
  }

  /** What the digits from i to j mean. */
  function Number(s: string, base: nat, i: nat, j: nat): nat {
    if j <= i then 0 else Append(Number(s, base, i, j - 1), base, Val(CharAt(s, j - 1)))
  }

  function Append(y: nat, base: nat, d: nat): nat {
    y * base + d
  }

  lemma AppendGrows(y: nat, base: nat, d: nat)
    requires base > 0
    ensures y <= Append(y, base, d)
  {
    assert y <= y * base;
  }

  lemma {:induction false} NumberGrows(s: string, base: nat, i: nat, j: nat, k: nat)
    requires base > 0 && i <= j <= k
    ensures Number(s, base, i, j) <= Number(s, base, i, k)
  {
    hide Append;
    if j < k {
      NumberGrows(s, base, i, j, k - 1);
      AppendGrows(Number(s, base, i, k - 1), base, Val(CharAt(s, k - 1)));
    }
  }

  // ---------- powers of two ----------

  /** The constant string that the index 0x17*base>>5&7 picks from. */
  const SHIFTS: seq<nat> := [0, 1, 2, 4, 7, 3, 6, 5]

  function ShiftOf(base: nat): nat {
    SHIFTS[(0x17 * base / 32) % 8]
  }

  /** The bases taken for powers of two are those, and the lookup gives their logarithms. */
  lemma ShiftIsLog(base: nat)
    requires 1 <= base <= 36
    ensures And(base, base - 1) == 0 <==> base in {1, 2, 4, 8, 16, 32}
    ensures And(base, base - 1) == 0 ==> Twos(ShiftOf(base)) == base && PowerOfTwo(base) && ShiftOf(base) <= 5
  {
    hide And, Twos, PowerOfTwo, ShiftOf;
    PowerShifts();
    if base !in {1, 2, 4, 8, 16, 32} { NotPower(base); }
  }

  lemma PowerShifts()
    ensures And(1, 0) == 0 && And(2, 1) == 0 && And(4, 3) == 0 && And(8, 7) == 0 && And(16, 15) == 0 && And(32, 31) == 0
    ensures Twos(0) == 1 && Twos(1) == 2 && Twos(2) == 4 && Twos(3) == 8 && Twos(4) == 16
      && Twos(5) == 32
    ensures ShiftOf(1) == 0 && ShiftOf(2) == 1 && ShiftOf(4) == 2 && ShiftOf(8) == 3 && ShiftOf(16) == 4
      && ShiftOf(32) == 5
    ensures PowerOfTwo(1) && PowerOfTwo(2) && PowerOfTwo(4) && PowerOfTwo(8) && PowerOfTwo(16) && PowerOfTwo(32)
  {
    assert PowerOfTwo(8) && PowerOfTwo(32);
  }

  lemma NotPower(base: nat)
    requires 1 <= base <= 36 && base !in {1, 2, 4, 8, 16, 32}
    ensures And(base, base - 1) != 0
  {
    OddHigh(base);
    var half := base / 2;
    OddHigh(half);
    OddHigh(half / 2);
    OddHigh(half / 2 / 2);
  }

  // An odd number above 1 keeps a bit when one is taken off; twice a number does what the number does.
  lemma OddHigh(n: nat)
    ensures n > 1 && n % 2 == 1 ==> And(n, n - 1) != 0
    ensures n > 0 ==> And(2 * n, 2 * n - 1) == 2 * And(n, n - 1)
  {
    if n > 1 && n % 2 == 1 { SelfAnd(n / 2); }
  }

  lemma {:induction false} SelfAnd(n: nat)
    ensures And(n, n) == n
  {
    if n > 0 { SelfAnd(n / 2); }
  }

  // x << k
  function Shl(x: nat, k: nat): nat {
    x * Twos(k)
  }

  // ---------- clamping ----------

  /** Lines 82-98, from the number itself: it overflowed 64 bits if it is above ULLONG_MAX. */
  function Final(neg: bool, v: nat, lim: nat): (nat, Errno)
    requires lim <= ULLONG_MAX
  {
    var y := if v > ULLONG_MAX then lim else v;
    if y >= lim && lim % 2 == 0 && !neg then (Wrap(lim - 1), Erange)
    else if y > lim then (lim, Erange)
    else (if neg then Wrap(-(y as int)) else y, if v > ULLONG_MAX then Erange else Ok)
  }

  /**
   What the caller is promised: for an even limit the signed value clamped to [-lim, lim-1], for an
   odd one the value, negated if there is a minus sign, or the limit if its absolute value is above it.
   */
  function Promised(neg: bool, v: nat, lim: nat): int {
    var signed := if neg then -(v as int) else v;
    if lim % 2 == 0 then
      if signed < -(lim as int) then -(lim as int) else if signed > lim - 1 then lim - 1 else signed
    else if v > lim then lim else signed
  }

  predicate OutOfRange(neg: bool, v: nat, lim: nat) {
    if lim % 2 == 0 && !neg then v >= lim else v > lim
  }

  /** ERANGE says exactly that the number was out of range. */
  lemma ErangeIff(neg: bool, v: nat, lim: nat)
    requires lim <= ULLONG_MAX
    ensures Final(neg, v, lim).1 == if OutOfRange(neg, v, lim) then Erange else Ok
    ensures lim > 0 && lim % 2 == 0 ==>
      (OutOfRange(neg, v, lim) <==> Promised(neg, v, lim) != if neg then -(v as int) else v)
  {
  }

  /** The two inputs whose result is not the promised one modulo 2^64. */
  predicate Misclamped(neg: bool, v: nat, lim: nat) {
    neg && if lim % 2 == 1 then v > ULLONG_MAX else lim < v <= ULLONG_MAX && lim != WORD / 2
  }

  /**
   The result is the promised value modulo 2^64 unless there is a minus sign and either the limit is
   odd and the number needs more than 64 bits (the limit is then negated), or the limit is even, not
   2^63, and the number is above it but fits 64 bits (the limit is then not negated).
   */
  lemma FinalExactIff(neg: bool, v: nat, lim: nat)
    requires 0 < lim <= ULLONG_MAX
    ensures Final(neg, v, lim).0 == Wrap(Promised(neg, v, lim)) <==> !Misclamped(neg, v, lim)
  {
    if neg {
      WrapNegative(lim);
    }
  }

  /** strtoull of a minus sign and 20 nines gives 1 and not ULLONG_MAX. */
  lemma NegativeOverflow()
    ensures Final(true, 99999999999999999999, ULLONG_MAX) == (1, Erange)
  {
    WrapNegative(ULLONG_MAX);
  }

  // ---------- the two-phase loops ----------

  // Digits are taken while they fit.
  ghost predicate Taken(s: string, base: nat, from: nat, y: nat, p: nat) {
    from <= p && y == Number(s, base, from, p) && forall k :: from <= k < p ==> Val(CharAt(s, k)) < base
  }

  lemma TakenEnd(s: string, base: nat, from: nat, p: nat)
    requires base <= 36 && from <= p && forall k :: from <= k < p ==> Val(CharAt(s, k)) < base
    ensures p <= RunEnd(s, base, from)
    ensures Val(CharAt(s, p)) >= base ==> RunEnd(s, base, from) == p
    ensures RunEnd(s, base, from) == RunEnd(s, base, p)
    decreases p - from
  {
    if from < p { TakenEnd(s, base, from + 1, p); }
  }

  // What is left does not fit 64 bits, or there is nothing left.
  ghost predicate Stopped(s: string, base: nat, from: nat, y: nat, p: nat) {
    Taken(s, base, from, y, p) && (Val(CharAt(s, p)) < base ==> Append(y, base, Val(CharAt(s, p))) > ULLONG_MAX)
  }

  /** Lines 65-68: base ten. */
  method Decimal(s: string, from: nat) returns (y: nat, p: nat)
    ensures Stopped(s, 10, from, y, p) && y <= ULLONG_MAX
  {
    p := from;
    var x: nat := 0;
    while 0 <= CharAt(s, p) - '0' as int < 10 && x <= (UINT - 1) / 10 - 1
      invariant Taken(s, 10, from, x, p) && x < UINT
      decreases |s| - p
    {
      x := (x * 10 + (CharAt(s, p) - '0' as int)) % UINT;
      p := p + 1;
    }
    y := x;
    while 0 <= CharAt(s, p) - '0' as int < 10 && y <= ULLONG_MAX / 10
        && 10 * y <= ULLONG_MAX - (CharAt(s, p) - '0' as int)
      invariant Taken(s, 10, from, y, p) && y <= ULLONG_MAX
      decreases |s| - p
    {
      y := Wrap(y * 10 + (CharAt(s, p) - '0' as int));
      p := p + 1;
    }
  }

  lemma OrDigit(x: nat, base: nat, d: nat)
    requires 1 <= base <= 36 && And(base, base - 1) == 0 && d < base
    ensures Or(Shl(x, ShiftOf(base)), d) == Append(x, base, d)
  {
    ShiftIsLog(base);
    OrIsSum(x, base, d);
  }

  lemma FitsShift(y: nat, base: nat, d: nat)
    requires 1 <= base <= 36 && And(base, base - 1) == 0 && d < base
    ensures y <= ULLONG_MAX / Twos(ShiftOf(base)) <==> Append(y, base, d) <= ULLONG_MAX
  {
    hide And, Twos, ShiftOf;
    ShiftIsLog(base);
    if base == 1 { } else if base == 2 { } else if base == 4 { } else if base == 8 { } else if base == 16 { } else { }
  }

  lemma EndIsNoDigit()
    ensures Val(-1) == 255
  {
  }

  /** Lines 71-75: a power of two. */
  method PowerBase(s: string, base: nat, from: nat) returns (y: nat, p: nat)
    requires 1 <= base <= 36 && And(base, base - 1) == 0
    ensures Stopped(s, base, from, y, p) && y <= ULLONG_MAX
  {
    hide Or, And, Shl, ShiftOf, Twos, Append, Val;
    EndIsNoDigit();
    var bs := ShiftOf(base);
    p := from;
    var x: nat := 0;
    while Val(CharAt(s, p)) < base && x <= (UINT - 1) / 32
      invariant Taken(s, base, from, x, p) && x < UINT
      decreases |s| - p
    {
      OrDigit(x, base, Val(CharAt(s, p)));
      ShortFits(x, base, Val(CharAt(s, p)));
      x := Or(Shl(x, bs), Val(CharAt(s, p))) % UINT;
      p := p + 1;
    }
    y := x;
    while Val(CharAt(s, p)) < base && y <= ULLONG_MAX / Twos(bs)
      invariant Taken(s, base, from, y, p) && y <= ULLONG_MAX
      decreases |s| - p
    {
      OrDigit(y, base, Val(CharAt(s, p)));
      FitsShift(y, base, Val(CharAt(s, p)));
      y := Wrap(Or(Shl(y, bs), Val(CharAt(s, p))));
      p := p + 1;
    }
    if Val(CharAt(s, p)) < base { FitsShift(y, base, Val(CharAt(s, p))); }
  }

  lemma ShortFits(x: nat, base: nat, d: nat)
    requires 1 <= base <= 36 && And(base, base - 1) == 0 && d < base && x <= (UINT - 1) / 32
    ensures Append(x, base, d) < UINT
  {
    ShiftIsLog(base);
  }

  lemma FitsTest(y: nat, base: nat, d: nat)
    requires 1 <= base <= 36 && d < base
    ensures y <= ULLONG_MAX / base && base * y <= ULLONG_MAX - d <==> Append(y, base, d) <= ULLONG_MAX
  {
    Quotient(ULLONG_MAX, base);
    var q := ULLONG_MAX / base;
    Distribute(q, base);
    if y > q { TimesGrows(q + 1, y, base); }
  }

  lemma Distribute(q: nat, base: nat)
    ensures (q + 1) * base == q * base + base
  {
  }

  lemma TimesGrows(x: nat, y: nat, base: nat)
    requires x <= y
    ensures x * base <= y * base
  {
  }

  lemma ShortOther(x: nat, base: nat, d: nat)
    requires 1 <= base <= 36 && d < base && x <= (UINT - 1) / 36 - 1
    ensures Append(x, base, d) < UINT
  {
    TimesGrows(x, (UINT - 1) / 36 - 1, base);
    TimesGrows(base, 36, (UINT - 1) / 36 - 1);
  }

  /** Lines 77-80: any other base. */
  method OtherBase(s: string, base: nat, from: nat) returns (y: nat, p: nat)
    requires 1 <= base <= 36
    ensures Stopped(s, base, from, y, p) && y <= ULLONG_MAX
  {
    hide Append;
    p := from;
    var x: nat := 0;
    while Val(CharAt(s, p)) < base && x <= (UINT - 1) / 36 - 1
      invariant Taken(s, base, from, x, p) && x < UINT
      decreases |s| - p
    {
      ShortOther(x, base, Val(CharAt(s, p)));
      x := Append(x, base, Val(CharAt(s, p))) % UINT;
      p := p + 1;
    }
    y := x;
    while Val(CharAt(s, p)) < base && y <= ULLONG_MAX / base && base * y <= ULLONG_MAX - Val(CharAt(s, p))
      invariant Taken(s, base, from, y, p) && y <= ULLONG_MAX
      decreases |s| - p
    {
      FitsTest(y, base, Val(CharAt(s, p)));
      y := Wrap(Append(y, base, Val(CharAt(s, p))));
      p := p + 1;
    }
    if Val(CharAt(s, p)) < base { FitsTest(y, base, Val(CharAt(s, p))); }
  }

  // ---------- the whole scan ----------

  lemma AllTaken(s: string, base: nat, from: nat, y: nat, p: nat)
    requires 1 <= base <= 36 && Stopped(s, base, from, y, p)
    ensures var v := Number(s, base, from, RunEnd(s, base, from));
      if Val(CharAt(s, p)) < base then v > ULLONG_MAX else v == y && RunEnd(s, base, from) == p
    ensures p <= RunEnd(s, base, from) == RunEnd(s, base, p)
  {
    hide Append, Number, RunEnd;
    TakenEnd(s, base, from, p);
    if Val(CharAt(s, p)) < base {
      TakenEnd(s, base, from, p + 1);
      NumberStep(s, base, from, p);
      NumberGrows(s, base, from, p + 1, RunEnd(s, base, from));
    }
  }

  lemma NumberStep(s: string, base: nat, i: nat, j: nat)
    requires i <= j
    ensures Number(s, base, i, j + 1) == Append(Number(s, base, i, j), base, Val(CharAt(s, j)))
  {
  }

  // 32 bits never hold more than ULLONG_MAX, and the loops stop before it.
  lemma TakenFits(s: string, base: nat, from: nat, y: nat, p: nat, lim: nat, neg: bool)
    requires 1 <= base <= 36 && Stopped(s, base, from, y, p) && y <= ULLONG_MAX && lim <= ULLONG_MAX
    ensures Final(neg, Number(s, base, from, RunEnd(s, base, from)), lim)
      == if Val(CharAt(s, p)) < base then FinalOf(neg, lim, lim, Erange) else FinalOf(neg, y, lim, Ok)
  {
    AllTaken(s, base, from, y, p);
  }

  // Lines 88-98: y and the error so far.
  function FinalOf(neg: bool, y: nat, lim: nat, errno: Errno): (nat, Errno) {
    if y >= lim && lim % 2 == 0 && !neg then (Wrap(lim - 1), Erange)
    else if y > lim then (lim, Erange)
    else (if neg then Wrap(-(y as int)) else y, errno)
  }

  /** What the scan must give: no conversion, a bare prefix, or the clamped value of all the digits. */
  predicate Scanned(s: string, base: nat, pok: bool, lim: nat, result: nat, errno: Errno, consumed: nat)
    requires lim <= ULLONG_MAX
  {
    if base > 36 then result == 0 && errno == Einval && consumed == 0
    else
      match Front(s, base)
      case NoNumber => result == 0 && errno == Einval && consumed == 0
      case OnlyHex(x) => result == 0 && errno == Ok && consumed == if pok then x else 0
      case Digits(neg, b, from) =>
        b <= 36 && (result, errno) == Final(neg, Number(s, b, from, RunEnd(s, b, from)), lim)
          && consumed == RunEnd(s, b, from)
  }

  /**
   __intscan, lines 26-99.  consumed is where the stream stands afterwards, or 0 where no conversion
   was made.
   */
  method IntScan(s: string, base: nat, pok: bool, lim: nat) returns (result: nat, errno: Errno, consumed: nat)
    requires lim <= ULLONG_MAX
    ensures Scanned(s, base, pok, lim, result, errno, consumed)
  {
    if base > 36 {
      return 0, Einval, 0;
    }
    var i := 0;
    while IsSpace(CharAt(s, i))
      invariant SkipSpace(s, i) == SkipSpace(s, 0)
      decreases |s| - i
    {
      i := i + 1;
    }
    var neg := false;
    if CharAt(s, i) == '+' as int || CharAt(s, i) == '-' as int {
      neg := CharAt(s, i) == '-' as int;
      i := i + 1;
    }
    var b := base;
    if (base == 0 || base == 16) && CharAt(s, i) == '0' as int {
      i := i + 1;
      if IsX(CharAt(s, i)) {
        i := i + 1;
        if Val(CharAt(s, i)) >= 16 {
          return 0, Ok, if pok then i - 1 else 0;
        }
        b := 16;
      } else if base == 0 {
        b := 8;
      }
    } else {
      if base == 0 { b := 10; }
      if Val(CharAt(s, i)) >= b {
        return 0, Einval, 0;
      }
    }
    assert Front(s, base) == Digits(neg, b, i);
    result, errno, consumed := Accumulate(s, neg, b, i, lim);
  }

  /** Lines 64-98. */
  method Accumulate(s: string, neg: bool, base: nat, from: nat, lim: nat) returns (result: nat, errno: Errno,
        consumed: nat)
    requires 1 <= base <= 36 && lim <= ULLONG_MAX
    ensures (result, errno) == Final(neg, Number(s, base, from, RunEnd(s, base, from)), lim)
    ensures consumed == RunEnd(s, base, from)
  {
    hide And, Number;
    var y, p;
    if base == 10 {
      y, p := Decimal(s, from);
    } else if And(base, base - 1) == 0 {
      y, p := PowerBase(s, base, from);
    } else {
      y, p := OtherBase(s, base, from);
    }
    AllTaken(s, base, from, y, p);
    TakenFits(s, base, from, y, p, lim, neg);
    errno := Ok;
    if Val(CharAt(s, p)) < base {
      while Val(CharAt(s, p)) < base
        invariant p <= RunEnd(s, base, from) == RunEnd(s, base, p)
        decreases |s| - p
      {
        p := p + 1;
      }
      errno := Erange;
      y := lim;
    }
    consumed := p;
    if y >= lim {
      if lim % 2 == 0 && !neg {
        return Wrap(lim - 1), Erange, p;
      } else if y > lim {
        return lim, Erange, p;
      }
    }
    result := if neg then Wrap(-(y as int)) else y;
  }
}
