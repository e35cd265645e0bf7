/**
 crypt_des.c: the key schedule and the cipher.  Words are 32-bit vectors; a 48-bit quantity is
 two words of 24 bits.
 */
module Des {
  import opened Wrappers
  import opened DesTables
  import opened DesRows

  datatype Block = Block(l: bv32, r: bv32)

  /** One subkey of the expanded key: 24 bits in each half. */
  type Half = x: bv32 | x <= 0xff_ffff

  datatype Subkey = Subkey(l: Half, r: Half)

  // (x >> ibit) & 0xf for ibit = 28 - 4 * i
  function Nibble(x: bv32, i: nat): (v: bv32)
    requires i < 8
  {
    match i
    case 0 => x >> 28
    case 1 => (x >> 24) & 0xf
    case 2 => (x >> 20) & 0xf
    case 3 => (x >> 16) & 0xf
    case 4 => (x >> 12) & 0xf
    case 5 => (x >> 8) & 0xf
    case 6 => (x >> 4) & 0xf
    case _ => x & 0xf
  }

  lemma NibbleBound(x: bv32, i: nat)
    requires i < 8
    ensures Nibble(x, i) <= 15
  {
  }

  // ---------- initial and final permutation ----------

  /** The initial permutation IP, as bits moved by shifts. */
  function IpL(l: bv32, r: bv32): bv32 {
    ((Nibble(l, 0) & 1) << 16) | ((Nibble(l, 0) & 4) << 22)
    | ((Nibble(r, 0) & 1) << 20) | ((Nibble(r, 0) & 4) << 26)
    | (Nibble(l, 1) & 1) | ((Nibble(l, 1) & 4) << 6)
    | ((Nibble(r, 1) & 1) << 4) | ((Nibble(r, 1) & 4) << 10)
    | ((Nibble(l, 2) & 1) << 17) | ((Nibble(l, 2) & 4) << 23)
    | ((Nibble(r, 2) & 1) << 21) | ((Nibble(r, 2) & 4) << 27)
    | ((Nibble(l, 3) & 1) << 1) | ((Nibble(l, 3) & 4) << 7)
    | ((Nibble(r, 3) & 1) << 5) | ((Nibble(r, 3) & 4) << 11)
    | ((Nibble(l, 4) & 1) << 18) | ((Nibble(l, 4) & 4) << 24)
    | ((Nibble(r, 4) & 1) << 22) | ((Nibble(r, 4) & 4) << 28)
    | ((Nibble(l, 5) & 1) << 2) | ((Nibble(l, 5) & 4) << 8)
    | ((Nibble(r, 5) & 1) << 6) | ((Nibble(r, 5) & 4) << 12)
    | ((Nibble(l, 6) & 1) << 19) | ((Nibble(l, 6) & 4) << 25)
    | ((Nibble(r, 6) & 1) << 23) | ((Nibble(r, 6) & 4) << 29)
    | ((Nibble(l, 7) & 1) << 3) | ((Nibble(l, 7) & 4) << 9)
    | ((Nibble(r, 7) & 1) << 7) | ((Nibble(r, 7) & 4) << 13)
  }

  function IpR(l: bv32, r: bv32): bv32 {
    ((Nibble(l, 0) & 2) << 15) | ((Nibble(l, 0) & 8) << 21)
    | ((Nibble(r, 0) & 2) << 19) | ((Nibble(r, 0) & 8) << 25)
    | ((Nibble(l, 1) & 2) >> 1) | ((Nibble(l, 1) & 8) << 5)
    | ((Nibble(r, 1) & 2) << 3) | ((Nibble(r, 1) & 8) << 9)
    | ((Nibble(l, 2) & 2) << 16) | ((Nibble(l, 2) & 8) << 22)
    | ((Nibble(r, 2) & 2) << 20) | ((Nibble(r, 2) & 8) << 26)
    | (Nibble(l, 3) & 2) | ((Nibble(l, 3) & 8) << 6)
    | ((Nibble(r, 3) & 2) << 4) | ((Nibble(r, 3) & 8) << 10)
    | ((Nibble(l, 4) & 2) << 17) | ((Nibble(l, 4) & 8) << 23)
    | ((Nibble(r, 4) & 2) << 21) | ((Nibble(r, 4) & 8) << 27)
    | ((Nibble(l, 5) & 2) << 1) | ((Nibble(l, 5) & 8) << 7)
    | ((Nibble(r, 5) & 2) << 5) | ((Nibble(r, 5) & 8) << 11)
    | ((Nibble(l, 6) & 2) << 18) | ((Nibble(l, 6) & 8) << 24)
    | ((Nibble(r, 6) & 2) << 22) | ((Nibble(r, 6) & 8) << 28)
    | ((Nibble(l, 7) & 2) << 2) | ((Nibble(l, 7) & 8) << 8)
    | ((Nibble(r, 7) & 2) << 6) | ((Nibble(r, 7) & 8) << 12)
  }

  /** The final permutation. */
  function FpL(l: bv32, r: bv32): bv32 {
    ((Nibble(l, 1) & 1) << 30) | ((Nibble(l, 1) & 2) << 21) | ((Nibble(l, 1) & 4) << 12) | ((Nibble(l, 1) & 8) << 3)
    | ((Nibble(r, 1) & 1) << 31) | ((Nibble(r, 1) & 2) << 22) | ((Nibble(r, 1) & 4) << 13) | ((Nibble(r, 1) & 8) << 4)
    | ((Nibble(l, 3) & 1) << 28) | ((Nibble(l, 3) & 2) << 19) | ((Nibble(l, 3) & 4) << 10) | ((Nibble(l, 3) & 8) << 1)
    | ((Nibble(r, 3) & 1) << 29) | ((Nibble(r, 3) & 2) << 20) | ((Nibble(r, 3) & 4) << 11) | ((Nibble(r, 3) & 8) << 2)
    | ((Nibble(l, 5) & 1) << 26) | ((Nibble(l, 5) & 2) << 17) | ((Nibble(l, 5) & 4) << 8) | ((Nibble(l, 5) & 8) >> 1)
    | ((Nibble(r, 5) & 1) << 27) | ((Nibble(r, 5) & 2) << 18) | ((Nibble(r, 5) & 4) << 9) | (Nibble(r, 5) & 8)
    | ((Nibble(l, 7) & 1) << 24) | ((Nibble(l, 7) & 2) << 15) | ((Nibble(l, 7) & 4) << 6) | ((Nibble(l, 7) & 8) >> 3)
    | ((Nibble(r, 7) & 1) << 25) | ((Nibble(r, 7) & 2) << 16) | ((Nibble(r, 7) & 4) << 7) | ((Nibble(r, 7) & 8) >> 2)
  }

  function FpR(l: bv32, r: bv32): bv32 {
    ((Nibble(l, 0) & 1) << 30) | ((Nibble(l, 0) & 2) << 21) | ((Nibble(l, 0) & 4) << 12) | ((Nibble(l, 0) & 8) << 3)
    | ((Nibble(r, 0) & 1) << 31) | ((Nibble(r, 0) & 2) << 22) | ((Nibble(r, 0) & 4) << 13) | ((Nibble(r, 0) & 8) << 4)
    | ((Nibble(l, 2) & 1) << 28) | ((Nibble(l, 2) & 2) << 19) | ((Nibble(l, 2) & 4) << 10) | ((Nibble(l, 2) & 8) << 1)
    | ((Nibble(r, 2) & 1) << 29) | ((Nibble(r, 2) & 2) << 20) | ((Nibble(r, 2) & 4) << 11) | ((Nibble(r, 2) & 8) << 2)
    | ((Nibble(l, 4) & 1) << 26) | ((Nibble(l, 4) & 2) << 17) | ((Nibble(l, 4) & 4) << 8) | ((Nibble(l, 4) & 8) >> 1)
    | ((Nibble(r, 4) & 1) << 27) | ((Nibble(r, 4) & 2) << 18) | ((Nibble(r, 4) & 4) << 9) | (Nibble(r, 4) & 8)
    | ((Nibble(l, 6) & 1) << 24) | ((Nibble(l, 6) & 2) << 15) | ((Nibble(l, 6) & 4) << 6) | ((Nibble(l, 6) & 8) >> 3)
    | ((Nibble(r, 6) & 1) << 25) | ((Nibble(r, 6) & 2) << 16) | ((Nibble(r, 6) & 4) << 7) | ((Nibble(r, 6) & 8) >> 2)
  }

  /** IP and FP are inverse permutations of the 64 bits. */
  lemma FinalUndoesInitial(l: bv32, r: bv32)
    ensures FpL(IpL(l, r), IpR(l, r)) == l
    ensures FpR(IpL(l, r), IpR(l, r)) == r
  {
  }

  lemma InitialUndoesFinal(l: bv32, r: bv32)
    ensures IpL(FpL(l, r), FpR(l, r)) == l
    ensures IpR(FpL(l, r), FpR(l, r)) == r
  {
  }

  lemma InitialComplementL(l: bv32, r: bv32)
    ensures IpL(!l, !r) ^ IpL(l, r) == 0xffff_ffff
  {
  }

  lemma InitialComplementR(l: bv32, r: bv32)
    ensures IpR(!l, !r) ^ IpR(l, r) == 0xffff_ffff
  {
  }

  lemma FinalComplementL(l: bv32, r: bv32)
    ensures FpL(!l, !r) ^ FpL(l, r) == 0xffff_ffff
  {
  }

  lemma FinalComplementR(l: bv32, r: bv32)
    ensures FpR(!l, !r) ^ FpR(l, r) == 0xffff_ffff
  {
  }

  // The tables give zero for zero, so the test of line 766 skips nothing.
  lemma InitialZero()
    ensures IpL(0, 0) == 0 && IpR(0, 0) == 0
  {
  }

  // Lines 769-770.
  function IpTurnL(acc: bv32, lIn: bv32, rIn: bv32, i: nat): bv32
    requires i < 8
  {
    acc | (IpMaskL(i, Nibble(lIn, i)) | IpMaskL(i + 8, Nibble(rIn, i)))
  }

  // Lines 771-772.
  function IpTurnR(acc: bv32, lIn: bv32, rIn: bv32, i: nat): bv32
    requires i < 8
  {
    acc | (IpMaskR(i, Nibble(lIn, i)) | IpMaskR(i + 8, Nibble(rIn, i)))
  }

  /** Lines 765-774. */
  method InitialPermutation(lIn: bv32, rIn: bv32) returns (l: bv32, r: bv32)
    ensures l == IpL(lIn, rIn) && r == IpR(lIn, rIn)
  {
    hide IpTurnL, IpTurnR, IpL, IpR;
    l, r := 0, 0;
    InitialZero();
    if lIn | rIn != 0 {
      for i := 0 to 8
        invariant l == IpSoFarL(lIn, rIn, i) && r == IpSoFarR(lIn, rIn, i)
      {
        l, r := IpTurnL(l, lIn, rIn, i), IpTurnR(r, lIn, rIn, i);
      }
      IpSoFarLAll(lIn, rIn);
      IpSoFarRAll(lIn, rIn);
    } else {
      OrZero(lIn, rIn);
    }
  }

  lemma OrZero(x: bv32, y: bv32)
    requires x | y == 0
    ensures x == 0 && y == 0
  {
  }

  lemma OrNothing(x: bv32)
    ensures 0 | x == x
  {
  }

  function IpSoFarL(l: bv32, r: bv32, n: nat): bv32
    requires n <= 8
  {
    if n == 0 then 0 else IpTurnL(IpSoFarL(l, r, n - 1), l, r, n - 1)
  }

  lemma IpSoFarLStep(l: bv32, r: bv32, n: nat)
    requires n < 8
    ensures IpSoFarL(l, r, n + 1) == IpSoFarL(l, r, n) | (IpRowL(n, Nibble(l, n)) | IpRowL(n + 8, Nibble(r, n)))
  {
    hide IpMaskL, IpRowL, Nibble;
    NibbleBound(l, n);
    NibbleBound(r, n);
    IpRowLTable(n, Nibble(l, n));
    IpRowLTable(n + 8, Nibble(r, n));
  }

  // The first four of the eight turns of the loop, and all of them.
  function IpHalfL(l: bv32, r: bv32): bv32 {
    ((((Nibble(l, 0) & 1) << 16) | ((Nibble(l, 0) & 4) << 22))
       | (((Nibble(r, 0) & 1) << 20) | ((Nibble(r, 0) & 4) << 26)))
    | (((Nibble(l, 1) & 1) | ((Nibble(l, 1) & 4) << 6))
       | (((Nibble(r, 1) & 1) << 4) | ((Nibble(r, 1) & 4) << 10)))
    | ((((Nibble(l, 2) & 1) << 17) | ((Nibble(l, 2) & 4) << 23))
       | (((Nibble(r, 2) & 1) << 21) | ((Nibble(r, 2) & 4) << 27)))
    | ((((Nibble(l, 3) & 1) << 1) | ((Nibble(l, 3) & 4) << 7))
       | (((Nibble(r, 3) & 1) << 5) | ((Nibble(r, 3) & 4) << 11)))
  }

  function IpTurnsL(l: bv32, r: bv32): bv32 {
    IpHalfL(l, r)
    | ((((Nibble(l, 4) & 1) << 18) | ((Nibble(l, 4) & 4) << 24))
       | (((Nibble(r, 4) & 1) << 22) | ((Nibble(r, 4) & 4) << 28)))
    | ((((Nibble(l, 5) & 1) << 2) | ((Nibble(l, 5) & 4) << 8))
       | (((Nibble(r, 5) & 1) << 6) | ((Nibble(r, 5) & 4) << 12)))
    | ((((Nibble(l, 6) & 1) << 19) | ((Nibble(l, 6) & 4) << 25))
       | (((Nibble(r, 6) & 1) << 23) | ((Nibble(r, 6) & 4) << 29)))
    | ((((Nibble(l, 7) & 1) << 3) | ((Nibble(l, 7) & 4) << 9))
       | (((Nibble(r, 7) & 1) << 7) | ((Nibble(r, 7) & 4) << 13)))
  }

  lemma IpTurnsLAre(l: bv32, r: bv32)
    ensures IpTurnsL(l, r) == IpL(l, r)
  {
  }

  lemma IpSoFarLHalf(l: bv32, r: bv32)
    ensures IpSoFarL(l, r, 4) == IpHalfL(l, r)
  {
    hide IpMaskL, Nibble, IpTurnL;
    OrNothing(IpRowL(0, Nibble(l, 0)) | IpRowL(8, Nibble(r, 0)));
    IpSoFarLStep(l, r, 0);
    IpSoFarLStep(l, r, 1);
    IpSoFarLStep(l, r, 2);
    IpSoFarLStep(l, r, 3);
  }

  lemma IpSoFarLAll(l: bv32, r: bv32)
    ensures IpSoFarL(l, r, 8) == IpL(l, r)
  {
    hide IpMaskL, Nibble, IpTurnL, IpHalfL, IpL;
    IpTurnsLAre(l, r);
    IpSoFarLHalf(l, r);
    IpSoFarLStep(l, r, 4);
    IpSoFarLStep(l, r, 5);
    IpSoFarLStep(l, r, 6);
    IpSoFarLStep(l, r, 7);
  }

  function IpSoFarR(l: bv32, r: bv32, n: nat): bv32
    requires n <= 8
  {
    if n == 0 then 0 else IpTurnR(IpSoFarR(l, r, n - 1), l, r, n - 1)
  }

  lemma IpSoFarRStep(l: bv32, r: bv32, n: nat)
    requires n < 8
    ensures IpSoFarR(l, r, n + 1) == IpSoFarR(l, r, n) | (IpRowR(n, Nibble(l, n)) | IpRowR(n + 8, Nibble(r, n)))
  {
    hide IpMaskR, IpRowR, Nibble;
    NibbleBound(l, n);
    NibbleBound(r, n);
    IpRowRTable(n, Nibble(l, n));
    IpRowRTable(n + 8, Nibble(r, n));
  }

  // The first four of the eight turns of the loop, and all of them.
  function IpHalfR(l: bv32, r: bv32): bv32 {
    ((((Nibble(l, 0) & 2) << 15) | ((Nibble(l, 0) & 8) << 21))
       | (((Nibble(r, 0) & 2) << 19) | ((Nibble(r, 0) & 8) << 25)))
    | ((((Nibble(l, 1) & 2) >> 1) | ((Nibble(l, 1) & 8) << 5))
       | (((Nibble(r, 1) & 2) << 3) | ((Nibble(r, 1) & 8) << 9)))
    | ((((Nibble(l, 2) & 2) << 16) | ((Nibble(l, 2) & 8) << 22))
       | (((Nibble(r, 2) & 2) << 20) | ((Nibble(r, 2) & 8) << 26)))
    | (((Nibble(l, 3) & 2) | ((Nibble(l, 3) & 8) << 6))
       | (((Nibble(r, 3) & 2) << 4) | ((Nibble(r, 3) & 8) << 10)))
  }

  function IpTurnsR(l: bv32, r: bv32): bv32 {
    IpHalfR(l, r)
    | ((((Nibble(l, 4) & 2) << 17) | ((Nibble(l, 4) & 8) << 23))
       | (((Nibble(r, 4) & 2) << 21) | ((Nibble(r, 4) & 8) << 27)))
    | ((((Nibble(l, 5) & 2) << 1) | ((Nibble(l, 5) & 8) << 7))
       | (((Nibble(r, 5) & 2) << 5) | ((Nibble(r, 5) & 8) << 11)))
    | ((((Nibble(l, 6) & 2) << 18) | ((Nibble(l, 6) & 8) << 24))
       | (((Nibble(r, 6) & 2) << 22) | ((Nibble(r, 6) & 8) << 28)))
    | ((((Nibble(l, 7) & 2) << 2) | ((Nibble(l, 7) & 8) << 8))
       | (((Nibble(r, 7) & 2) << 6) | ((Nibble(r, 7) & 8) << 12)))
  }

  lemma IpTurnsRAre(l: bv32, r: bv32)
    ensures IpTurnsR(l, r) == IpR(l, r)
  {
  }

  lemma IpSoFarRHalf(l: bv32, r: bv32)
    ensures IpSoFarR(l, r, 4) == IpHalfR(l, r)
  {
    hide IpMaskR, Nibble, IpTurnR;
    OrNothing(IpRowR(0, Nibble(l, 0)) | IpRowR(8, Nibble(r, 0)));
    IpSoFarRStep(l, r, 0);
    IpSoFarRStep(l, r, 1);
    IpSoFarRStep(l, r, 2);
    IpSoFarRStep(l, r, 3);
  }

  lemma IpSoFarRAll(l: bv32, r: bv32)
    ensures IpSoFarR(l, r, 8) == IpR(l, r)
  {
    hide IpMaskR, Nibble, IpTurnR, IpHalfR, IpR;
    IpTurnsRAre(l, r);
    IpSoFarRHalf(l, r);
    IpSoFarRStep(l, r, 4);
    IpSoFarRStep(l, r, 5);
    IpSoFarRStep(l, r, 6);
    IpSoFarRStep(l, r, 7);
  }

  // Lines 841-842.
  function FpTurnL(acc: bv32, l: bv32, r: bv32, i: nat): bv32
    requires i < 4
  {
    acc | (FpMaskL(i, Nibble(l, 2 * i + 1)) | FpMaskL(i + 4, Nibble(r, 2 * i + 1)))
  }

  // Lines 838-839.
  function FpTurnR(acc: bv32, l: bv32, r: bv32, i: nat): bv32
    requires i < 4
  {
    acc | (FpMaskR(i, Nibble(l, 2 * i)) | FpMaskR(i + 4, Nibble(r, 2 * i)))
  }

  function FpSoFarL(l: bv32, r: bv32, n: nat): bv32
    requires n <= 4
  {
    if n == 0 then 0 else FpTurnL(FpSoFarL(l, r, n - 1), l, r, n - 1)
  }

  lemma FpSoFarLStep(l: bv32, r: bv32, n: nat)
    requires n < 4
    ensures FpSoFarL(l, r, n + 1)
      == FpSoFarL(l, r, n) | (FpRowL(n, Nibble(l, 2 * n + 1)) | FpRowL(n + 4, Nibble(r, 2 * n + 1)))
  {
    hide FpMaskL, FpRowL, Nibble;
    NibbleBound(l, 2 * n + 1);
    NibbleBound(r, 2 * n + 1);
    FpRowLTable(n, Nibble(l, 2 * n + 1));
    FpRowLTable(n + 4, Nibble(r, 2 * n + 1));
  }

  lemma FpSoFarLAll(l: bv32, r: bv32)
    ensures FpSoFarL(l, r, 4) == FpL(l, r)
  {
    hide FpMaskL, Nibble;
    FpSoFarLStep(l, r, 0);
    FpSoFarLStep(l, r, 1);
    FpSoFarLStep(l, r, 2);
    FpSoFarLStep(l, r, 3);
  }

  function FpSoFarR(l: bv32, r: bv32, n: nat): bv32
    requires n <= 4
  {
    if n == 0 then 0 else FpTurnR(FpSoFarR(l, r, n - 1), l, r, n - 1)
  }

  lemma FpSoFarRStep(l: bv32, r: bv32, n: nat)
    requires n < 4
    ensures FpSoFarR(l, r, n + 1) == FpSoFarR(l, r, n) | (FpRowR(n, Nibble(l, 2 * n)) | FpRowR(n + 4, Nibble(r, 2 * n)))
  {
    hide FpMaskR, FpRowR, Nibble;
    NibbleBound(l, 2 * n);
    NibbleBound(r, 2 * n);
    FpRowRTable(n, Nibble(l, 2 * n));
    FpRowRTable(n + 4, Nibble(r, 2 * n));
  }

  lemma FpSoFarRAll(l: bv32, r: bv32)
    ensures FpSoFarR(l, r, 4) == FpR(l, r)
  {
    hide FpMaskR, Nibble;
    FpSoFarRStep(l, r, 0);
    FpSoFarRStep(l, r, 1);
    FpSoFarRStep(l, r, 2);
    FpSoFarRStep(l, r, 3);
  }

  /** Lines 833-846. */
  method FinalPermutation(l: bv32, r: bv32) returns (lOut: bv32, rOut: bv32)
    ensures lOut == FpL(l, r) && rOut == FpR(l, r)
  {
    hide FpTurnL, FpTurnR, FpL, FpR;
    lOut, rOut := 0, 0;
    for i := 0 to 4
      invariant lOut == FpSoFarL(l, r, i) && rOut == FpSoFarR(l, r, i)
    {
      lOut, rOut := FpTurnL(lOut, l, r, i), FpTurnR(rOut, l, r, i);
    }
    FpSoFarLAll(l, r);
    FpSoFarRAll(l, r);
  }

  // ---------- the round function ----------

  /** E: 32 bits of r spread over 48, left and right half. */
  function ExpandL(r: bv32): bv32 {
    ((r & 0x00000001) << 23) | ((r & 0xf8000000) >> 9) | ((r & 0x1f800000) >> 11)
    | ((r & 0x01f80000) >> 13) | ((r & 0x001f8000) >> 15)
  }

  function ExpandR(r: bv32): bv32 {
    ((r & 0x0001f800) << 7) | ((r & 0x00001f80) << 5) | ((r & 0x000001f8) << 3)
    | ((r & 0x0000001f) << 1) | ((r & 0x80000000) >> 31)
  }

  lemma ExpandBound(r: bv32)
    ensures ExpandL(r) <= 0xff_ffff && ExpandR(r) <= 0xff_ffff
  {
  }

  lemma ExpandComplementL(r: bv32)
    ensures ((!r & 0x00000001) << 23) | ((!r & 0xf8000000) >> 9) | ((!r & 0x1f800000) >> 11)
      | ((!r & 0x01f80000) >> 13) | ((!r & 0x001f8000) >> 15)
      == (((r & 0x00000001) << 23) | ((r & 0xf8000000) >> 9) | ((r & 0x1f800000) >> 11)
      | ((r & 0x01f80000) >> 13) | ((r & 0x001f8000) >> 15)) ^ 0xff_ffff
  {
  }

  lemma ExpandComplementR(r: bv32)
    ensures ((!r & 0x0001f800) << 7) | ((!r & 0x00001f80) << 5) | ((!r & 0x000001f8) << 3)
      | ((!r & 0x0000001f) << 1) | ((!r & 0x80000000) >> 31)
      == (((r & 0x0001f800) << 7) | ((r & 0x00001f80) << 5) | ((r & 0x000001f8) << 3)
      | ((r & 0x0000001f) << 1) | ((r & 0x80000000) >> 31)) ^ 0xff_ffff
  {
  }

  function Not32(x: bv32): bv32 {
    !x
  }

  function Not24(x: bv32): bv32 {
    x ^ 0xff_ffff
  }

  lemma ExpandComplement(r: bv32)
    ensures ExpandL(Not32(r)) == Not24(ExpandL(r))
    ensures ExpandR(Not32(r)) == Not24(ExpandR(r))
  {
    ExpandComplementL(r);
    ExpandComplementR(r);
  }

  // The bits that the salt exchanges between the halves: line 804.
  function Exchanged(x: bv32, y: bv32, salt: bv32): bv32 {
    (x ^ y) & salt
  }

  // Lines 805-806.
  function AddKey(x: bv32, f: bv32, k: bv32): bv32 {
    x ^ (f ^ k)
  }

  /** The salted expansion with the subkey added. */
  function Mixed(e: bv32, other: bv32, salt: bv32, k: bv32): bv32 {
    AddKey(e, Exchanged(e, other, salt), k)
  }

  lemma MixedBound(e: bv32, other: bv32, salt: bv32, k: bv32)
    requires e <= 0xff_ffff && other <= 0xff_ffff && k <= 0xff_ffff
    ensures Mixed(e, other, salt, k) <= 0xff_ffff
  {
  }

  lemma ExchangedComplement(x: bv32, y: bv32, salt: bv32)
    ensures Exchanged(Not24(x), Not24(y), salt) == Exchanged(x, y, salt)
  {
    assert (x ^ 0xff_ffff) ^ (y ^ 0xff_ffff) == x ^ y;
  }

  lemma AddKeyComplement(x: bv32, f: bv32, k: bv32)
    ensures AddKey(Not24(x), f, Not24(k)) == AddKey(x, f, k)
  {
    assert (x ^ 0xff_ffff) ^ (f ^ (k ^ 0xff_ffff)) == x ^ (f ^ k);
  }

  // Complementing the data and the key changes nothing that reaches the S-boxes.
  lemma MixedComplement(e: bv32, other: bv32, salt: bv32, k: bv32)
    ensures Mixed(Not24(e), Not24(other), salt, Not24(k)) == Mixed(e, other, salt, k)
  {
    hide Exchanged, AddKey, Not24;
    ExchangedComplement(e, other, salt);
    AddKeyComplement(e, Exchanged(e, other, salt), k);
  }

  lemma SixBits(x: bv32)
    requires x <= 0xff_ffff
    ensures (x >> 18) <= 63 && ((x >> 12) & 0x3f) <= 63 && ((x >> 6) & 0x3f) <= 63 && (x & 0x3f) <= 63
  {
  }

  /** Lines 811-818: eight S-boxes, their outputs already permuted by P. */
  function Substitute(x: bv32, y: bv32): bv32
    requires x <= 0xff_ffff && y <= 0xff_ffff
  {
    SixBits(x);
    SixBits(y);
    PsBox(0, x >> 18) | PsBox(1, (x >> 12) & 0x3f) | PsBox(2, (x >> 6) & 0x3f) | PsBox(3, x & 0x3f)
    | PsBox(4, y >> 18) | PsBox(5, (y >> 12) & 0x3f) | PsBox(6, (y >> 6) & 0x3f) | PsBox(7, y & 0x3f)
  }

  function F(r: bv32, k: Subkey, salt: bv32): bv32 {
    ExpandBound(r);
    MixedBound(ExpandL(r), ExpandR(r), salt, k.l);
    MixedBound(ExpandR(r), ExpandL(r), salt, k.r);
    Substitute(Mixed(ExpandL(r), ExpandR(r), salt, k.l), Mixed(ExpandR(r), ExpandL(r), salt, k.r))
  }

  // ---------- rounds ----------

  function Xor(x: bv32, y: bv32): bv32 {
    x ^ y
  }

  /** One Feistel round: lines 822-824. */
  function Round(b: Block, k: Subkey, salt: bv32): Block {
    Block(b.r, Xor(F(b.r, k, salt), b.l))
  }

  /** The first n of the rounds under the subkeys ks. */
  function Rounds(b: Block, ks: seq<Subkey>, salt: bv32, n: nat): Block
    requires n <= |ks|
  {
    if n == 0 then b else Round(Rounds(b, ks, salt, n - 1), ks[n - 1], salt)
  }

  function Swap(b: Block): Block {
    Block(b.r, b.l)
  }

  /** One turn of the count loop: sixteen rounds, then the halves change places. */
  function Pass(b: Block, ks: seq<Subkey>, salt: bv32): Block {
    Swap(Rounds(b, ks, salt, |ks|))
  }

  function Passes(b: Block, ks: seq<Subkey>, salt: bv32, count: nat): Block {
    if count == 0 then b else Pass(Passes(b, ks, salt, count - 1), ks, salt)
  }

  /** The whole cipher. */
  function Cipher(b: Block, ks: seq<Subkey>, salt: bv32, count: nat): Block {
    var m := Passes(Block(IpL(b.l, b.r), IpR(b.l, b.r)), ks, salt, count);
    Block(FpL(m.l, m.r), FpR(m.l, m.r))
  }

  /** __do_des, lines 756-847. */
  method DoDes(lIn: bv32, rIn: bv32, count: nat, salt: bv32, ks: seq<Subkey>) returns (lOut: bv32, rOut: bv32)
    requires |ks| == 16
    ensures Block(lOut, rOut) == Cipher(Block(lIn, rIn), ks, salt, count)
  {
    hide F, IpL, IpR, FpL, FpR;
    var l, r := InitialPermutation(lIn, rIn);
    ghost var start := Block(l, r);
    for c := 0 to count
      invariant Block(l, r) == Passes(start, ks, salt, c)
    {
      l, r := SixteenRounds(l, r, salt, ks);
    }
    lOut, rOut := FinalPermutation(l, r);
  }

  /** Lines 780-827: one turn of the count loop. */
  method SixteenRounds(l0: bv32, r0: bv32, salt: bv32, ks: seq<Subkey>) returns (l: bv32, r: bv32)
    requires |ks| == 16
    ensures Block(l, r) == Pass(Block(l0, r0), ks, salt)
  {
    hide F, Round;
    l, r := l0, r0;
    var f: bv32 := r0;
    for round := 0 to 16
      invariant Block(l, r) == Rounds(Block(l0, r0), ks, salt, round) && f == r
    {
      l, r, f := OneRound(l, r, salt, ks[round]);
    }
    r := l;
    l := f;
  }

  /** Lines 785-824. */
  method OneRound(l0: bv32, r0: bv32, salt: bv32, k: Subkey) returns (l: bv32, r: bv32, f: bv32)
    ensures Block(l, r) == Round(Block(l0, r0), k, salt) && f == r
  {
    hide F, Xor;
    f := RoundFunction(r0, k, salt);
    f := Xor(f, l0);
    l := r0;
    r := f;
  }

  /** Lines 789-818. */
  method RoundFunction(r: bv32, k: Subkey, salt: bv32) returns (f: bv32)
    ensures f == F(r, k, salt)
  {
    hide Substitute, ExpandL, ExpandR, Exchanged, AddKey;
    var r48l := ExpandL(r);
    var r48r := ExpandR(r);
    ExpandBound(r);
    MixedBound(r48l, r48r, salt, k.l);
    MixedBound(r48r, r48l, salt, k.r);
    ExchangedSymmetric(r48l, r48r, salt);
    f := Exchanged(r48l, r48r, salt);
    r48l, r48r := AddKey(r48l, f, k.l), AddKey(r48r, f, k.r);
    f := Substitute(r48l, r48r);
  }

  lemma ExchangedSymmetric(x: bv32, y: bv32, salt: bv32)
    ensures Exchanged(x, y, salt) == Exchanged(y, x, salt)
  {
  }

  // ---------- decryption ----------

  lemma XorTwice(f: bv32, x: bv32)
    ensures Xor(f, Xor(f, x)) == x
  {
  }

  // The same round undoes itself between swaps, whatever the round function is.
  lemma RoundUndone(b: Block, k: Subkey, salt: bv32)
    ensures Round(Swap(Round(b, k, salt)), k, salt) == Swap(b)
  {
    hide F, Xor;
    XorTwice(F(b.r, k, salt), b.l);
  }

  // After n rounds of the reversed schedule, the last n rounds are gone.
  lemma {:induction false} RoundsUndone(b: Block, ks: seq<Subkey>, salt: bv32, n: nat)
    requires n <= |ks|
    ensures Rounds(Swap(Rounds(b, ks, salt, |ks|)), Reversed(ks), salt, n) == Swap(Rounds(b, ks, salt, |ks| - n))
  {
    hide F;
    if n > 0 {
      RoundsUndone(b, ks, salt, n - 1);
      var m := |ks| - n;
      RoundUndone(Rounds(b, ks, salt, m), ks[m], salt);
    }
  }

  lemma PassUndone(b: Block, ks: seq<Subkey>, salt: bv32)
    ensures Pass(Pass(b, ks, salt), Reversed(ks), salt) == b
  {
    RoundsUndone(b, ks, salt, |ks|);
  }

  lemma {:induction false} PassesShift(b: Block, ks: seq<Subkey>, salt: bv32, count: nat)
    ensures Passes(Pass(b, ks, salt), ks, salt, count) == Passes(b, ks, salt, count + 1)
  {
    hide Pass;
    if count > 0 {
      PassesShift(b, ks, salt, count - 1);
    }
  }

  lemma {:induction false} PassesUndone(b: Block, ks: seq<Subkey>, salt: bv32, count: nat)
    ensures Passes(Passes(b, ks, salt, count), Reversed(ks), salt, count) == b
  {
    hide Pass;
    if count > 0 {
      var m := Passes(b, ks, salt, count - 1);
      PassUndone(m, ks, salt);
      PassesShift(Pass(m, ks, salt), Reversed(ks), salt, count - 1);
      PassesUndone(b, ks, salt, count - 1);
    }
  }

  /**
   Decryption undoes encryption: with the subkeys in reverse order the cipher is its own
   inverse, for every block, key schedule, salt and iteration count.
   */
  lemma CipherUndone(b: Block, ks: seq<Subkey>, salt: bv32, count: nat)
    ensures Cipher(Cipher(b, ks, salt, count), Reversed(ks), salt, count) == b
  {
    hide IpL, IpR, FpL, FpR;
    var p := Block(IpL(b.l, b.r), IpR(b.l, b.r));
    var m := Passes(p, ks, salt, count);
    InitialUndoesFinal(m.l, m.r);
    PassesUndone(p, ks, salt, count);
    FinalUndoesInitial(b.l, b.r);
  }
}
