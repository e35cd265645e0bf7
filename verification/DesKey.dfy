/**
 The DES key schedule: __des_setkey and setup_salt.
 */
module DesKey {
  import opened DesTables
  import opened DesRows
  import opened Des

  /** Permuted choice 1: the two 28-bit halves of the key. */
  function KeyHalf0(raw0: bv32, raw1: bv32): bv32 {
    ((Nibble(raw0, 0) & 2) << 3) | ((Nibble(raw0, 0) & 4) << 10) | ((Nibble(raw0, 0) & 8) << 17)
    | (Nibble(raw1, 0) & 1) | ((Nibble(raw1, 0) & 2) << 7) | ((Nibble(raw1, 0) & 4) << 14)
      | ((Nibble(raw1, 0) & 8) << 21)
    | ((Nibble(raw0, 2) & 2) << 4) | ((Nibble(raw0, 2) & 4) << 11) | ((Nibble(raw0, 2) & 8) << 18)
    | ((Nibble(raw1, 2) & 1) << 1) | ((Nibble(raw1, 2) & 2) << 8) | ((Nibble(raw1, 2) & 4) << 15)
      | ((Nibble(raw1, 2) & 8) << 22)
    | ((Nibble(raw0, 4) & 2) << 5) | ((Nibble(raw0, 4) & 4) << 12) | ((Nibble(raw0, 4) & 8) << 19)
    | ((Nibble(raw1, 4) & 1) << 2) | ((Nibble(raw1, 4) & 2) << 9) | ((Nibble(raw1, 4) & 4) << 16)
      | ((Nibble(raw1, 4) & 8) << 23)
    | ((Nibble(raw0, 6) & 2) << 6) | ((Nibble(raw0, 6) & 4) << 13) | ((Nibble(raw0, 6) & 8) << 20)
    | ((Nibble(raw1, 6) & 1) << 3) | ((Nibble(raw1, 6) & 2) << 10) | ((Nibble(raw1, 6) & 4) << 17)
      | ((Nibble(raw1, 6) & 8) << 24)
  }

  function KeyHalf1(raw0: bv32, raw1: bv32): bv32 {
    (Nibble(raw0, 0) & 1)
    | ((Nibble(raw0, 1) & 2) << 19) | ((Nibble(raw0, 1) & 4) << 10) | ((Nibble(raw0, 1) & 8) << 1)
    | ((Nibble(raw1, 1) & 2) << 23) | ((Nibble(raw1, 1) & 4) << 14) | ((Nibble(raw1, 1) & 8) << 5)
    | ((Nibble(raw0, 2) & 1) << 1)
    | ((Nibble(raw0, 3) & 2) << 20) | ((Nibble(raw0, 3) & 4) << 11) | ((Nibble(raw0, 3) & 8) << 2)
    | ((Nibble(raw1, 3) & 2) << 24) | ((Nibble(raw1, 3) & 4) << 15) | ((Nibble(raw1, 3) & 8) << 6)
    | ((Nibble(raw0, 4) & 1) << 2)
    | ((Nibble(raw0, 5) & 2) << 21) | ((Nibble(raw0, 5) & 4) << 12) | ((Nibble(raw0, 5) & 8) << 3)
    | ((Nibble(raw1, 5) & 2) << 25) | ((Nibble(raw1, 5) & 4) << 16) | ((Nibble(raw1, 5) & 8) << 7)
    | ((Nibble(raw0, 6) & 1) << 3)
    | ((Nibble(raw0, 7) & 2) << 22) | ((Nibble(raw0, 7) & 4) << 13) | ((Nibble(raw0, 7) & 8) << 4)
    | ((Nibble(raw1, 7) & 2) << 26) | ((Nibble(raw1, 7) & 4) << 17) | ((Nibble(raw1, 7) & 8) << 8)
  }

  // The 28 bits of a rotated half in groups of three and four, from the top.
  function Three(t: bv32, i: nat): bv32
    requires i < 4
  {
    match i
    case 0 => (t >> 25) & 7
    case 1 => (t >> 18) & 7
    case 2 => (t >> 11) & 7
    case _ => (t >> 4) & 7
  }

  function Four(t: bv32, i: nat): bv32
    requires i < 4
  {
    match i
    case 0 => (t >> 21) & 0xf
    case 1 => (t >> 14) & 0xf
    case 2 => (t >> 7) & 0xf
    case _ => t & 0xf
  }

  lemma GroupBound(t: bv32, i: nat)
    requires i < 4
    ensures Three(t, i) <= 7 && Four(t, i) <= 15
  {
  }

  /** Permuted choice 2: 24 bits from each rotated half. */
  function CompressL(t: bv32): bv32 {
    ((Three(t, 0) & 1) << 17) | ((Three(t, 0) & 2) >> 1) | ((Three(t, 0) & 4) << 17)
    | ((Four(t, 0) & 1) << 4) | ((Four(t, 0) & 2) << 13) | ((Four(t, 0) & 4) << 16) | ((Four(t, 0) & 8) << 5)
    | ((Three(t, 1) & 1) << 12) | ((Three(t, 1) & 4) << 4)
    | ((Four(t, 1) & 1) << 23) | (Four(t, 1) & 2) | ((Four(t, 1) & 4) << 7) | ((Four(t, 1) & 8) << 18)
    | ((Three(t, 2) & 1) << 22) | ((Three(t, 2) & 2) << 4) | ((Three(t, 2) & 4) << 13)
    | ((Four(t, 2) & 1) << 13) | ((Four(t, 2) & 2) << 1) | ((Four(t, 2) & 4) << 8)
    | ((Three(t, 3) & 1) << 20) | ((Three(t, 3) & 2) << 10)
    | ((Four(t, 3) & 1) << 16) | ((Four(t, 3) & 2) << 2) | ((Four(t, 3) & 4) << 5)
  }

  function CompressR(t: bv32): bv32 {
    ((Three(t, 0) & 1) << 21) | ((Three(t, 0) & 2) << 16) | ((Three(t, 0) & 4) >> 1)
    | ((Four(t, 0) & 2) << 6) | ((Four(t, 0) & 4) << 11) | ((Four(t, 0) & 8) >> 3)
    | ((Three(t, 1) & 2) << 19) | (Three(t, 1) & 4)
    | ((Four(t, 1) & 1) << 4) | ((Four(t, 1) & 2) << 22) | ((Four(t, 1) & 4) << 14) | ((Four(t, 1) & 8) << 6)
    | ((Three(t, 2) & 1) << 14) | ((Three(t, 2) & 2) << 10)
    | ((Four(t, 2) & 1) << 10) | ((Four(t, 2) & 2) << 11) | ((Four(t, 2) & 4) << 17) | ((Four(t, 2) & 8) << 2)
    | ((Three(t, 3) & 1) << 22) | ((Three(t, 3) & 2) << 14) | ((Three(t, 3) & 4) << 1)
    | ((Four(t, 3) & 1) << 8) | ((Four(t, 3) & 2) << 17) | ((Four(t, 3) & 8) << 3)
  }

  // Lines 717-718.
  function HalfTurn0(acc: bv32, raw0: bv32, raw1: bv32, i: nat): bv32
    requires i < 4
  {
    acc | (KeyPermMaskL(i, Nibble(raw0, 2 * i)) | KeyPermMaskL(i + 4, Nibble(raw1, 2 * i)))
  }

  // Lines 719-722.
  function HalfTurn1(acc: bv32, raw0: bv32, raw1: bv32, i: nat): bv32
    requires i < 4
  {
    acc | (KeyPermMaskR(2 * i, Nibble(raw0, 2 * i))
      | (KeyPermMaskR(2 * i + 1, Nibble(raw0, 2 * i + 1)) | KeyPermMaskR(i + 8, Nibble(raw1, 2 * i + 1))))
  }

  function HalfSoFar0(raw0: bv32, raw1: bv32, n: nat): bv32
    requires n <= 4
  {
    if n == 0 then 0 else HalfTurn0(HalfSoFar0(raw0, raw1, n - 1), raw0, raw1, n - 1)
  }

  lemma HalfSoFar0Step(raw0: bv32, raw1: bv32, n: nat)
    requires n < 4
    ensures HalfSoFar0(raw0, raw1, n + 1)
      == HalfSoFar0(raw0, raw1, n) | (KeyRowL(n, Nibble(raw0, 2 * n)) | KeyRowL(n + 4, Nibble(raw1, 2 * n)))
  {
    hide KeyPermMaskL, KeyRowL, Nibble;
    NibbleBound(raw0, 2 * n);
    NibbleBound(raw1, 2 * n);
    KeyRowLTable(n, Nibble(raw0, 2 * n));
    KeyRowLTable(n + 4, Nibble(raw1, 2 * n));
  }

  lemma HalfSoFar0All(raw0: bv32, raw1: bv32)
    ensures HalfSoFar0(raw0, raw1, 4) == KeyHalf0(raw0, raw1)
  {
    hide KeyPermMaskL, Nibble;
    HalfSoFar0Step(raw0, raw1, 0);
    HalfSoFar0Step(raw0, raw1, 1);
    HalfSoFar0Step(raw0, raw1, 2);
    HalfSoFar0Step(raw0, raw1, 3);
  }

  function HalfSoFar1(raw0: bv32, raw1: bv32, n: nat): bv32
    requires n <= 4
  {
    if n == 0 then 0 else HalfTurn1(HalfSoFar1(raw0, raw1, n - 1), raw0, raw1, n - 1)
  }

  lemma HalfSoFar1Step(raw0: bv32, raw1: bv32, n: nat)
    requires n < 4
    ensures HalfSoFar1(raw0, raw1, n + 1)
      == HalfSoFar1(raw0, raw1, n)
      | (KeyRowR(2 * n, Nibble(raw0, 2 * n))
      | (KeyRowR(2 * n + 1, Nibble(raw0, 2 * n + 1)) | KeyRowR(n + 8, Nibble(raw1, 2 * n + 1))))
  {
    hide KeyPermMaskR, KeyRowR, Nibble;
    NibbleBound(raw0, 2 * n);
    NibbleBound(raw0, 2 * n + 1);
    NibbleBound(raw1, 2 * n + 1);
    KeyRowRTable(2 * n, Nibble(raw0, 2 * n));
    KeyRowRTable(2 * n + 1, Nibble(raw0, 2 * n + 1));
    KeyRowRTable(n + 8, Nibble(raw1, 2 * n + 1));
  }

  lemma HalfSoFar1All(raw0: bv32, raw1: bv32)
    ensures HalfSoFar1(raw0, raw1, 4) == KeyHalf1(raw0, raw1)
  {
    hide KeyPermMaskR, Nibble;
    HalfSoFar1Step(raw0, raw1, 0);
    HalfSoFar1Step(raw0, raw1, 1);
    HalfSoFar1Step(raw0, raw1, 2);
    HalfSoFar1Step(raw0, raw1, 3);
  }

  function CompressSoFarL(t: bv32, n: nat): bv32
    requires n <= 4
  {
    if n == 0 then 0
      else CompressSoFarL(t, n - 1) | (CompMaskL0(n - 1, Three(t, n - 1)) | CompMaskL1(n - 1, Four(t, n - 1)))
  }

  lemma CompressSoFarLStep(t: bv32, n: nat)
    requires n < 4
    ensures CompressSoFarL(t, n + 1) == CompressSoFarL(t, n) | (CompRowL0(n, Three(t, n)) | CompRowL1(n, Four(t, n)))
  {
    hide CompMaskL0, CompMaskL1, CompRowL0, CompRowL1, Three, Four;
    GroupBound(t, n);
    CompRowL0Table(n, Three(t, n));
    CompRowL1Table(n, Four(t, n));
  }

  lemma CompressSoFarLAll(t: bv32)
    ensures CompressSoFarL(t, 4) == CompressL(t)
  {
    hide CompMaskL0, CompMaskL1, Three, Four;
    CompressSoFarLStep(t, 0);
    CompressSoFarLStep(t, 1);
    CompressSoFarLStep(t, 2);
    CompressSoFarLStep(t, 3);
  }

  function CompressSoFarR(t: bv32, n: nat): bv32
    requires n <= 4
  {
    if n == 0 then 0
      else CompressSoFarR(t, n - 1) | (CompMaskR0(n - 1, Three(t, n - 1)) | CompMaskR1(n - 1, Four(t, n - 1)))
  }

  lemma CompressSoFarRStep(t: bv32, n: nat)
    requires n < 4
    ensures CompressSoFarR(t, n + 1) == CompressSoFarR(t, n) | (CompRowR0(n, Three(t, n)) | CompRowR1(n, Four(t, n)))
  {
    hide CompMaskR0, CompMaskR1, CompRowR0, CompRowR1, Three, Four;
    GroupBound(t, n);
    CompRowR0Table(n, Three(t, n));
    CompRowR1Table(n, Four(t, n));
  }

  lemma CompressSoFarRAll(t: bv32)
    ensures CompressSoFarR(t, 4) == CompressR(t)
  {
    hide CompMaskR0, CompMaskR1, Three, Four;
    CompressSoFarRStep(t, 0);
    CompressSoFarRStep(t, 1);
    CompressSoFarRStep(t, 2);
    CompressSoFarRStep(t, 3);
  }

  lemma HalfBounds(raw0: bv32, raw1: bv32)
    ensures KeyHalf0(raw0, raw1) <= 0xfff_ffff
    ensures KeyHalf1(raw0, raw1) <= 0xfff_ffff
  {
  }

  lemma CompressBounds(t: bv32)
    ensures CompressL(t) <= 0xff_ffff && CompressR(t) <= 0xff_ffff
  {
  }

  /** Rotation of a 28-bit half; bits from 28 up are left over and never looked at. */
  function Rotated(k: bv32, shifts: bv32): bv32
    requires shifts <= 28
  {
    (k << shifts) | (k >> (28 - shifts))
  }

  function KeyShift(round: nat): bv32
    requires round < 16
  {
    if round == 0 || round == 1 || round == 8 || round == 15 then 1 else 2
  }

  /** The shifts accumulated up to and including the round. */
  function Shifts(round: nat): (s: bv32)
    requires round < 16
    ensures 1 <= s <= 28
  {
    match round
    case 0 => 1 case 1 => 2 case 2 => 4 case 3 => 6 case 4 => 8 case 5 => 10 case 6 => 12 case 7 => 14
    case 8 => 15 case 9 => 17 case 10 => 19 case 11 => 21 case 12 => 23 case 13 => 25 case 14 => 27 case _ => 28
  }

  lemma ShiftsStep(round: nat)
    requires round < 16
    ensures Shifts(round) == (if round == 0 then 0 else Shifts(round - 1)) + KeyShift(round)
  {
  }

  /** The subkey of one round. */
  function SubkeyOf(k0: bv32, k1: bv32, round: nat): Subkey
    requires round < 16
  {
    CompressBounds(Rotated(k0, Shifts(round)));
    CompressBounds(Rotated(k1, Shifts(round)));
    Subkey(CompressL(Rotated(k0, Shifts(round))), CompressR(Rotated(k1, Shifts(round))))
  }

  /** The sixteen subkeys of a 64-bit key given as two words. */
  function Schedule(raw0: bv32, raw1: bv32): (ks: seq<Subkey>)
    ensures |ks| == 16
  {
    seq(16, round requires 0 <= round < 16 => SubkeyOf(KeyHalf0(raw0, raw1), KeyHalf1(raw0, raw1), round))
  }

  function Word(b0: bv8, b1: bv8, b2: bv8, b3: bv8): bv32 {
    (b3 as bv32) | ((b2 as bv32) << 8) | ((b1 as bv32) << 16) | ((b0 as bv32) << 24)
  }

  /** __des_setkey, lines 695-751. */
  method DesSetKey(key: seq<bv8>, ekey: array<Subkey>)
    requires |key| == 8 && ekey.Length == 16
    modifies ekey
    ensures ekey[..] == Schedule(Word(key[0], key[1], key[2], key[3]), Word(key[4], key[5], key[6], key[7]))
  {
    hide KeyPermMaskL, KeyPermMaskR, Nibble, KeyHalf0, KeyHalf1, Word, CompressL, CompressR, Rotated;
    var rawkey0 := Word(key[0], key[1], key[2], key[3]);
    var rawkey1 := Word(key[4], key[5], key[6], key[7]);
    var k0, k1 := PermuteKey(rawkey0, rawkey1);
    var shifts: bv32 := 0;
    for round := 0 to 16
      invariant shifts == if round == 0 then 0 else Shifts(round - 1)
      invariant forall i :: 0 <= i < round ==> ekey[i] == SubkeyOf(k0, k1, i)
    {
      ShiftsStep(round);
      shifts := shifts + KeyShift(round);
      ekey[round] := CompressKey(Rotated(k0, shifts), Rotated(k1, shifts));
    }
  }

  /** Lines 714-723. */
  method PermuteKey(rawkey0: bv32, rawkey1: bv32) returns (k0: bv32, k1: bv32)
    ensures k0 == KeyHalf0(rawkey0, rawkey1) && k1 == KeyHalf1(rawkey0, rawkey1)
  {
    hide HalfTurn0, HalfTurn1, KeyHalf0, KeyHalf1;
    k0, k1 := 0, 0;
    for i := 0 to 4
      invariant k0 == HalfSoFar0(rawkey0, rawkey1, i) && k1 == HalfSoFar1(rawkey0, rawkey1, i)
    {
      k0, k1 := HalfTurn0(k0, rawkey0, rawkey1, i), HalfTurn1(k1, rawkey0, rawkey1, i);
    }
    HalfSoFar0All(rawkey0, rawkey1);
    HalfSoFar1All(rawkey0, rawkey1);
  }

  /** Lines 738-747. */
  method CompressKey(t0: bv32, t1: bv32) returns (k: Subkey)
    ensures k.l == CompressL(t0) && k.r == CompressR(t1)
  {
    hide CompMaskL0, CompMaskL1, CompMaskR0, CompMaskR1, Three, Four, CompressL, CompressR;
    var kl: bv32, kr: bv32 := 0, 0;
    for i := 0 to 4
      invariant kl == CompressSoFarL(t0, i) && kr == CompressSoFarR(t1, i)
    {
      kl := kl | (CompMaskL0(i, Three(t0, i)) | CompMaskL1(i, Four(t0, i)));
      kr := kr | (CompMaskR0(i, Three(t1, i)) | CompMaskR1(i, Four(t1, i)));
    }
    CompressSoFarLAll(t0);
    CompressSoFarRAll(t1);
    CompressBounds(t0);
    CompressBounds(t1);
    k := Subkey(kl, kr);
  }
}
