/**
 Properties of the whole cipher: the complementation property and the salt permutation.
 (That decryption undoes encryption is Des.CipherUndone.)
 */
module DesMeaning {
  import opened Des
  import opened DesKey

  // ---------- complementation ----------

  function Not(b: Block): Block {
    Block(Not32(b.l), Not32(b.r))
  }

  function NotKey(k: Subkey): Subkey {
    Not24Bound(k.l);
    Not24Bound(k.r);
    Subkey(Not24(k.l), Not24(k.r))
  }

  lemma Not24Bound(x: bv32)
    requires x <= 0xff_ffff
    ensures Not24(x) <= 0xff_ffff
  {
  }

  lemma XorNot(f: bv32, x: bv32)
    ensures Xor(f, Not32(x)) == Not32(Xor(f, x))
  {
  }

  // The round function does not see that data and key are both complemented.
  lemma FComplement(r: bv32, k: Subkey, salt: bv32)
    ensures F(Not32(r), NotKey(k), salt) == F(r, k, salt)
  {
    hide ExpandL, ExpandR, Mixed, Substitute, Not32, Not24;
    ExpandComplement(r);
    MixedComplement(ExpandL(r), ExpandR(r), salt, k.l);
    MixedComplement(ExpandR(r), ExpandL(r), salt, k.r);
  }

  lemma RoundComplement(b: Block, k: Subkey, salt: bv32)
    ensures Round(Not(b), NotKey(k), salt) == Not(Round(b, k, salt))
  {
    hide F, Xor, Not32, NotKey;
    FComplement(b.r, k, salt);
    XorNot(F(b.r, k, salt), b.l);
  }

  ghost predicate Complementary(ks: seq<Subkey>, ks': seq<Subkey>) {
    |ks'| == |ks| && forall i :: 0 <= i < |ks| ==> ks'[i] == NotKey(ks[i])
  }

  lemma {:induction false} RoundsComplement(b: Block, ks: seq<Subkey>, ks': seq<Subkey>, salt: bv32, n: nat)
    requires Complementary(ks, ks') && n <= |ks|
    ensures Rounds(Not(b), ks', salt, n) == Not(Rounds(b, ks, salt, n))
  {
    hide Round, NotKey, Not;
    if n > 0 {
      RoundsComplement(b, ks, ks', salt, n - 1);
      RoundComplement(Rounds(b, ks, salt, n - 1), ks[n - 1], salt);
    }
  }

  lemma PassComplement(b: Block, ks: seq<Subkey>, ks': seq<Subkey>, salt: bv32)
    requires Complementary(ks, ks')
    ensures Pass(Not(b), ks', salt) == Not(Pass(b, ks, salt))
  {
    hide Rounds, NotKey, Not32;
    RoundsComplement(b, ks, ks', salt, |ks|);
  }

  lemma {:induction false} PassesComplement(b: Block, ks: seq<Subkey>, ks': seq<Subkey>, salt: bv32, count: nat)
    requires Complementary(ks, ks')
    ensures Passes(Not(b), ks', salt, count) == Not(Passes(b, ks, salt, count))
  {
    hide Pass, NotKey, Not, Complementary;
    if count > 0 {
      PassesComplement(b, ks, ks', salt, count - 1);
      PassComplement(Passes(b, ks, salt, count - 1), ks, ks', salt);
    }
  }

  lemma NotFromXor(a: bv32, b: bv32)
    requires a ^ b == 0xffff_ffff
    ensures a == Not32(b)
  {
  }

  lemma InitialNot(l: bv32, r: bv32)
    ensures IpL(Not32(l), Not32(r)) == Not32(IpL(l, r)) && IpR(Not32(l), Not32(r)) == Not32(IpR(l, r))
  {
    hide IpL, IpR;
    InitialComplementL(l, r);
    InitialComplementR(l, r);
    NotFromXor(IpL(!l, !r), IpL(l, r));
    NotFromXor(IpR(!l, !r), IpR(l, r));
  }

  lemma FinalNot(l: bv32, r: bv32)
    ensures FpL(Not32(l), Not32(r)) == Not32(FpL(l, r)) && FpR(Not32(l), Not32(r)) == Not32(FpR(l, r))
  {
    hide FpL, FpR;
    FinalComplementL(l, r);
    FinalComplementR(l, r);
    NotFromXor(FpL(!l, !r), FpL(l, r));
    NotFromXor(FpR(!l, !r), FpR(l, r));
  }

  lemma CipherNot(b: Block, ks: seq<Subkey>, ks': seq<Subkey>, salt: bv32, count: nat)
    requires Complementary(ks, ks')
    ensures Cipher(Not(b), ks', salt, count) == Not(Cipher(b, ks, salt, count))
  {
    hide IpL, IpR, FpL, FpR, Passes, Not32, Complementary;
    InitialNot(b.l, b.r);
    var p := Block(IpL(b.l, b.r), IpR(b.l, b.r));
    PassesComplement(p, ks, ks', salt, count);
    var m := Passes(p, ks, salt, count);
    FinalNot(m.l, m.r);
  }

  // ---------- the key schedule ----------

  lemma HalfComplement0(raw0: bv32, raw1: bv32)
    ensures KeyHalf0(!raw0, !raw1) ^ KeyHalf0(raw0, raw1) == 0xfff_ffff
  {
  }

  lemma HalfComplement1(raw0: bv32, raw1: bv32)
    ensures KeyHalf1(!raw0, !raw1) ^ KeyHalf1(raw0, raw1) == 0xfff_ffff
  {
  }

  // What compression looks at: the low 28 bits.
  predicate Opposite(t: bv32, t': bv32) {
    (t ^ t') & 0xfff_ffff == 0xfff_ffff
  }

  lemma CompressComplementL(t: bv32, t': bv32)
    requires Opposite(t, t')
    ensures CompressL(t') ^ CompressL(t) == 0xff_ffff
  {
  }

  lemma CompressComplementR(t: bv32, t': bv32)
    requires Opposite(t, t')
    ensures CompressR(t') ^ CompressR(t) == 0xff_ffff
  {
  }

  // The two parts of a rotation.
  function Left(k: bv32, shifts: bv32): bv32
    requires shifts <= 28
  {
    k << shifts
  }

  function Right(k: bv32, shifts: bv32): bv32
    requires shifts <= 28
  {
    k >> shifts
  }

  predicate LowOnes(x: bv32) {
    x & 0xfff_ffff == 0xfff_ffff
  }

  // Each lemma here is about few operations at a time, on plain words or on hidden functions.
  lemma ShiftLeftXor(k: bv32, k': bv32, n: bv32)
    requires n <= 28
    ensures (k << n) ^ (k' << n) == (k ^ k') << n
  {
  }

  lemma ShiftRightXor(k: bv32, k': bv32, n: bv32)
    requires n <= 28
    ensures (k >> n) ^ (k' >> n) == (k ^ k') >> n
  {
  }

  lemma LeftBits(k: bv32, k': bv32, shifts: bv32)
    requires shifts <= 28
    ensures Left(k, shifts) ^ Left(k', shifts) == Left(k ^ k', shifts)
  {
    ShiftLeftXor(k, k', shifts);
  }

  lemma RightBits(k: bv32, k': bv32, shifts: bv32)
    requires shifts <= 28
    ensures Right(k, shifts) ^ Right(k', shifts) == Right(k ^ k', shifts)
  {
    ShiftRightXor(k, k', shifts);
  }

  lemma LeftXor(k: bv32, k': bv32, shifts: bv32)
    requires shifts <= 28
    ensures Xor(Left(k, shifts), Left(k', shifts)) == Left(Xor(k, k'), shifts)
  {
    hide Left;
    LeftBits(k, k', shifts);
  }

  lemma RightXor(k: bv32, k': bv32, shifts: bv32)
    requires shifts <= 28
    ensures Xor(Right(k, shifts), Right(k', shifts)) == Right(Xor(k, k'), shifts)
  {
    hide Right;
    RightBits(k, k', shifts);
  }

  lemma PartsApart(k: bv32, shifts: bv32)
    requires k <= 0xfff_ffff && 1 <= shifts <= 28
    ensures (k << shifts) | (k >> (28 - shifts)) == (k << shifts) ^ (k >> (28 - shifts))
  {
  }

  lemma RotatedParts(k: bv32, shifts: bv32)
    requires k <= 0xfff_ffff && 1 <= shifts <= 28
    ensures Rotated(k, shifts) == Xor(Left(k, shifts), Right(k, 28 - shifts))
  {
    hide Rotated, Left, Right, Xor;
    RotatedIs(k, shifts);
    PartsXor(k, shifts);
  }

  lemma RotatedIs(k: bv32, shifts: bv32)
    requires shifts <= 28
    ensures Rotated(k, shifts) == (k << shifts) | (k >> (28 - shifts))
  {
  }

  lemma PartsXor(k: bv32, shifts: bv32)
    requires k <= 0xfff_ffff && 1 <= shifts <= 28
    ensures (k << shifts) | (k >> (28 - shifts)) == Xor(Left(k, shifts), Right(k, 28 - shifts))
  {
    PartsApart(k, shifts);
  }

  lemma XorAssociative(a: bv32, b: bv32, c: bv32)
    ensures Xor(Xor(a, b), c) == Xor(a, Xor(b, c))
  {
  }

  lemma XorCommutes(a: bv32, b: bv32)
    ensures Xor(a, b) == Xor(b, a)
  {
  }

  lemma XorPairs(a: bv32, b: bv32, c: bv32, d: bv32)
    ensures Xor(Xor(a, b), Xor(c, d)) == Xor(Xor(a, c), Xor(b, d))
  {
    hide Xor;
    XorAssociative(a, b, Xor(c, d));
    XorAssociative(b, c, d);
    XorCommutes(b, c);
    XorAssociative(c, b, d);
    XorAssociative(a, c, Xor(b, d));
  }

  lemma OnesRotated(ones: bv32, shifts: bv32)
    requires ones == 0xfff_ffff && 1 <= shifts <= 28
    ensures LowOnes(Xor(Left(ones, shifts), Right(ones, 28 - shifts)))
  {
  }

  lemma XorIsOnes(k: bv32, k': bv32)
    requires k' ^ k == 0xfff_ffff
    ensures Xor(k, k') == 0xfff_ffff
  {
  }

  lemma OppositeFrom(t: bv32, t': bv32)
    requires LowOnes(Xor(t, t'))
    ensures Opposite(t, t')
  {
  }

  // Rotating complementary halves gives complementary low 28 bits, whatever lies above them.
  lemma RotatedComplement(k: bv32, k': bv32, shifts: bv32)
    requires k <= 0xfff_ffff && k' <= 0xfff_ffff && k' ^ k == 0xfff_ffff && 1 <= shifts <= 28
    ensures Opposite(Rotated(k, shifts), Rotated(k', shifts))
  {
    hide Left, Right, Rotated, Xor, LowOnes, Opposite;
    XorIsOnes(k, k');
    RotatedParts(k, shifts);
    RotatedParts(k', shifts);
    XorPairs(Left(k, shifts), Right(k, 28 - shifts), Left(k', shifts), Right(k', 28 - shifts));
    LeftXor(k, k', shifts);
    RightXor(k, k', 28 - shifts);
    OnesRotated(Xor(k, k'), shifts);
    OppositeFrom(Rotated(k, shifts), Rotated(k', shifts));
  }

  lemma Not24FromXor(a: bv32, b: bv32)
    requires a ^ b == 0xff_ffff
    ensures a == Not24(b)
  {
  }

  lemma SubkeyComplement(k0: bv32, k1: bv32, k0': bv32, k1': bv32, round: nat)
    requires k0 <= 0xfff_ffff && k0' <= 0xfff_ffff && k0' ^ k0 == 0xfff_ffff && round < 16
    requires k1 <= 0xfff_ffff && k1' <= 0xfff_ffff && k1' ^ k1 == 0xfff_ffff
    ensures SubkeyOf(k0', k1', round) == NotKey(SubkeyOf(k0, k1, round))
  {
    hide CompressL, CompressR, Rotated, Opposite, Not24, Shifts;
    var s := Shifts(round);
    RotatedComplement(k0, k0', s);
    RotatedComplement(k1, k1', s);
    CompressComplementL(Rotated(k0, s), Rotated(k0', s));
    CompressComplementR(Rotated(k1, s), Rotated(k1', s));
    Not24FromXor(CompressL(Rotated(k0', s)), CompressL(Rotated(k0, s)));
    Not24FromXor(CompressR(Rotated(k1', s)), CompressR(Rotated(k1, s)));
  }

  // Complementing the 64 key bits complements every subkey.
  lemma ScheduleComplement(raw0: bv32, raw1: bv32)
    ensures Complementary(Schedule(raw0, raw1), Schedule(Not32(raw0), Not32(raw1)))
  {
    hide KeyHalf0, KeyHalf1, SubkeyOf, NotKey;
    HalfBounds(raw0, raw1);
    HalfBounds(!raw0, !raw1);
    HalfComplement0(raw0, raw1);
    HalfComplement1(raw0, raw1);
    forall i | 0 <= i < 16
      ensures Schedule(!raw0, !raw1)[i] == NotKey(Schedule(raw0, raw1)[i])
    {
      SubkeyComplement(KeyHalf0(raw0, raw1), KeyHalf1(raw0, raw1), KeyHalf0(!raw0, !raw1), KeyHalf1(!raw0, !raw1), i);
    }
  }

  /**
   The complementation property of DES, from the key bits to the output block: complementing the
   key and the input complements the output, for every salt and iteration count.
   */
  lemma DesComplement(raw0: bv32, raw1: bv32, b: Block, salt: bv32, count: nat)
    ensures Cipher(Not(b), Schedule(Not32(raw0), Not32(raw1)), salt, count)
      == Not(Cipher(b, Schedule(raw0, raw1), salt, count))
  {
    hide Cipher, Schedule, Not, Not32, Complementary;
    ScheduleComplement(raw0, raw1);
    CipherNot(b, Schedule(raw0, raw1), Schedule(Not32(raw0), Not32(raw1)), salt, count);
  }
}
