/**
 encrypt.c: setkey and encrypt, which take keys and blocks as 64 characters of one bit each, and
 setup_salt of crypt_des.c.
 */
module DesEncrypt {
  import opened Wrappers
  import opened Des
  import opened DesKey
  import opened DesMeaning

  // ---------- single bits ----------

  // An index as a shift amount.
  function Amount(j: nat): (a: bv32)
    requires j < 32
    ensures a < 32
  {
    match j
    case 0 => 0 case 1 => 1 case 2 => 2 case 3 => 3 case 4 => 4 case 5 => 5 case 6 => 6 case 7 => 7
    case 8 => 8 case 9 => 9 case 10 => 10 case 11 => 11 case 12 => 12 case 13 => 13 case 14 => 14 case 15 => 15
    case 16 => 16 case 17 => 17 case 18 => 18 case 19 => 19 case 20 => 20 case 21 => 21 case 22 => 22 case 23 => 23
    case 24 => 24 case 25 => 25 case 26 => 26 case 27 => 27 case 28 => 28 case 29 => 29 case 30 => 30 case _ => 31
  }

  lemma AmountStep(j: nat)
    requires j < 31
    ensures Amount(j + 1) == Amount(j) + 1
  {
    match j {
      case 0 => case 1 => case 2 => case 3 => case 4 => case 5 => case 6 => case 7 => case 8 => case 9 =>
      case 10 => case 11 => case 12 => case 13 => case 14 => case 15 => case 16 => case 17 => case 18 => case 19 =>
      case 20 => case 21 => case 22 => case 23 => case 24 => case 25 => case 26 => case 27 => case 28 => case 29 =>
      case 30 => case _ =>
    }
  }

  lemma {:induction false} AmountIncreases(i: nat, j: nat)
    requires i < j < 32
    ensures Amount(i) < Amount(j)
  {
    hide Amount;
    AmountStep(j - 1);
    if i < j - 1 {
      AmountIncreases(i, j - 1);
    }
  }

  lemma AmountInjective(i: nat, j: nat)
    requires i < 32 && j < 32 && i != j
    ensures Amount(i) != Amount(j)
  {
    hide Amount;
    if i < j { AmountIncreases(i, j); } else { AmountIncreases(j, i); }
  }

  function Or(x: bv32, y: bv32): bv32 {
    x | y
  }

  // (c & 1) << j
  function Placed(c: bv8, j: nat): bv32
    requires j < 32
  {
    ((c & 1) as bv32) << Amount(j)
  }

  function Bit(w: bv32, a: bv32): bv8
    requires a < 32
  {
    ((w >> a) & 1) as bv8
  }

  // w >> j & 1
  function Taken(w: bv32, j: nat): bv8
    requires j < 32
  {
    Bit(w, Amount(j))
  }

  lemma ShiftSame(x: bv32, c: bv8, a: bv32)
    requires a < 32
    ensures (((x | (((c & 1) as bv32) << a)) >> a) & 1) as bv8 == (((x >> a) & 1) as bv8) | (c & 1)
  {
  }

  lemma ShiftOther(x: bv32, c: bv8, a: bv32, b: bv32)
    requires a < 32 && b < 32 && a != b
    ensures (((x | (((c & 1) as bv32) << a)) >> b) & 1) as bv8 == ((x >> b) & 1) as bv8
  {
  }

  lemma TakenPlaced(x: bv32, c: bv8, i: nat, j: nat)
    requires i < 32 && j < 32
    ensures Taken(Or(x, Placed(c, i)), j) == if i == j then Taken(x, j) | (c & 1) else Taken(x, j)
  {
    hide Amount;
    if i == j {
      ShiftSame(x, c, Amount(i));
    } else {
      AmountInjective(i, j);
      ShiftOther(x, c, Amount(i), Amount(j));
    }
  }

  lemma TakenZero(j: nat)
    requires j < 32
    ensures Taken(0, j) == 0
  {
  }

  function Shifted(w: bv32, a: bv32): bv32
    requires a < 32
  {
    w >> a
  }

  lemma ShiftStep(x: bv32, y: bv32, a: bv32, next: bv32)
    requires a < 31 && next == a + 1
    requires Bit(x, a) == Bit(y, a) && Shifted(x, next) == Shifted(y, next)
    ensures Shifted(x, a) == Shifted(y, a)
  {
  }

  lemma ShiftTop(x: bv32, y: bv32, a: bv32)
    requires a == 31 && Bit(x, a) == Bit(y, a)
    ensures Shifted(x, a) == Shifted(y, a)
  {
  }

  // The bits of a word from j up.
  function Above(w: bv32, j: nat): bv32
    requires j < 32
  {
    Shifted(w, Amount(j))
  }

  lemma AboveStep(x: bv32, y: bv32, j: nat)
    requires j < 32 && Taken(x, j) == Taken(y, j)
    requires j < 31 ==> Above(x, j + 1) == Above(y, j + 1)
    ensures Above(x, j) == Above(y, j)
  {
    hide Amount, Bit, Shifted;
    TopAmount();
    if j < 31 {
      AmountStep(j);
      AmountIncreases(j, 31);
      ShiftStep(x, y, Amount(j), Amount(j + 1));
    } else {
      ShiftTop(x, y, Amount(j));
    }
  }

  lemma TopAmount()
    ensures Amount(31) == 31 && Amount(0) == 0
  {
  }

  lemma {:induction false} SameFrom(x: bv32, y: bv32, j: nat)
    requires j < 32
    requires forall i :: j <= i < 32 ==> Taken(x, i) == Taken(y, i)
    ensures Above(x, j) == Above(y, j)
    decreases 32 - j
  {
    hide Above, Taken;
    if j < 31 {
      SameFrom(x, y, j + 1);
    }
    AboveStep(x, y, j);
  }

  /** A word is its 32 bits. */
  lemma SameBits(x: bv32, y: bv32)
    requires forall i :: 0 <= i < 32 ==> Taken(x, i) == Taken(y, i)
    ensures x == y
  {
    hide Taken, Amount;
    SameFrom(x, y, 0);
    TopAmount();
  }

  // ---------- words and their characters, most significant bit first ----------

  // The word after n characters from position at.
  function FromPrefix(s: seq<bv8>, at: nat, n: nat): bv32
    requires n <= 32 && at + 32 <= |s|
  {
    if n == 0 then 0 else Or(FromPrefix(s, at, n - 1), Placed(s[at + n - 1], 32 - n))
  }

  function Packed(s: seq<bv8>, at: nat): bv32
    requires at + 32 <= |s|
  {
    FromPrefix(s, at, 32)
  }

  function Low(c: bv8): bv8 {
    c & 1
  }

  lemma ZeroOr(c: bv8)
    ensures 0 | (c & 1) == Low(c)
  {
  }

  lemma {:induction false} PrefixBit(s: seq<bv8>, at: nat, n: nat, j: nat)
    requires n <= 32 && at + 32 <= |s| && j < 32
    ensures Taken(FromPrefix(s, at, n), j) == if 32 - n <= j then Low(s[at + 31 - j]) else 0
  {
    hide Taken, Placed, Low, Or;
    if n == 0 {
      TakenZero(j);
    } else {
      PrefixBit(s, at, n - 1, j);
      TakenPlaced(FromPrefix(s, at, n - 1), s[at + n - 1], 32 - n, j);
      if j == 32 - n {
        ZeroOr(s[at + n - 1]);
      }
    }
  }

  /** The characters that encrypt writes for a word. */
  function Bits(w: bv32): (t: seq<bv8>)
    ensures |t| == 32
  {
    seq(32, k requires 0 <= k < 32 => Taken(w, 31 - k))
  }

  lemma BitsOfPacked(s: seq<bv8>, at: nat, k: nat)
    requires at + 32 <= |s| && k < 32
    ensures Bits(Packed(s, at))[k] == Low(s[at + k])
  {
    hide Taken, Low, FromPrefix;
    PrefixBit(s, at, 32, 31 - k);
  }

  lemma TakenBit(w: bv32, j: nat)
    requires j < 32
    ensures Low(Taken(w, j)) == Taken(w, j)
  {
    hide Amount;
    LowLow(w, Amount(j));
  }

  lemma LowLow(w: bv32, a: bv32)
    requires a < 32
    ensures (((w >> a) & 1) as bv8) & 1 == ((w >> a) & 1) as bv8
  {
  }

  lemma PackedOfBits(t: seq<bv8>, at: nat, w: bv32)
    requires at + 32 <= |t| && t[at..at + 32] == Bits(w)
    ensures Packed(t, at) == w
  {
    hide Taken, Low, FromPrefix;
    forall j | 0 <= j < 32
      ensures Taken(Packed(t, at), j) == Taken(w, j)
    {
      PrefixBit(t, at, 32, j);
      assert t[at..at + 32][31 - j] == t[at + 31 - j];
      TakenBit(w, j);
    }
    SameBits(Packed(t, at), w);
  }

  // ---------- encrypt ----------

  /** What encrypt does to a block of 64 characters. */
  function Encrypted(s: seq<bv8>, ks: seq<Subkey>): (t: seq<bv8>)
    requires |s| == 64
    ensures |t| == 64
  {
    var c := Cipher(Block(Packed(s, 0), Packed(s, 32)), ks, 0, 1);
    Bits(c.l) + Bits(c.r)
  }

  /**
   Encrypting and then decrypting gives back the low bit of every character, for every key
   schedule and every block.
   */
  lemma EncryptUndone(s: seq<bv8>, ks: seq<Subkey>, k: nat)
    requires |s| == 64 && k < 64
    ensures Encrypted(Encrypted(s, ks), Reversed(ks))[k] == Low(s[k])
  {
    hide Packed, Bits, Low, Cipher;
    var b := Block(Packed(s, 0), Packed(s, 32));
    var c := Cipher(b, ks, 0, 1);
    var t := Encrypted(s, ks);
    assert t[0..32] == Bits(c.l) && t[32..64] == Bits(c.r);
    PackedOfBits(t, 0, c.l);
    PackedOfBits(t, 32, c.r);
    CipherUndone(b, ks, 0, 1);
    if k < 32 { BitsOfPacked(s, 0, k); } else { BitsOfPacked(s, 32, k - 32); }
  }

  // ---------- setkey ----------

  // (c & 1) << j in a byte
  function Placed8(c: bv8, j: nat): bv8
    requires j < 8
  {
    match j
    case 0 => c & 1
    case 1 => (c & 1) << 1
    case 2 => (c & 1) << 2
    case 3 => (c & 1) << 3
    case 4 => (c & 1) << 4
    case 5 => (c & 1) << 5
    case 6 => (c & 1) << 6
    case _ => (c & 1) << 7
  }

  function Or8(x: bv8, y: bv8): bv8 {
    x | y
  }

  // The byte after n characters from position at.
  function ByteFromPrefix(s: seq<bv8>, at: nat, n: nat): bv8
    requires n <= 8 && at + 8 <= |s|
  {
    if n == 0 then 0 else Or8(ByteFromPrefix(s, at, n - 1), Placed8(s[at + n - 1], 8 - n))
  }

  function ByteAt(s: seq<bv8>, at: nat): bv8
    requires at + 8 <= |s|
  {
    ByteFromPrefix(s, at, 8)
  }

  // Byte q of a word counted from the most significant one.
  function Lifted(b: bv8, q: nat): bv32
    requires q < 4
  {
    match q
    case 0 => (b as bv32) << 24
    case 1 => (b as bv32) << 16
    case 2 => (b as bv32) << 8
    case _ => b as bv32
  }

  lemma LiftedPlaced(c: bv8, j: nat, q: nat)
    requires j < 8 && q < 4
    ensures Lifted(Placed8(c, j), q) == Placed(c, 24 - 8 * q + j)
  {
    match q {
      case 0 => match j { case 0 => case 1 => case 2 => case 3 => case 4 => case 5 => case 6 => case _ => }
      case 1 => match j { case 0 => case 1 => case 2 => case 3 => case 4 => case 5 => case 6 => case _ => }
      case 2 => match j { case 0 => case 1 => case 2 => case 3 => case 4 => case 5 => case 6 => case _ => }
      case _ => match j { case 0 => case 1 => case 2 => case 3 => case 4 => case 5 => case 6 => case _ => }
    }
  }

  lemma LiftedOr(w: bv32, x: bv8, y: bv8, q: nat)
    requires q < 4
    ensures Or(w, Lifted(Or8(x, y), q)) == Or(Or(w, Lifted(x, q)), Lifted(y, q))
  {
    hide Or, Lifted, Or8;
    LiftedJoin(x, y, q);
    OrAssociates(w, Lifted(x, q), Lifted(y, q));
  }

  lemma LiftedJoin(x: bv8, y: bv8, q: nat)
    requires q < 4
    ensures Lifted(Or8(x, y), q) == Or(Lifted(x, q), Lifted(y, q))
  {
    match q { case 0 => case 1 => case 2 => case _ => }
  }

  lemma OrAssociates(x: bv32, y: bv32, z: bv32)
    ensures Or(x, Or(y, z)) == Or(Or(x, y), z)
  {
  }

  lemma LiftedZero(w: bv32, q: nat)
    requires q < 4
    ensures Or(w, Lifted(0, q)) == w
  {
  }

  lemma {:induction false} ByteInWord(s: seq<bv8>, at: nat, q: nat, n: nat)
    requires at + 32 <= |s| && q < 4 && n <= 8
    ensures FromPrefix(s, at, 8 * q + n) == Or(FromPrefix(s, at, 8 * q), Lifted(ByteFromPrefix(s, at + 8 * q, n), q))
  {
    hide Placed8, Placed, Lifted, Or8, Or;
    if n == 0 {
      LiftedZero(FromPrefix(s, at, 8 * q), q);
    } else {
      ByteInWord(s, at, q, n - 1);
      var c := s[at + 8 * q + n - 1];
      LiftedPlaced(c, 8 - n, q);
      LiftedOr(FromPrefix(s, at, 8 * q), ByteFromPrefix(s, at + 8 * q, n - 1), Placed8(c, 8 - n), q);
    }
  }

  lemma FourLifted(b0: bv8, b1: bv8, b2: bv8, b3: bv8)
    ensures Or(Or(Or(Or(0, Lifted(b0, 0)), Lifted(b1, 1)), Lifted(b2, 2)), Lifted(b3, 3)) == Word(b0, b1, b2, b3)
  {
  }

  // Packing characters into bytes and bytes into words is packing characters into words.
  lemma WordOfBytes(s: seq<bv8>, at: nat)
    requires at + 32 <= |s|
    ensures Word(ByteAt(s, at), ByteAt(s, at + 8), ByteAt(s, at + 16), ByteAt(s, at + 24)) == Packed(s, at)
  {
    hide Word, Lifted, Or, ByteFromPrefix;
    ByteInWord(s, at, 0, 8);
    ByteInWord(s, at, 1, 8);
    ByteInWord(s, at, 2, 8);
    ByteInWord(s, at, 3, 8);
    FourLifted(ByteAt(s, at), ByteAt(s, at + 8), ByteAt(s, at + 16), ByteAt(s, at + 24));
  }

  // ---------- complementation, character by character ----------

  ghost predicate Flipped(s: seq<bv8>, t: seq<bv8>) {
    |s| == |t| && forall k :: 0 <= k < |s| ==> Low(t[k]) == 1 - Low(s[k])
  }

  lemma TakenNot(w: bv32, j: nat)
    requires j < 32
    ensures Taken(w, j) <= 1 && Taken(Not32(w), j) == 1 - Taken(w, j)
  {
    hide Amount;
    BitNot(w, Amount(j));
  }

  lemma BitNot(w: bv32, a: bv32)
    requires a < 32
    ensures Bit(w, a) <= 1 && Bit(Not32(w), a) == 1 - Bit(w, a)
  {
  }

  lemma PackedFlipped(s: seq<bv8>, t: seq<bv8>, at: nat)
    requires at + 32 <= |s| && Flipped(s, t)
    ensures Packed(t, at) == Not32(Packed(s, at))
  {
    hide Taken, Low, FromPrefix, Not32;
    forall j | 0 <= j < 32
      ensures Taken(Packed(t, at), j) == Taken(Not32(Packed(s, at)), j)
    {
      PrefixBit(s, at, 32, j);
      PrefixBit(t, at, 32, j);
      TakenNot(Packed(s, at), j);
    }
    SameBits(Packed(t, at), Not32(Packed(s, at)));
  }

  /** The subkeys that setkey leaves for 64 characters. */
  function KeyOf(key: seq<bv8>): (ks: seq<Subkey>)
    requires |key| == 64
  {
    Schedule(Packed(key, 0), Packed(key, 32))
  }

  /**
   Flipping every character of the key and of the block flips every character of the result.
   */
  lemma EncryptFlipped(key: seq<bv8>, key': seq<bv8>, s: seq<bv8>, s': seq<bv8>, k: nat)
    requires |key| == 64 && |s| == 64 && Flipped(key, key') && Flipped(s, s') && k < 64
    ensures Encrypted(s', KeyOf(key'))[k] == 1 - Encrypted(s, KeyOf(key))[k]
  {
    hide Packed, Low, Cipher, Flipped, Taken, Schedule, Not32, Complementary;
    PackedFlipped(key, key', 0);
    PackedFlipped(key, key', 32);
    PackedFlipped(s, s', 0);
    PackedFlipped(s, s', 32);
    var b := Block(Packed(s, 0), Packed(s, 32));
    DesComplement(Packed(key, 0), Packed(key, 32), b, 0, 1);
    var c := Cipher(b, KeyOf(key), 0, 1);
    if k < 32 { TakenNot(c.l, 31 - k); } else { TakenNot(c.r, 63 - k); }
  }

  /** The static key of encrypt.c and the two functions that use it. */
  class Encrypter {
    const encryptKey: array<Subkey>

    constructor ()
      ensures fresh(encryptKey) && encryptKey.Length == 16
    {
      encryptKey := new Subkey[16](_ => Subkey(0, 0));
    }

    /** setkey, lines 17-29. */
    method SetKey(key: seq<bv8>)
      requires |key| == 64 && encryptKey.Length == 16
      modifies encryptKey
      ensures encryptKey[..] == KeyOf(key)
    {
      hide Schedule, Word, Packed, ByteFromPrefix, Placed8, Or8;
      var bkey := new bv8[8](_ => 0);
      for i := 0 to 8
        invariant forall k :: 0 <= k < i ==> bkey[k] == ByteAt(key, 8 * k)
      {
        bkey[i] := ReadByte(key, 8 * i);
      }
      DesSetKey(bkey[..], encryptKey);
      WordOfBytes(key, 0);
      WordOfBytes(key, 32);
    }

    /** encrypt, lines 31-60. */
    method Encrypt(block: array<bv8>, edflag: bool)
      requires block.Length == 64 && encryptKey.Length == 16
      modifies block
      ensures block[..] == Encrypted(old(block[..]), if edflag then Reversed(encryptKey[..]) else encryptKey[..])
    {
      hide Packed, Bits, Cipher;
      ghost var s := block[..];
      var b0 := ReadWord(block[..], 0);
      var b1 := ReadWord(block[..], 32);
      var key := encryptKey;
      if edflag {
        key := new Subkey[16](_ => Subkey(0, 0));
        for i := 0 to 16
          invariant forall k :: 0 <= k < i ==> key[k] == encryptKey[15 - k]
        {
          key[i] := encryptKey[15 - i];
        }
        assert key[..] == Reversed(encryptKey[..]);
      }
      b0, b1 := DoDes(b0, b1, 1, 0, key[..]);
      WriteWord(block, 0, b0);
      WriteWord(block, 32, b1);
      assert block[..] == block[..32] + block[32..];
    }
  }

  /** Lines 23-25: one key byte from 8 characters. */
  method ReadByte(s: seq<bv8>, at: nat) returns (b: bv8)
    requires at + 8 <= |s|
    ensures b == ByteAt(s, at)
  {
    hide Placed8, Or8;
    b := 0;
    var p := at;
    var j := 8;
    while j > 0
      invariant 0 <= j <= 8 && p == at + 8 - j
      invariant b == ByteFromPrefix(s, at, 8 - j)
    {
      j := j - 1;
      b := Or8(b, Placed8(s[p], j));
      p := p + 1;
    }
  }

  /** Lines 40-42: one word from 32 characters. */
  method ReadWord(s: seq<bv8>, at: nat) returns (b: bv32)
    requires at + 32 <= |s|
    ensures b == Packed(s, at)
  {
    hide Placed, Or;
    b := 0;
    var p := at;
    var j := 32;
    while j > 0
      invariant 0 <= j <= 32 && p == at + 32 - j
      invariant b == FromPrefix(s, at, 32 - j)
    {
      j := j - 1;
      b := Or(b, Placed(s[p], j));
      p := p + 1;
    }
  }

  /** Lines 58-59: 32 characters from one word. */
  method WriteWord(block: array<bv8>, at: nat, w: bv32)
    requires at + 32 <= block.Length
    modifies block
    ensures block[..] == old(block[..at]) + Bits(w) + old(block[at + 32..])
  {
    hide Taken;
    var p := at;
    var j := 32;
    while j > 0
      invariant 0 <= j <= 32 && p == at + 32 - j
      invariant forall k :: at <= k < p ==> block[k] == Taken(w, 31 - (k - at))
      invariant forall k :: 0 <= k < at || p <= k < block.Length ==> block[k] == old(block[k])
    {
      j := j - 1;
      block[p] := Taken(w, j);
      p := p + 1;
    }
  }

  // ---------- the salt ----------

  function OneAt(a: bv32): bv32
    requires a < 32
  {
    1 << a
  }

  // The mask with bit j alone.
  function One(j: nat): bv32
    requires j < 32
  {
    OneAt(Amount(j))
  }

  function Doubled(m: bv32): bv32 {
    m << 1
  }

  function Halved(m: bv32): bv32 {
    m >> 1
  }

  predicate Tests(w: bv32, m: bv32) {
    w & m != 0
  }

  lemma OneDoubles(j: nat)
    requires j < 31
    ensures Doubled(One(j)) == One(j + 1) && Halved(One(j + 1)) == One(j)
  {
    hide Amount, OneAt, Doubled, Halved;
    AmountStep(j);
    AmountIncreases(j, j + 1);
    ShiftOne(Amount(j), Amount(j + 1));
  }

  lemma ShiftOne(a: bv32, next: bv32)
    requires a < next < 32 && next == a + 1
    ensures Doubled(OneAt(a)) == OneAt(next) && Halved(OneAt(next)) == OneAt(a)
  {
  }

  lemma OneTests(w: bv32, j: nat)
    requires j < 32
    ensures Taken(w, j) == if Tests(w, One(j)) then 1 else 0
  {
    hide Amount, OneAt, Bit, Tests;
    TestBit(w, Amount(j));
  }

  lemma TestBit(w: bv32, a: bv32)
    requires a < 32
    ensures Bit(w, a) == if Tests(w, OneAt(a)) then 1 else 0
  {
  }

  lemma OnePlaced(x: bv32, i: nat, j: nat)
    requires i < 32 && j < 32
    ensures Taken(Or(x, One(i)), j) == if i == j then 1 else Taken(x, j)
  {
    hide Amount, Bit, OneAt, Or;
    if i == j {
      SetSame(x, Amount(i));
    } else {
      AmountInjective(i, j);
      SetOther(x, Amount(i), Amount(j));
    }
  }

  lemma SetSame(x: bv32, a: bv32)
    requires a < 32
    ensures Bit(Or(x, OneAt(a)), a) == 1
  {
  }

  lemma SetOther(x: bv32, a: bv32, b: bv32)
    requires a < 32 && b < 32 && a != b
    ensures Bit(Or(x, OneAt(a)), b) == Bit(x, b)
  {
  }

  /** The 24 low bits in reverse order, and nothing above them. */
  ghost predicate Mirrored(salt: bv32, saltbits: bv32) {
    forall j :: 0 <= j < 32 ==> Taken(saltbits, j) == if j < 24 then Taken(salt, 23 - j) else 0
  }

  // The same for the first n bits of the salt.
  ghost predicate MirroredSoFar(salt: bv32, saltbits: bv32, n: nat)
    requires n <= 24
  {
    forall j :: 0 <= j < 32 ==> Taken(saltbits, j) == if 24 - n <= j < 24 then Taken(salt, 23 - j) else 0
  }

  lemma MirrorStep(salt: bv32, saltbits: bv32, n: nat)
    requires n < 24 && MirroredSoFar(salt, saltbits, n)
    ensures MirroredSoFar(salt, if Tests(salt, One(n)) then Or(saltbits, One(23 - n)) else saltbits, n + 1)
  {
    hide Taken, One, Tests, Or;
    OneTests(salt, n);
    var next := if Tests(salt, One(n)) then Or(saltbits, One(23 - n)) else saltbits;
    forall j | 0 <= j < 32
      ensures Taken(next, j) == if 24 - (n + 1) <= j < 24 then Taken(salt, 23 - j) else 0
    {
      OnePlaced(saltbits, 23 - n, j);
      if j == 23 - n { assert 23 - j == n; }
    }
  }

  /** setup_salt, lines 677-693. */
  method SetupSalt(salt: bv32) returns (saltbits: bv32)
    ensures Mirrored(salt, saltbits)
  {
    hide One, MirroredSoFar, Tests, Or, Mirrored, Doubled, Halved;
    saltbits := 0;
    var saltbit: bv32 := 1;
    var obit: bv32 := 0x800000;
    SaltStart(salt);
    for i := 0 to 24
      invariant saltbit == One(i) && (i < 24 ==> obit == One(23 - i))
      invariant MirroredSoFar(salt, saltbits, i)
    {
      MirrorStep(salt, saltbits, i);
      OneDoubles(i);
      if i < 23 { OneDoubles(22 - i); }
      if Tests(salt, saltbit) {
        saltbits := Or(saltbits, obit);
      }
      saltbit := Doubled(saltbit);
      obit := Halved(obit);
    }
    SaltEnd(salt, saltbits);
  }

  lemma SaltStart(salt: bv32)
    ensures One(0) == 1 && One(23) == 0x800000 && MirroredSoFar(salt, 0, 0)
  {
    hide Taken;
    forall j | 0 <= j < 32 ensures Taken(0, j) == 0 { TakenZero(j); }
  }

  lemma SaltEnd(salt: bv32, saltbits: bv32)
    requires MirroredSoFar(salt, saltbits, 24)
    ensures Mirrored(salt, saltbits)
  {
    hide Taken;
  }

  // The low 24 bits agree.
  ghost predicate SameSalt(salt: bv32, salt': bv32) {
    forall j :: 0 <= j < 24 ==> Taken(salt', j) == Taken(salt, j)
  }

  /** Two salts have the same mask exactly when their low 24 bits agree. */
  lemma MirrorInjective(salt: bv32, salt': bv32, saltbits: bv32)
    requires Mirrored(salt, saltbits)
    ensures Mirrored(salt', saltbits) <==> SameSalt(salt, salt')
  {
    hide Taken;
    if Mirrored(salt', saltbits) {
      forall j | 0 <= j < 24
        ensures Taken(salt', j) == Taken(salt, j)
      {
        assert Taken(saltbits, 23 - j) == Taken(salt, 23 - (23 - j)) == Taken(salt', 23 - (23 - j));
      }
    }
  }

  /** Reversing twice gives the salt back. */
  lemma MirrorTwice(salt: bv32, once: bv32, twice: bv32)
    requires Taken24(salt) && Mirrored(salt, once) && Mirrored(once, twice)
    ensures twice == salt
  {
    hide Taken;
    forall j | 0 <= j < 32
      ensures Taken(twice, j) == Taken(salt, j)
    {
      if j < 24 { assert Taken(once, 23 - j) == Taken(salt, 23 - (23 - j)); }
    }
    SameBits(twice, salt);
  }

  // No bit at or above the 24th.
  ghost predicate Taken24(salt: bv32) {
    forall j :: 24 <= j < 32 ==> Taken(salt, j) == 0
  }
}
