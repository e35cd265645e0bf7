/**
 The block functions of crypt_sha256.c and crypt_md5.c against the rounds of FIPS 180-3 (section
 6.2.2) and RFC 1321 (section 3.4).
 */
module BlockFunctions {
  import opened Wrappers
  import opened Streaming

  function Rotl(x: bv32, k: bv32): bv32
    requires 0 < k < 32
  {
    (x << k) | (x >> (32 - k))
  }

  function Rotr(x: bv32, k: bv32): bv32
    requires 0 < k < 32
  {
    (x >> k) | (x << (32 - k))
  }

  function Add(x: bv32, y: bv32): bv32 {
    x + y
  }

  // ---------- SHA-256 ----------

  const K: seq<bv32> := [
    0x428a2f98, 0x71374491, 0xb5c0fbcf, 0xe9b5dba5, 0x3956c25b, 0x59f111f1, 0x923f82a4, 0xab1c5ed5,
    0xd807aa98, 0x12835b01, 0x243185be, 0x550c7dc3, 0x72be5d74, 0x80deb1fe, 0x9bdc06a7, 0xc19bf174,
    0xe49b69c1, 0xefbe4786, 0x0fc19dc6, 0x240ca1cc, 0x2de92c6f, 0x4a7484aa, 0x5cb0a9dc, 0x76f988da,
    0x983e5152, 0xa831c66d, 0xb00327c8, 0xbf597fc7, 0xc6e00bf3, 0xd5a79147, 0x06ca6351, 0x14292967,
    0x27b70a85, 0x2e1b2138, 0x4d2c6dfc, 0x53380d13, 0x650a7354, 0x766a0abb, 0x81c2c92e, 0x92722c85,
    0xa2bfe8a1, 0xa81a664b, 0xc24b8b70, 0xc76c51a3, 0xd192e819, 0xd6990624, 0xf40e3585, 0x106aa070,
    0x19a4c116, 0x1e376c08, 0x2748774c, 0x34b0bcb5, 0x391c0cb3, 0x4ed8aa4a, 0x5b9cca4f, 0x682e6ff3,
    0x748f82ee, 0x78a5636f, 0x84c87814, 0x8cc70208, 0x90befffa, 0xa4506ceb, 0xbef9a3f7, 0xc67178f2]

  function Ch(x: bv32, y: bv32, z: bv32): bv32 {
    (x & y) ^ (!x & z)
  }

  function Maj(x: bv32, y: bv32, z: bv32): bv32 {
    (x & y) ^ (x & z) ^ (y & z)
  }

  function BigSigma0(x: bv32): bv32 {
    Rotr(x, 2) ^ Rotr(x, 13) ^ Rotr(x, 22)
  }

  function BigSigma1(x: bv32): bv32 {
    Rotr(x, 6) ^ Rotr(x, 11) ^ Rotr(x, 25)
  }

  function SmallSigma0(x: bv32): bv32 {
    Rotr(x, 7) ^ Rotr(x, 18) ^ (x >> 3)
  }

  function SmallSigma1(x: bv32): bv32 {
    Rotr(x, 17) ^ Rotr(x, 19) ^ (x >> 10)
  }

  function BigWord(b0: Byte, b1: Byte, b2: Byte, b3: Byte): bv32 {
    ((b0 as bv32) << 24) | ((b1 as bv32) << 16) | ((b2 as bv32) << 8) | (b3 as bv32)
  }

  /** The message schedule W. */
  function Schedule(m: seq<Byte>, t: nat): bv32
    requires |m| == 64 && t < 64
  {
    if t < 16 then BigWord(m[4 * t], m[4 * t + 1], m[4 * t + 2], m[4 * t + 3])
    else Add(Add(Add(SmallSigma1(Schedule(m, t - 2)), Schedule(m, t - 7)), SmallSigma0(Schedule(m, t - 15))),
      Schedule(m, t - 16))
  }

  datatype Eight = Eight(a: bv32, b: bv32, c: bv32, d: bv32, e: bv32, f: bv32, g: bv32, h: bv32)

  function Temp1(v: Eight, k: bv32, w: bv32): bv32 {
    Add(Add(Add(Add(v.h, BigSigma1(v.e)), Ch(v.e, v.f, v.g)), k), w)
  }

  function Temp2(v: Eight): bv32 {
    Add(BigSigma0(v.a), Maj(v.a, v.b, v.c))
  }

  /** One of the 64 rounds. */
  function Sha256Round(v: Eight, k: bv32, w: bv32): Eight {
    Eight(Add(Temp1(v, k, w), Temp2(v)), v.a, v.b, v.c, Add(v.d, Temp1(v, k, w)), v.e, v.f, v.g)
  }

  function Sha256Rounds(v: Eight, m: seq<Byte>, t: nat): Eight
    requires |m| == 64 && t <= 64
  {
    if t == 0 then v else Sha256Round(Sha256Rounds(v, m, t - 1), K[t - 1], Schedule(m, t - 1))
  }

  function Sum(v: Eight, w: Eight): Eight {
    Eight(Add(v.a, w.a), Add(v.b, w.b), Add(v.c, w.c), Add(v.d, w.d), Add(v.e, w.e), Add(v.f, w.f), Add(v.g, w.g),
      Add(v.h, w.h))
  }

  /** The next hash value after one block. */
  function Sha256Compress(h: Eight, m: seq<Byte>): Eight {
    if |m| == 64 then Sum(h, Sha256Rounds(h, m, 64)) else h
  }

  // The macros Ch and Maj.
  function ChMacro(x: bv32, y: bv32, z: bv32): bv32 {
    z ^ (x & (y ^ z))
  }

  function MajMacro(x: bv32, y: bv32, z: bv32): bv32 {
    (x & y) | (z & (x | y))
  }

  lemma ChooseBits(x: bv32, y: bv32, z: bv32)
    ensures z ^ (x & (y ^ z)) == (x & y) ^ (!x & z)
    ensures z ^ (x & (y ^ z)) == (x & y) | (!x & z)
  {
  }

  lemma MajorityBits(x: bv32, y: bv32, z: bv32)
    ensures (x & y) | (z & (x | y)) == (x & y) ^ (x & z) ^ (y & z)
  {
  }

  /** The shorter formulas of the macros are the functions of the standard. */
  lemma ChooseAgrees(x: bv32, y: bv32, z: bv32)
    ensures ChMacro(x, y, z) == Ch(x, y, z)
  {
    ChooseBits(x, y, z);
  }

  lemma MajorityAgrees(x: bv32, y: bv32, z: bv32)
    ensures MajMacro(x, y, z) == Maj(x, y, z)
  {
    MajorityBits(x, y, z);
  }

  /** processblock of crypt_sha256.c, lines 43-84: the 64-word schedule, then 64 rounds on eight variables. */
  method Sha256ProcessBlock(hash: Eight, buf: seq<Byte>) returns (next: Eight)
    requires |buf| == 64
    ensures next == Sha256Compress(hash, buf)
  {
    hide ChMacro, MajMacro, Ch, Maj, BigSigma0, BigSigma1, Add, Sha256Round, Schedule;
    var w := Sha256Schedule(buf);
    var v := hash;
    for i := 0 to 64
      invariant v == Sha256Rounds(hash, buf, i)
    {
      v := Sha256OneRound(v, K[i], w[i]);
    }
    next := Sum(hash, v);
  }

  method Sha256Schedule(buf: seq<Byte>) returns (w: seq<bv32>)
    requires |buf| == 64
    ensures |w| == 64 && forall t :: 0 <= t < 64 ==> w[t] == Schedule(buf, t)
  {
    hide BigWord, SmallSigma0, SmallSigma1, Add;
    var words := new bv32[64];
    for i := 0 to 16
      invariant forall t :: 0 <= t < i ==> words[t] == Schedule(buf, t)
    {
      words[i] := BigWord(buf[4 * i], buf[4 * i + 1], buf[4 * i + 2], buf[4 * i + 3]);
    }
    for i := 16 to 64
      invariant forall t :: 0 <= t < i ==> words[t] == Schedule(buf, t)
    {
      words[i] := Add(Add(Add(SmallSigma1(words[i - 2]), words[i - 7]), SmallSigma0(words[i - 15])), words[i - 16]);
    }
    w := words[..];
  }

  // Lines 64-75: the variables move on one place, the last first.
  method Sha256OneRound(v: Eight, k: bv32, w: bv32) returns (next: Eight)
    ensures next == Sha256Round(v, k, w)
  {
    hide ChMacro, MajMacro, Ch, Maj, BigSigma0, BigSigma1, Add;
    var a, b, c, d, e, f, g, h := v.a, v.b, v.c, v.d, v.e, v.f, v.g, v.h;
    ChooseAgrees(e, f, g);
    MajorityAgrees(a, b, c);
    var t1 := Add(Add(Add(Add(h, BigSigma1(e)), ChMacro(e, f, g)), k), w);
    var t2 := Add(BigSigma0(a), MajMacro(a, b, c));
    h := g;
    g := f;
    f := e;
    e := Add(d, t1);
    d := c;
    c := b;
    b := a;
    a := Add(t1, t2);
    next := Eight(a, b, c, d, e, f, g, h);
  }

  // ---------- MD5 ----------

  const T: seq<bv32> := [
    0xd76aa478, 0xe8c7b756, 0x242070db, 0xc1bdceee, 0xf57c0faf, 0x4787c62a, 0xa8304613, 0xfd469501,
    0x698098d8, 0x8b44f7af, 0xffff5bb1, 0x895cd7be, 0x6b901122, 0xfd987193, 0xa679438e, 0x49b40821,
    0xf61e2562, 0xc040b340, 0x265e5a51, 0xe9b6c7aa, 0xd62f105d, 0x02441453, 0xd8a1e681, 0xe7d3fbc8,
    0x21e1cde6, 0xc33707d6, 0xf4d50d87, 0x455a14ed, 0xa9e3e905, 0xfcefa3f8, 0x676f02d9, 0x8d2a4c8a,
    0xfffa3942, 0x8771f681, 0x6d9d6122, 0xfde5380c, 0xa4beea44, 0x4bdecfa9, 0xf6bb4b60, 0xbebfbc70,
    0x289b7ec6, 0xeaa127fa, 0xd4ef3085, 0x04881d05, 0xd9d4d039, 0xe6db99e5, 0x1fa27cf8, 0xc4ac5665,
    0xf4292244, 0x432aff97, 0xab9423a7, 0xfc93a039, 0x655b59c3, 0x8f0ccc92, 0xffeff47d, 0x85845dd1,
    0x6fa87e4f, 0xfe2ce6e0, 0xa3014314, 0x4e0811a1, 0xf7537e82, 0xbd3af235, 0x2ad7d2bb, 0xeb86d391]

  datatype Four = Four(a: bv32, b: bv32, c: bv32, d: bv32)

  /** The auxiliary functions of the four rounds. */
  function Aux(round: nat, x: bv32, y: bv32, z: bv32): bv32
    requires round < 4
  {
    match round
    case 0 => First(x, y, z)
    case 1 => Second(x, y, z)
    case 2 => Third(x, y, z)
    case _ => Fourth(x, y, z)
  }

  function First(x: bv32, y: bv32, z: bv32): bv32 {
    (x & y) | (!x & z)
  }

  function Second(x: bv32, y: bv32, z: bv32): bv32 {
    (x & z) | (y & !z)
  }

  function Third(x: bv32, y: bv32, z: bv32): bv32 {
    x ^ y ^ z
  }

  function Fourth(x: bv32, y: bv32, z: bv32): bv32 {
    y ^ (x | !z)
  }

  /** The macros F, G, H and I. */
  function AuxMacro(round: nat, x: bv32, y: bv32, z: bv32): bv32
    requires round < 4
  {
    match round
    case 0 => ChMacro(x, y, z)
    case 1 => SecondMacro(x, y, z)
    case 2 => Third(x, y, z)
    case _ => Fourth(x, y, z)
  }

  function SecondMacro(x: bv32, y: bv32, z: bv32): bv32 {
    y ^ (z & (y ^ x))
  }

  lemma SecondBits(x: bv32, y: bv32, z: bv32)
    ensures y ^ (z & (y ^ x)) == (x & z) | (y & !z)
  {
  }

  lemma FirstAgrees(x: bv32, y: bv32, z: bv32)
    ensures ChMacro(x, y, z) == First(x, y, z)
  {
    ChooseBits(x, y, z);
  }

  lemma SecondAgrees(x: bv32, y: bv32, z: bv32)
    ensures SecondMacro(x, y, z) == Second(x, y, z)
  {
    SecondBits(x, y, z);
  }

  /** ... and so are those of MD5. */
  lemma AuxAgrees(round: nat, x: bv32, y: bv32, z: bv32)
    requires round < 4
    ensures AuxMacro(round, x, y, z) == Aux(round, x, y, z)
  {
    hide ChMacro, First, Second, SecondMacro, Third, Fourth;
    FirstAgrees(x, y, z);
    SecondAgrees(x, y, z);
  }

  /** Which word of the block step i uses, and by how much it rotates. */
  function WordIndex(i: nat): (k: nat)
    requires i < 64
    ensures k < 16
  {
    if i < 16 then i else if i < 32 then (1 + 5 * (i - 16)) % 16 else if i < 48 then (5 + 3 * (i - 32)) % 16
      else 7 * (i - 48) % 16
  }

  function Amount(round: nat, q: nat): (k: bv32)
    requires round < 4 && q < 4
    ensures 0 < k < 32
  {
    match round
    case 0 => (match q case 0 => 7 case 1 => 12 case 2 => 17 case _ => 22)
    case 1 => (match q case 0 => 5 case 1 => 9 case 2 => 14 case _ => 20)
    case 2 => (match q case 0 => 4 case 1 => 11 case 2 => 16 case _ => 23)
    case _ => (match q case 0 => 6 case 1 => 10 case 2 => 15 case _ => 21)
  }

  function LittleWord(b0: Byte, b1: Byte, b2: Byte, b3: Byte): bv32 {
    (b0 as bv32) | ((b1 as bv32) << 8) | ((b2 as bv32) << 16) | ((b3 as bv32) << 24)
  }

  function BlockWord(m: seq<Byte>, k: nat): bv32
    requires |m| == 64 && k < 16
  {
    LittleWord(m[4 * k], m[4 * k + 1], m[4 * k + 2], m[4 * k + 3])
  }

  /** One operation on four registers, which then change places: a takes the result and becomes b. */
  function Md5Step(v: Four, m: seq<Byte>, i: nat): Four
    requires |m| == 64 && i < 64
  {
    var t := Add(v.a, Add(Add(Aux(i / 16, v.b, v.c, v.d), BlockWord(m, WordIndex(i))), T[i]));
    Four(v.d, Add(Rotl(t, Amount(i / 16, i % 4)), v.b), v.b, v.c)
  }

  function Md5Steps(v: Four, m: seq<Byte>, i: nat): Four
    requires |m| == 64 && i <= 64
  {
    if i == 0 then v else Md5Step(Md5Steps(v, m, i - 1), m, i - 1)
  }

  function Md5Compress(h: Four, m: seq<Byte>): Four {
    if |m| == 64 then
      var v := Md5Steps(h, m, 64);
      Four(Add(h.a, v.a), Add(h.b, v.b), Add(h.c, v.c), Add(h.d, v.d))
    else h
  }

  // The macros FF, GG, HH and II.
  function StepMacro(round: nat, a: bv32, b: bv32, c: bv32, d: bv32, w: bv32, s: bv32, t: bv32): bv32
    requires round < 4 && 0 < s < 32
  {
    Add(Rotl(Add(a, Add(Add(AuxMacro(round, b, c, d), w), t)), s), b)
  }

  /** Lines 58-81: four operations with the registers named in turn, and no moves. */
  method Md5FourSteps(v: Four, m: seq<Byte>, i: nat) returns (next: Four)
    requires |m| == 64 && i + 4 <= 64 && i % 4 == 0
    ensures next == Md5Step(Md5Step(Md5Step(Md5Step(v, m, i), m, i + 1), m, i + 2), m, i + 3)
  {
    hide StepMacro, Md5Step, BlockWord, Amount, WordIndex;
    var r := i / 16;
    SameRound(i);
    var a, b, c, d := v.a, v.b, v.c, v.d;
    StepIs(Four(a, b, c, d), m, i, r, 0);
    a := StepMacro(r, a, b, c, d, BlockWord(m, WordIndex(i)), Amount(r, 0), T[i]);
    StepIs(Four(d, a, b, c), m, i + 1, r, 1);
    d := StepMacro(r, d, a, b, c, BlockWord(m, WordIndex(i + 1)), Amount(r, 1), T[i + 1]);
    StepIs(Four(c, d, a, b), m, i + 2, r, 2);
    c := StepMacro(r, c, d, a, b, BlockWord(m, WordIndex(i + 2)), Amount(r, 2), T[i + 2]);
    StepIs(Four(b, c, d, a), m, i + 3, r, 3);
    b := StepMacro(r, b, c, d, a, BlockWord(m, WordIndex(i + 3)), Amount(r, 3), T[i + 3]);
    next := Four(a, b, c, d);
  }

  lemma SameRound(i: nat)
    requires i + 4 <= 64 && i % 4 == 0
    ensures (i + 1) / 16 == i / 16 && (i + 2) / 16 == i / 16 && (i + 3) / 16 == i / 16
    ensures (i + 1) % 4 == 1 && (i + 2) % 4 == 2 && (i + 3) % 4 == 3
  {
  }

  // One operation, with the macro's formula.
  lemma StepIs(v: Four, m: seq<Byte>, i: nat, r: nat, q: nat)
    requires |m| == 64 && i < 64 && r == i / 16 && q == i % 4
    ensures Md5Step(v, m, i)
      == Four(v.d, StepMacro(r, v.a, v.b, v.c, v.d, BlockWord(m, WordIndex(i)), Amount(r, q), T[i]), v.b, v.c)
  {
    hide Add, Rotl, Aux, AuxMacro, BlockWord, Amount, WordIndex;
    AuxAgrees(r, v.b, v.c, v.d);
  }

  /** processblock of crypt_md5.c, lines 41-87. */
  method Md5ProcessBlock(hash: Four, buf: seq<Byte>) returns (next: Four)
    requires |buf| == 64
    ensures next == Md5Compress(hash, buf)
  {
    hide Add, Md5Step;
    var v := hash;
    var i := 0;
    while i < 64
      invariant i <= 64 && i % 4 == 0 && v == Md5Steps(hash, buf, i)
    {
      v := Md5FourSteps(v, buf, i);
      FourMore(hash, buf, i);
      i := i + 4;
    }
    next := Four(Add(hash.a, v.a), Add(hash.b, v.b), Add(hash.c, v.c), Add(hash.d, v.d));
  }

  lemma FourMore(v: Four, m: seq<Byte>, i: nat)
    requires |m| == 64 && i + 4 <= 64
    ensures Md5Steps(v, m, i + 4)
      == Md5Step(Md5Step(Md5Step(Md5Step(Md5Steps(v, m, i), m, i), m, i + 1), m, i + 2), m, i + 3)
  {
    hide Md5Step;
    assert Md5Steps(v, m, i + 2) == Md5Step(Md5Step(Md5Steps(v, m, i), m, i), m, i + 1);
  }

  lemma ModSixteen(x: nat, k: nat)
    ensures (x + 16 * k) % 16 == x % 16
  {
  }

  /** The index expressions of the four while loops are those of the steps. */
  lemma IndexExpressions(i: nat)
    requires 16 <= i < 64
    ensures i < 32 ==> WordIndex(i) == (5 * i + 1) % 16
    ensures 32 <= i < 48 ==> WordIndex(i) == (3 * i + 5) % 16
    ensures 48 <= i ==> WordIndex(i) == 7 * i % 16
  {
    if i < 32 {
      ModSixteen(1 + 5 * (i - 16), 5);
    } else if i < 48 {
      ModSixteen(5 + 3 * (i - 32), 6);
    } else {
      ModSixteen(7 * (i - 48), 21);
    }
  }
}
