/**
 What the streaming state computes: the hash of the concatenation of all pieces, with the padding
 of the standards.
 */
module StreamingMeaning {
  import opened Wrappers
  import opened Words
  import opened Streaming

  function Concat(parts: seq<seq<Byte>>): seq<Byte> {
    if parts == [] then [] else Concat(parts[..|parts| - 1]) + parts[|parts| - 1]
  }

  // ---------- bytes of a number ----------

  function Power(count: nat): (p: nat)
    ensures p > 0
  {
    if count == 0 then 1 else 256 * Power(count - 1)
  }

  function BigValue(s: seq<Byte>): nat {
    if s == [] then 0 else BigValue(s[..|s| - 1]) * 256 + s[|s| - 1]
  }

  function LittleValue(s: seq<Byte>): nat {
    if s == [] then 0 else LittleValue(s[1..]) * 256 + s[0]
  }

  lemma LowByte(n: nat, p: nat)
    requires p > 0
    ensures n % (256 * p) == (n / 256) % p * 256 + n % 256
  {
    Quotient(n / 256, p);
    assert 256 * ((n / 256 / p) * p) == (n / 256 / p) * (256 * p);
    RemainderIs(n, 256 * p, n / 256 / p, (n / 256) % p * 256 + n % 256);
  }

  lemma {:induction false} BigRoundTrip(n: nat, count: nat)
    ensures BigValue(BigEndian(n, count)) == n % Power(count)
  {
    if count > 0 {
      BigRoundTrip(n / 256, count - 1);
      LowByte(n, Power(count - 1));
      assert BigEndian(n, count)[..count - 1] == BigEndian(n / 256, count - 1);
    }
  }

  lemma {:induction false} LittleRoundTrip(n: nat, count: nat)
    ensures LittleValue(LittleEndian(n, count)) == n % Power(count)
  {
    if count > 0 {
      LittleRoundTrip(n / 256, count - 1);
      LowByte(n, Power(count - 1));
      assert LittleEndian(n, count)[1..] == LittleEndian(n / 256, count - 1);
    }
  }

  lemma {:induction false} BigFromValue(s: seq<Byte>, t: seq<Byte>)
    requires |s| == |t| && BigValue(s) == BigValue(t)
    ensures s == t
  {
    if s != [] {
      BigFromValue(s[..|s| - 1], t[..|t| - 1]);
      assert s == s[..|s| - 1] + [s[|s| - 1]] && t == t[..|t| - 1] + [t[|t| - 1]];
    }
  }

  lemma {:induction false} LittleFromValue(s: seq<Byte>, t: seq<Byte>)
    requires |s| == |t| && LittleValue(s) == LittleValue(t)
    ensures s == t
  {
    if s != [] {
      LittleFromValue(s[1..], t[1..]);
      assert s == [s[0]] + s[1..] && t == [t[0]] + t[1..];
    }
  }

  lemma Power8()
    ensures Power(8) == WORD
  {
    assert Power(4) == 0x1_0000_0000;
    assert Power(8) == 256 * (256 * (256 * (256 * Power(4))));
  }

  // Eight bytes keep the length modulo 2^64.
  lemma EightBytes(n: nat, bigEndian: bool)
    ensures ByteOrder(n % WORD, bigEndian) == ByteOrder(n, bigEndian)
  {
    Power8();
    RemainderIs(n % WORD, WORD, 0, n % WORD);
    if bigEndian {
      BigRoundTrip(n, 8);
      BigRoundTrip(n % WORD, 8);
      BigFromValue(BigEndian(n % WORD, 8), BigEndian(n, 8));
    } else {
      LittleRoundTrip(n, 8);
      LittleRoundTrip(n % WORD, 8);
      LittleFromValue(LittleEndian(n % WORD, 8), LittleEndian(n, 8));
    }
  }

  function Divide(n: nat, p: nat): nat
    requires p > 0
  {
    n / p
  }

  lemma DivideTwice(n: nat, p: nat)
    requires p > 0
    ensures Divide(n, 256 * p) == Divide(n / 256, p)
  {
    LowByte(n, p);
    Quotient(n, 256 * p);
    Quotient(n / 256, p);
    var q := n / 256 / p;
    assert 256 * (q * p) == q * (256 * p);
    assert (n / (256 * p) - q) * (256 * p) == 0;
  }

  lemma {:induction false} BigSplit(n: nat, high: nat, low: nat)
    ensures BigEndian(n, high + low) == BigEndian(Divide(n, Power(low)), high) + BigEndian(n, low)
  {
    hide Divide;
    if low == 0 {
      DivideByOne(n);
    } else {
      BigSplit(n / 256, high, low - 1);
      DivideTwice(n, Power(low - 1));
    }
  }

  lemma DivideByOne(n: nat)
    ensures Divide(n, 1) == n
  {
  }

  lemma {:induction false} ZerosValue(n: nat)
    ensures BigValue(ZeroBytes(n)) == 0
  {
    if n > 0 {
      ZerosValue(n - 1);
      assert ZeroBytes(n)[..n - 1] == ZeroBytes(n - 1);
    }
  }

  /**
   pad appends the standard padding exactly when the length in bits fits the 64 bits kept, or the
   field has no more than those.
   */
  lemma PaddingIff(f: Format, n: nat)
    requires FormatOk(f)
    ensures CodePadding(f, n) == Padding(f, n) <==> f.field == 8 || (8 * n / WORD) % WORD == 0
  {
    EightBytes(8 * n, f.bigEndian);
    Power8();
    var front := [0x80] + ZeroBytes(ZeroCount(f, n));
    if f.field == 8 {
      assert front + ZeroBytes(0) + ByteOrder(8 * n, f.bigEndian) == front + LengthField(f, n);
    } else {
      var high := BigEndian(8 * n / WORD, 8);
      BigSplit(8 * n, 8, 8);
      BigRoundTrip(8 * n / WORD, 8);
      ZerosValue(8);
      SameMiddle(front, ZeroBytes(8), high, BigEndian(8 * n, 8));
      if BigValue(high) == 0 { BigFromValue(high, ZeroBytes(8)); }
    }
  }

  lemma SameMiddle(front: seq<Byte>, a: seq<Byte>, b: seq<Byte>, back: seq<Byte>)
    requires |a| == |b|
    ensures front + a + back == front + (b + back) <==> a == b
  {
    var n := |front|;
    assert (front + a + back)[n..n + |a|] == a && (front + (b + back))[n..n + |b|] == b;
    assert front + a + back == front + (a + back);
  }

  /** Messages shorter than 2^61 bytes need no exception. */
  lemma PaddingStandard(f: Format, n: nat)
    requires FormatOk(f) && 8 * n < WORD
    ensures CodePadding(f, n) == Padding(f, n)
  {
    hide CodePadding, Padding;
    PaddingIff(f, n);
    RemainderIs(0, WORD, 0, 0);
  }

  lemma FieldEnd(f: Format, n: nat)
    requires FormatOk(f)
    ensures LengthField(f, n)[f.field - 8..] == ByteOrder(8 * n, f.bigEndian)
  {
    if f.field == 16 {
      BigSplit(8 * n, 8, 8);
    }
  }

  // The padded message ends with the length.
  lemma EndsWithLength(f: Format, m: seq<Byte>)
    requires FormatOk(f)
    ensures var whole := m + Padding(f, |m|);
      |whole| >= 8 && whole[|whole| - 8..] == ByteOrder(8 * |m|, f.bigEndian)
  {
    hide ByteOrder, LengthField, ZeroBytes, ZeroCount;
    FieldEnd(f, |m|);
    FieldLong(f);
    LastEight(m, [0x80] + ZeroBytes(ZeroCount(f, |m|)), LengthField(f, |m|));
  }

  lemma FieldLong(f: Format)
    requires FormatOk(f)
    ensures f.field >= 8
  {
  }

  /** Two messages never become the same padded message, so the padding loses nothing. */
  lemma PaddingInjective(f: Format, a: seq<Byte>, b: seq<Byte>)
    requires FormatOk(f) && 8 * |a| < WORD && 8 * |b| < WORD
    requires a + Padding(f, |a|) == b + Padding(f, |b|)
    ensures a == b
  {
    hide ByteOrder, Padding;
    EndsWithLength(f, a);
    EndsWithLength(f, b);
    SameNumber(8 * |a|, 8 * |b|, f.bigEndian);
    assert (a + Padding(f, |a|))[..|a|] == a && (b + Padding(f, |b|))[..|b|] == b;
  }

  lemma LastEight(m: seq<Byte>, front: seq<Byte>, back: seq<Byte>)
    requires |back| >= 8
    ensures |m + (front + back)| >= 8
    ensures (m + (front + back))[|m + (front + back)| - 8..] == back[|back| - 8..]
  {
    assert m + (front + back) == (m + front) + back;
  }

  lemma SameNumber(x: nat, y: nat, bigEndian: bool)
    requires x < WORD && y < WORD && ByteOrder(x, bigEndian) == ByteOrder(y, bigEndian)
    ensures x == y
  {
    Power8();
    RemainderIs(x, WORD, 0, x);
    RemainderIs(y, WORD, 0, y);
    if bigEndian {
      BigRoundTrip(x, 8);
      BigRoundTrip(y, 8);
    } else {
      LittleRoundTrip(x, 8);
      LittleRoundTrip(y, 8);
    }
  }

  // ---------- any splitting ----------

  /**
   Hashing a message in pieces, however it is cut, is hashing it whole: init, any number of updates,
   then the sum.
   */
  method HashParts<H>(compress: (H, seq<Byte>) -> H, f: Format, init: H, parts: seq<seq<Byte>>) returns (h: H)
    requires FormatOk(f) && (forall i :: 0 <= i < |parts| ==> |parts[i]| < WORD) && 8 * |Concat(parts)| < WORD
    ensures h == Hash(compress, f, init, Concat(parts))
  {
    hide Blocks, CodePadding, Padding, Concat, Hasher.Valid;
    NoParts(parts);
    var s := new Hasher(f, compress, init);
    for i := 0 to |parts|
      invariant s.Valid() && s.message == Concat(parts[..i]) && fresh(s) && fresh(s.buf)
      invariant s.format == f && s.compress == compress && s.init == init
    {
      OneMore(parts, i);
      s.Update(parts[i]);
    }
    assert parts[..|parts|] == parts;
    s.Pad();
    PaddingStandard(f, |Concat(parts)|);
    h := s.h;
  }

  lemma NoParts(parts: seq<seq<Byte>>)
    ensures Concat(parts[..0]) == []
  {
  }

  lemma OneMore(parts: seq<seq<Byte>>, i: nat)
    requires i < |parts|
    ensures Concat(parts[..i + 1]) == Concat(parts[..i]) + parts[i]
  {
    assert parts[..i + 1][..i] == parts[..i];
  }
}
