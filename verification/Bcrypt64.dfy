/**
 The base-64 of crypt_blowfish.c: BF_encode and BF_decode (lines 374-428), and the salt that
 BF_crypt writes back (lines 712-714).
 */
module Bcrypt64 {
  import opened Wrappers
  import opened Words

  type Six = x: nat | x < 64

  /** BF_itoa64: dot, slash, capital letters, small letters, figures. */
  function ToChar(v: Six): char {
    if v == 0 then '.'
    else if v == 1 then '/'
    else if v < 28 then (v - 2 + 'A' as int) as char
    else if v < 54 then (v - 28 + 'a' as int) as char
    else (v - 54 + '0' as int) as char
  }

  /** BF_safe_atoi64 and BF_atoi64: the value of a character, if it is one of the sixty-four. */
  function FromChar(c: char): (v: Option<Six>) {
    if c == '.' then Some(0)
    else if c == '/' then Some(1)
    else if 'A' <= c <= 'Z' then Some(c as int - 'A' as int + 2)
    else if 'a' <= c <= 'z' then Some(c as int - 'a' as int + 28)
    else if '0' <= c <= '9' then Some(c as int - '0' as int + 54)
    else None
  }

  /** The two tables undo each other. */
  lemma CharRoundTrip(v: Six, c: char)
    ensures FromChar(ToChar(v)) == Some(v)
    ensures FromChar(c) == Some(v) <==> c == ToChar(v)
  {
  }

  // ---------- bytes and sextets ----------

  // The four sextets of three bytes, and the three bytes of four sextets.
  function S0(b0: Byte): Six { b0 / 4 }

  function S1(b0: Byte, b1: Byte): Six { b0 % 4 * 16 + b1 / 16 }

  function S2(b1: Byte, b2: Byte): Six { b1 % 16 * 4 + b2 / 64 }

  function S3(b2: Byte): Six { b2 % 64 }

  function B0(s0: Six, s1: Six): Byte { s0 * 4 + s1 / 16 }

  function B1(s1: Six, s2: Six): Byte { s1 % 16 * 16 + s2 / 4 }

  function B2(s2: Six, s3: Six): Byte { s2 % 4 * 64 + s3 }

  lemma BytesBack(b0: Byte, b1: Byte, b2: Byte)
    ensures B0(S0(b0), S1(b0, b1)) == b0 && B1(S1(b0, b1), S2(b1, b2)) == b1 && B2(S2(b1, b2), S3(b2)) == b2
  {
  }

  lemma SextetsBack(s0: Six, s1: Six, s2: Six, s3: Six)
    ensures S0(B0(s0, s1)) == s0 && S1(B0(s0, s1), B1(s1, s2)) == s1 && S2(B1(s1, s2), B2(s2, s3)) == s2
      && S3(B2(s2, s3)) == s3
  {
  }

  // What the missing bytes leave of the last sextet.
  lemma SextetsCut(s0: Six, s1: Six, s2: Six)
    ensures S0(B0(s0, s1)) == s0 && S1(B0(s0, s1), 0) == s1 - s1 % 16
    ensures S1(B0(s0, s1), B1(s1, s2)) == s1 && S2(B1(s1, s2), 0) == s2 - s2 % 4
  {
  }

  /** The sextets of a string of bytes, the last one filled up with zero bits. */
  function Encode(b: seq<Byte>): (s: seq<Six>)
    ensures |s| == Length(|b|)
  {
    if |b| == 0 then []
    else if |b| == 1 then [S0(b[0]), S1(b[0], 0)]
    else if |b| == 2 then [S0(b[0]), S1(b[0], b[1]), S2(b[1], 0)]
    else Four(b[0], b[1], b[2]) + Encode(b[3..])
  }

  function Four(b0: Byte, b1: Byte, b2: Byte): (s: seq<Six>)
    ensures |s| == 4
  {
    [S0(b0), S1(b0, b1), S2(b1, b2), S3(b2)]
  }

  /** Eight bits a byte, six bits a character, rounded up. */
  function Length(n: nat): nat {
    (8 * n + 5) / 6
  }

  /** The first n bytes of a string of sextets. */
  function Decode(s: seq<Six>, n: nat): (b: seq<Byte>)
    requires |s| >= Length(n)
    ensures |b| == n
  {
    if n == 0 then []
    else if n == 1 then [B0(s[0], s[1])]
    else if n == 2 then [B0(s[0], s[1]), B1(s[1], s[2])]
    else Three(s[0], s[1], s[2], s[3]) + Decode(s[4..], n - 3)
  }

  function Three(s0: Six, s1: Six, s2: Six, s3: Six): (b: seq<Byte>)
    ensures |b| == 3
  {
    [B0(s0, s1), B1(s1, s2), B2(s2, s3)]
  }

  /** Decoding gives back what was encoded. */
  lemma {:induction false} RoundTrip(b: seq<Byte>)
    ensures Decode(Encode(b), |b|) == b
  {
    hide S0, S1, S2, S3, B0, B1, B2;
    if |b| == 1 {
      BytesBack(b[0], 0, 0);
    } else if |b| == 2 {
      BytesBack(b[0], b[1], 0);
    } else if |b| >= 3 {
      BytesBack(b[0], b[1], b[2]);
      RoundTrip(b[3..]);
      assert Encode(b)[4..] == Encode(b[3..]);
      assert b == [b[0], b[1], b[2]] + b[3..];
    }
  }

  /** The last sextet without the bits that no byte uses. */
  function Canonical(s: seq<Six>, n: nat): (t: seq<Six>)
    requires |s| == Length(n) && n > 0
    ensures |t| == |s|
  {
    s[|s| - 1 := Trimmed(s[|s| - 1], n)]
  }

  function Trimmed(last: Six, n: nat): Six {
    if n % 3 == 1 then last - last % 16 else if n % 3 == 2 then last - last % 4 else last
  }

  /** Encoding what was decoded gives the canonical form back. */
  lemma {:induction false} Reencoded(s: seq<Six>, n: nat)
    requires |s| == Length(n) && n > 0
    ensures Encode(Decode(s, n)) == Canonical(s, n)
  {
    hide S0, S1, S2, S3, B0, B1, B2, Four, Three;
    if n == 1 {
      SextetsCut(s[0], s[1], 0);
    } else if n == 2 {
      SextetsCut(s[0], s[1], s[2]);
    } else {
      FourOfThree(s[0], s[1], s[2], s[3]);
      var b := Decode(s, n);
      assert b[3..] == Decode(s[4..], n - 3);
      if n > 3 {
        Reencoded(s[4..], n - 3);
      }
      CanonicalAfter(s, n);
    }
  }

  lemma FourOfThree(s0: Six, s1: Six, s2: Six, s3: Six)
    ensures var b := Three(s0, s1, s2, s3); Four(b[0], b[1], b[2]) == [s0, s1, s2, s3]
  {
    hide S0, S1, S2, S3, B0, B1, B2;
    SextetsBack(s0, s1, s2, s3);
  }

  lemma CanonicalAfter(s: seq<Six>, n: nat)
    requires |s| == Length(n) && n >= 3
    ensures Canonical(s, n) == [s[0], s[1], s[2], s[3]] + if n > 3 then Canonical(s[4..], n - 3) else []
  {
    hide Trimmed;
    TrimmedAlike(s[|s| - 1], n);
  }

  lemma TrimmedAlike(last: Six, n: nat)
    requires n >= 3
    ensures Trimmed(last, n) == Trimmed(last, n - 3) && Trimmed(last, 3) == last
  {
  }

  /** Two strings decode alike exactly when their canonical forms are the same. */
  lemma DecodeSameIff(s: seq<Six>, t: seq<Six>, n: nat)
    requires |s| == |t| == Length(n) && n > 0
    ensures Decode(s, n) == Decode(t, n) <==> Canonical(s, n) == Canonical(t, n)
  {
    hide Encode, Decode, Canonical;
    Reencoded(s, n);
    Reencoded(t, n);
    SameBytes(s, t, n);
  }

  // The unused bits do not reach the bytes.
  lemma SameBytes(s: seq<Six>, t: seq<Six>, n: nat)
    requires |s| == |t| == Length(n) && n > 0
    ensures Encode(Decode(s, n)) == Encode(Decode(t, n)) ==> Decode(s, n) == Decode(t, n)
  {
    hide Encode, Decode;
    RoundTrip(Decode(s, n));
    RoundTrip(Decode(t, n));
  }

  // ---------- the loops ----------

  function Text(s: seq<Six>): (t: string)
    ensures |t| == |s| && forall i :: 0 <= i < |s| ==> t[i] == ToChar(s[i])
  {
    seq(|s|, i requires 0 <= i < |s| => ToChar(s[i]))
  }

  lemma TextJoin(s: seq<Six>, t: seq<Six>)
    ensures Text(s + t) == Text(s) + Text(t)
  {
  }

  lemma NoBytes(a: seq<Byte>)
    ensures |a| == 0 ==> Encode(a) == []
  {
  }

  lemma EncodeUnfold(b: seq<Byte>)
    requires |b| >= 3
    ensures Encode(b) == Four(b[0], b[1], b[2]) + Encode(b[3..])
  {
  }

  lemma DecodeUnfold(s: seq<Six>, n: nat)
    requires n >= 3 && |s| >= Length(n)
    ensures Decode(s, n) == Three(s[0], s[1], s[2], s[3]) + Decode(s[4..], n - 3)
  {
  }

  lemma SumAssociates<T>(a: seq<T>, b: seq<T>, c: seq<T>)
    ensures a + (b + c) == a + b + c
  {
  }

  /** Whole triples encode by themselves. */
  lemma {:induction false} EncodeJoin(a: seq<Byte>, b: seq<Byte>)
    requires |a| % 3 == 0
    ensures Encode(a + b) == Encode(a) + Encode(b)
  {
    hide Four, Encode;
    if a == [] {
      NoBytes(a);
      assert a + b == b;
    } else {
      EncodeJoin(a[3..], b);
      assert (a + b)[3..] == a[3..] + b;
      EncodeUnfold(a);
      EncodeUnfold(a + b);
      SumAssociates(Four(a[0], a[1], a[2]), Encode(a[3..]), Encode(b));
    }
  }

  // One turn of the loop of BF_encode.
  lemma EncodeStep(src: seq<Byte>, p: nat, q: nat)
    requires p % 3 == 0 && p <= q <= |src|
    ensures Text(Encode(src[..q])) == Text(Encode(src[..p])) + Text(Encode(src[p..q]))
  {
    hide Encode, Text;
    assert src[..q] == src[..p] + src[p..q];
    EncodeJoin(src[..p], src[p..q]);
    TextJoin(Encode(src[..p]), Encode(src[p..q]));
  }

  lemma EncodeShort(b: seq<Byte>)
    ensures |b| == 1 ==> Encode(b) == [S0(b[0]), S1(b[0], 0)]
    ensures |b| == 2 ==> Encode(b) == [S0(b[0]), S1(b[0], b[1]), S2(b[1], 0)]
    ensures |b| == 3 ==> Encode(b) == [S0(b[0]), S1(b[0], b[1]), S2(b[1], b[2]), S3(b[2])]
  {
  }

  /** BF_encode, lines 398-428; its callers pass at least one byte. */
  method BfEncode(src: seq<Byte>) returns (dst: string)
    requires |src| >= 1
    ensures dst == Text(Encode(src))
  {
    hide S0, S1, S2, S3, ToChar, Encode, Text;
    dst := [];
    var p := 0;
    NothingEncoded(src);
    while p < |src|
      invariant p <= |src| && (p < |src| ==> p % 3 == 0) && dst == Text(Encode(src[..p]))
      decreases |src| - p
    {
      var q := if |src| - p < 3 then |src| else p + 3;
      EncodeStep(src, p, q);
      EncodeShort(src[p..q]);
      var c1 := src[p];
      dst := dst + EncodeGroup(c1, src[p + 1..q]);
      p := q;
    }
    assert src[..p] == src;
  }

  // The characters of one, two or three bytes: the body of the loop with its two breaks.
  function EncodeGroup(b: Byte, rest: seq<Byte>): string
    requires |rest| <= 2
  {
    if |rest| == 0 then Text([S0(b), S1(b, 0)])
    else if |rest| == 1 then Text([S0(b), S1(b, rest[0]), S2(rest[0], 0)])
    else Text([S0(b), S1(b, rest[0]), S2(rest[0], rest[1]), S3(rest[1])])
  }

  lemma NothingEncoded(src: seq<Byte>)
    ensures Text(Encode(src[..0])) == []
  {
  }

  // ---------- decoding ----------

  predicate CharOk(s: string, i: nat) {
    i < |s| && FromChar(s[i]).Some?
  }

  predicate CharsOk(s: string, n: nat) {
    forall i :: 0 <= i < n ==> CharOk(s, i)
  }

  function Values(s: string, n: nat): (v: seq<Six>)
    requires CharsOk(s, n)
    ensures |v| == n
  {
    seq(n, i requires 0 <= i < n => ValueAt(s, i))
  }

  function ValueAt(s: string, i: nat): Six {
    if CharOk(s, i) then FromChar(s[i]).value else 0
  }

  lemma NoSextets(s: seq<Six>)
    ensures Decode(s, 0) == []
  {
  }

  /** Whole groups of four decode by themselves. */
  lemma {:induction false} DecodeJoin(s: seq<Six>, n: nat, m: nat)
    requires n % 3 == 0 && |s| >= Length(n + m)
    ensures Decode(s, n + m) == Decode(s, n) + Decode(s[n / 3 * 4..], m)
  {
    hide Three, Decode;
    if n == 0 {
      NoSextets(s);
      assert s[0..] == s;
    } else {
      assert s[4..][(n - 3) / 3 * 4..] == s[n / 3 * 4..];
      DecodeJoin(s[4..], n - 3, m);
      DecodeUnfold(s, n + m);
      DecodeUnfold(s, n);
      SumAssociates(Three(s[0], s[1], s[2], s[3]), Decode(s[4..], n - 3), Decode(s[n / 3 * 4..], m));
    }
  }

  lemma DecodePrefix(s: seq<Six>, t: seq<Six>, n: nat)
    requires |s| >= Length(n) && |t| >= Length(n) && s[..Length(n)] == t[..Length(n)]
    ensures Decode(s, n) == Decode(t, n)
  {
    hide B0, B1, B2;
    if n > 0 {
      forall i | 0 <= i < Length(n) ensures s[i] == t[i] { assert s[..Length(n)][i] == t[..Length(n)][i]; }
    }
    if n >= 3 {
      assert s[4..][..Length(n - 3)] == t[4..][..Length(n - 3)];
      DecodePrefix(s[4..], t[4..], n - 3);
    }
  }

  function DecodeGroup(s: string, p: nat, m: nat): (b: seq<Byte>)
    requires 1 <= m <= 3
    ensures |b| == m
  {
    [B0(ValueAt(s, p), ValueAt(s, p + 1))]
    + (if m >= 2 then [B1(ValueAt(s, p + 1), ValueAt(s, p + 2))] else [])
    + (if m == 3 then [B2(ValueAt(s, p + 2), ValueAt(s, p + 3))] else [])
  }

  // The bytes of the group at character p: as many of three as are wanted.
  lemma DecodeStep(s: string, n: nat, m: nat)
    requires n % 3 == 0 && 1 <= m <= 3 && CharsOk(s, Length(n + m))
    ensures Length(n + m) == n / 3 * 4 + m + 1 && CharsOk(s, Length(n))
    ensures Decode(Values(s, Length(n + m)), n + m) == Decode(Values(s, Length(n)), n) + DecodeGroup(s, n / 3 * 4, m)
  {
    hide B0, B1, B2, ValueAt;
    var p := n / 3 * 4;
    var all := Values(s, Length(n + m));
    DecodeJoin(all, n, m);
    DecodePrefix(all, Values(s, Length(n)), n);
    assert all[p..][0] == ValueAt(s, p) && all[p..][1] == ValueAt(s, p + 1);
    if m == 3 { assert Decode(all[p..][4..], 0) == []; }
  }

  /**
   BF_decode, lines 374-396: the first size bytes, or nothing if one of the characters they need is not
   of the sixty-four.
   */
  method BfDecode(src: string, size: nat) returns (dst: Option<seq<Byte>>)
    requires size >= 1
    ensures dst == if CharsOk(src, Length(size)) then Some(Decode(Values(src, Length(size)), size)) else None
  {
    hide B0, B1, B2, Decode, ValueAt, Values, CharsOk, Length, DecodeGroup, CharOk;
    var out: seq<Byte> := [];
    var p := 0;
    NothingDecoded(src);
    while |out| < size
      invariant |out| <= size && (|out| < size ==> |out| % 3 == 0 && p == |out| / 3 * 4)
      invariant CharsOk(src, Length(|out|)) && out == Decode(Values(src, Length(|out|)), |out|)
      decreases size - |out|
    {
      var n := |out|;
      var m := if size - n < 3 then size - n else 3;
      LengthRises(src, n + m, size);
      GroupChars(src, n, m);
      if !CharOk(src, p) || !CharOk(src, p + 1) || (m >= 2 && !CharOk(src, p + 2)) || (m == 3 && !CharOk(src, p + 3)) {
        return None;
      }
      DecodeStep(src, n, m);
      var next := DecodeNext(src, p, m);
      out := out + next;
      p := p + m + 1;
    }
    dst := Some(out);
  }

  // The one, two or three bytes of a group.
  method DecodeNext(src: string, p: nat, m: nat) returns (out: seq<Byte>)
    requires 1 <= m <= 3
    ensures out == DecodeGroup(src, p, m)
  {
    hide B0, B1, B2, ValueAt;
    out := [B0(ValueAt(src, p), ValueAt(src, p + 1))];
    if m >= 2 { out := out + [B1(ValueAt(src, p + 1), ValueAt(src, p + 2))]; }
    if m == 3 { out := out + [B2(ValueAt(src, p + 2), ValueAt(src, p + 3))]; }
  }

  lemma LengthRises(s: string, n: nat, m: nat)
    requires n <= m
    ensures Length(n) <= Length(m) && (CharsOk(s, Length(m)) ==> CharsOk(s, Length(n)))
  {
  }

  // Which characters a group adds to those that must be good.
  lemma GroupChars(s: string, n: nat, m: nat)
    requires n % 3 == 0 && 1 <= m <= 3 && CharsOk(s, Length(n))
    ensures var p := n / 3 * 4;
      CharsOk(s, Length(n + m)) <==>
        CharOk(s, p) && CharOk(s, p + 1) && (m >= 2 ==> CharOk(s, p + 2)) && (m == 3 ==> CharOk(s, p + 3))
  {
    hide CharOk;
    var p := n / 3 * 4;
    assert Length(n) == p && Length(n + m) == p + m + 1;
  }

  lemma NothingDecoded(s: string)
    ensures CharsOk(s, Length(0)) && Decode(Values(s, Length(0)), 0) == []
  {
  }

  /** Lines 712-714: the 22 salt characters of a result are the encoding of the salt that was used. */
  lemma SaltCanonical(salt: seq<Six>)
    requires |salt| == 22
    ensures Encode(Decode(salt, 16)) == salt[..21] + [And(salt[21], 0x30)]
  {
    hide Encode, Decode, And;
    Reencoded(salt, 16);
    assert PowerOfTwo(16) && PowerOfTwo(64);
    ComplementMask(salt[21], 16, 64);
  }
}
