/**
 The buffering and padding that crypt_sha256.c, crypt_sha512.c and crypt_md5.c share: a message
 arrives in pieces of any length and is hashed block by block.
 */
module Streaming {

  import opened Wrappers
  import opened Words

  /** The block length, and the length and byte order of the field that closes the padding. */
  datatype Format = Format(block: nat, field: nat, bigEndian: bool)

  predicate FormatOk(f: Format) {
    f == SHA256 || f == SHA512 || f == MD5
  }

  const SHA256 := Format(64, 8, true)
  const SHA512 := Format(128, 16, true)
  const MD5 := Format(64, 8, false)

  // ---------- whole messages ----------

  /** The state after the complete blocks of a message; a rest shorter than a block is not looked at. */
  function Blocks<H>(compress: (H, seq<Byte>) -> H, block: nat, h: H, m: seq<Byte>): H
    requires block > 0
    decreases |m|
  {
    if |m| < block then h else Blocks(compress, block, compress(h, m[..block]), m[block..])
  }

  /** The bytes of n, least significant first. */
  function LittleEndian(n: nat, count: nat): (s: seq<Byte>)
    ensures |s| == count
    decreases count
  {
    if count == 0 then [] else [n % 256] + LittleEndian(n / 256, count - 1)
  }

  /** The bytes of n, most significant first. */
  function BigEndian(n: nat, count: nat): (s: seq<Byte>)
    ensures |s| == count
    decreases count
  {
    if count == 0 then [] else BigEndian(n / 256, count - 1) + [n % 256]
  }

  function ZeroBytes(n: nat): (s: seq<Byte>)
    ensures |s| == n && forall i :: 0 <= i < n ==> s[i] == 0
  {
    seq(n, _ => 0)
  }

  /** The length field of the standards, for a message of n bytes. */
  function LengthField(f: Format, n: nat): (s: seq<Byte>)
    ensures |s| == f.field
  {
    if f.bigEndian then BigEndian(8 * n, f.field) else LittleEndian(8 * n, f.field)
  }

  /** The number of zero bytes: the least that brings the end of the field to the end of a block. */
  function ZeroCount(f: Format, n: nat): (k: nat)
    requires FormatOk(f)
    ensures k < f.block && (n + 1 + k + f.field) % f.block == 0
  {
    ZerosEnd(f, n);
    (2 * f.block - f.field - 1 - n % f.block) % f.block
  }

  lemma ZerosEnd(f: Format, n: nat)
    requires FormatOk(f)
    ensures (n + 1 + (2 * f.block - f.field - 1 - n % f.block) % f.block + f.field) % f.block == 0
  {
    var x := 2 * f.block - f.field - 1 - n % f.block;
    RoundDown(n, f.block);
    RoundDown(x, f.block);
    RemainderIs(2 * f.block, f.block, 2, 0);
    MultipleSum(n - n % f.block, 2 * f.block, f.block);
    MultipleSum(x - x % f.block, n - n % f.block + 2 * f.block, f.block);
  }

  /** Padding: one bit, zeros, the length (sections 5.1.1 and 5.1.2 of FIPS 180-3, sections 3.1 and 3.2 of RFC 1321). */
  function Padding(f: Format, n: nat): seq<Byte>
    requires FormatOk(f)
  {
    [0x80] + ZeroBytes(ZeroCount(f, n)) + LengthField(f, n)
  }

  /** The hash of a whole message. */
  function Hash<H>(compress: (H, seq<Byte>) -> H, f: Format, init: H, m: seq<Byte>): H
    requires FormatOk(f)
  {
    Blocks(compress, f.block, init, m + Padding(f, |m|))
  }

  // ---------- laws of the block fold ----------

  /** Whole blocks first, then the rest. */
  lemma {:induction false} BlocksJoin<H>(compress: (H, seq<Byte>) -> H, block: nat, h: H, a: seq<Byte>, b: seq<Byte>)
    requires block > 0 && |a| % block == 0
    ensures Blocks(compress, block, h, a + b) == Blocks(compress, block, Blocks(compress, block, h, a), b)
    decreases |a|
  {
    if a == [] {
      assert a + b == b;
    } else {
      Shorter(|a|, block);
      assert (a + b)[..block] == a[..block] && (a + b)[block..] == a[block..] + b;
      BlocksJoin(compress, block, compress(h, a[..block]), a[block..], b);
    }
  }

  lemma Shorter(n: nat, block: nat)
    requires block > 0 && n > 0 && n % block == 0
    ensures n >= block && (n - block) % block == 0
  {
    Quotient(n, block);
    assert n / block >= 1 ==> (n / block) * block >= block;
    RemainderIs(n - block, block, n / block - 1, 0);
  }

  lemma OneBlock<H>(compress: (H, seq<Byte>) -> H, block: nat, h: H, m: seq<Byte>)
    requires block > 0 && |m| == block
    ensures Blocks(compress, block, h, m) == compress(h, m)
  {
    assert m[..block] == m && m[block..] == [];
  }

  // ---------- the incremental state ----------

  /** Where the rest of the message begins. */
  function Full(n: nat, block: nat): (k: nat)
    requires block > 0
    ensures k <= n && k == n - n % block
  {
    n - n % block
  }

  /** h and buf (its first |m| % block bytes) stand for the message m. */
  ghost predicate Holds<H>(compress: (H, seq<Byte>) -> H, block: nat, init: H, h: H, buf: seq<Byte>, m: seq<Byte>)
    requires block > 0 && |buf| == block
  {
    h == Blocks(compress, block, init, m[..Full(|m|, block)]) && buf[..|m| % block] == m[Full(|m|, block)..]
  }

  /** struct sha256, struct sha512 and struct md5: the length counted modulo 2^64, the state, the buffer. */
  class Hasher<H> {
    const format: Format
    const compress: (H, seq<Byte>) -> H
    const init: H
    var len: nat
    var h: H
    const buf: array<Byte>
    ghost var message: seq<Byte>

    ghost predicate Valid()
      reads this, buf
    {
      FormatOk(format) && buf.Length == format.block
      && len == |message| % WORD
      && Holds(compress, format.block, init, h, buf[..], message)
    }

    constructor (format: Format, compress: (H, seq<Byte>) -> H, init: H)
      requires FormatOk(format)
      ensures Valid() && message == [] && fresh(buf)
      ensures this.format == format && this.compress == compress && this.init == init
    {
      this.format, this.compress, this.init := format, compress, init;
      len, h, message := 0, init, [];
      buf := new Byte[format.block](_ => 0);
      new;
      assert buf[..0] == [];
    }

    /** r of the three functions: how much of the buffer is in use. */
    function Used(): (r: nat)
      requires Valid()
      reads this, buf
      ensures r == |message| % format.block && r < format.block
    {
      WrapKeepsRest(|message|, format.block);
      len % format.block
    }

    /** sha256_update, sha512_update and md5_update: the new piece joins the message. */
    method Update(m: seq<Byte>)
      requires Valid() && |m| < WORD
      modifies this, buf
      ensures Valid() && message == old(message) + m
    {
      hide Blocks, Holds, AtBlock;
      var r := Used();
      len := (len + |m|) % WORD;
      WrapSum(|message|, |m|);
      if r > 0 && |m| < format.block - r {
        Copy(buf, r, m);
        StillSame(compress, format.block, init, h, old(buf[..]), buf[..], message, m);
      } else {
        Absorb(r, m, message);
      }
      message := message + m;
    }

    // A piece that completes the block in progress, if there is one.
    method Absorb(r: nat, m: seq<Byte>, ghost was: seq<Byte>)
      requires FormatOk(format) && buf.Length == format.block && r == |was| % format.block
      requires Holds(compress, format.block, init, h, buf[..], was) && (r > 0 ==> |m| >= format.block - r)
      modifies this`h, buf
      ensures Holds(compress, format.block, init, h, buf[..], was + m)
    {
      hide Blocks, Holds, AtBlock;
      var p := Fill(r, m, was);
      p := WholeBlocks(m, p, was);
      Copy(buf, 0, m[p..]);
      SliceOfSum(was, m, p, |m|);
      assert buf[..|m| - p] == m[p..];
      RestBuffered(compress, format.block, init, h, buf[..], was + m, |was| + p);
    }

    // The loop over the blocks that lie whole in the piece.
    method WholeBlocks(m: seq<Byte>, start: nat, ghost was: seq<Byte>) returns (p: nat)
      requires FormatOk(format) && start <= |m| && AtBlock(compress, format.block, init, h, was + m, |was| + start)
      modifies this`h
      ensures start <= p <= |m| < p + format.block
      ensures AtBlock(compress, format.block, init, h, was + m, |was| + p)
    {
      hide Blocks, AtBlock;
      p := start;
      while |m| - p >= format.block
        invariant start <= p <= |m| && AtBlock(compress, format.block, init, h, was + m, |was| + p)
        decreases |m| - p
      {
        SliceOfSum(was, m, p, p + format.block);
        NextBlock(compress, format.block, init, h, was + m, |was| + p);
        h := compress(h, m[p..p + format.block]);
        p := p + format.block;
      }
    }

    // What a block in progress takes of the piece.
    method Fill(r: nat, m: seq<Byte>, ghost was: seq<Byte>) returns (p: nat)
      requires FormatOk(format) && buf.Length == format.block && r == |was| % format.block
      requires Holds(compress, format.block, init, h, buf[..], was)
      requires r > 0 ==> |m| >= format.block - r
      modifies this`h, buf
      ensures p == if r > 0 then format.block - r else 0
      ensures AtBlock(compress, format.block, init, h, was + m, |was| + p)
    {
      hide Blocks, Holds, AtBlock;
      if r > 0 {
        Copy(buf, r, m[..format.block - r]);
        p := format.block - r;
        FirstBlock(compress, format.block, init, h, old(buf[..]), buf[..], was, m);
        h := compress(h, buf[..]);
      } else {
        p := 0;
        NoRest(compress, format.block, init, h, buf[..], was, m);
      }
    }

    /**
     pad: the last one or two blocks.  Afterwards h is the hash of the message with the program's
     padding; the buffer is used up.
     */
    method Pad()
      requires Valid()
      modifies this`len, this`h, buf
      ensures h == Blocks(compress, format.block, init, message + CodePadding(format, |message|))
    {
      hide Blocks, Holds, AtBlock, ByteOrder, CodePadding;
      var block := format.block;
      var r := Used();
      ghost var done := Full(|message|, block);
      ghost var rest := message[done..];
      ghost var whole := message + CodePadding(format, |message|);
      HoldsParts(compress, block, init, h, buf[..], message);
      HoldsStart(compress, block, init, h, buf[..], message, whole);
      PaddedRest(format, message);
      buf[r] := 0x80;
      r := r + 1;
      assert buf[..r] == rest + [0x80];
      if r > block - format.field {
        Spill(r, rest + [0x80], whole, done);
        done := done + block;
        r := 0;
      }
      LengthBits(|message|);
      Close(r, buf[..r], whole, done);
      AtEnd(compress, block, init, h, whole);
    }

    // A block with no room for the length: zeros to its end.
    method Spill(r: nat, ghost kept: seq<Byte>, ghost whole: seq<Byte>, ghost done: nat)
      requires FormatOk(format) && buf.Length == format.block && r <= format.block && buf[..r] == kept
      requires AtBlock(compress, format.block, init, h, whole, done) && done + format.block <= |whole|
      requires whole[done..done + format.block] == kept + ZeroBytes(format.block - r)
      modifies this`h, buf
      ensures AtBlock(compress, format.block, init, h, whole, done + format.block)
    {
      hide Blocks, AtBlock;
      Clear(buf, r, format.block);
      assert buf[..] == kept + ZeroBytes(format.block - r);
      NextBlock(compress, format.block, init, h, whole, done);
      h := compress(h, buf[..]);
    }

    // The last block: zeros and the length in bits.
    method Close(r: nat, ghost kept: seq<Byte>, ghost whole: seq<Byte>, ghost done: nat)
      requires FormatOk(format) && buf.Length == format.block && r <= format.block - 8 && buf[..r] == kept
      requires AtBlock(compress, format.block, init, h, whole, done) && done + format.block <= |whole|
      requires whole[done..done + format.block] ==
        kept + ZeroBytes(format.block - 8 - r) + ByteOrder((len * 8) % WORD, format.bigEndian)
      modifies this`len, this`h, buf
      ensures AtBlock(compress, format.block, init, h, whole, done + format.block)
    {
      hide Blocks, AtBlock, ByteOrder;
      Clear(buf, r, format.block - 8);
      len := (len * 8) % WORD;
      StoreLength(buf, format.block - 8, len, format.bigEndian);
      assert buf[..] == kept + ZeroBytes(format.block - 8 - r) + ByteOrder(len, format.bigEndian);
      NextBlock(compress, format.block, init, h, whole, done);
      h := compress(h, buf[..]);
    }
  }

  // memcpy into the buffer.
  method Copy(buf: array<Byte>, at: nat, s: seq<Byte>)
    requires at + |s| <= buf.Length
    modifies buf
    ensures buf[..] == old(buf[..at]) + s + old(buf[at + |s|..])
  {
    for i := 0 to |s|
      invariant forall k :: 0 <= k < i ==> buf[at + k] == s[k]
      invariant forall k :: 0 <= k < at || at + i <= k < buf.Length ==> buf[k] == old(buf[k])
    {
      buf[at + i] := s[i];
    }
  }

  // memset to zero.
  method Clear(buf: array<Byte>, from: nat, to: nat)
    requires from <= to <= buf.Length
    modifies buf
    ensures buf[..] == old(buf[..from]) + ZeroBytes(to - from) + old(buf[to..])
  {
    for i := from to to
      invariant forall k :: from <= k < i ==> buf[k] == 0
      invariant forall k :: 0 <= k < from || i <= k < buf.Length ==> buf[k] == old(buf[k])
    {
      buf[i] := 0;
    }
  }

  // The eight bytes of the length, in the order of the format.
  function ByteOrder(n: nat, bigEndian: bool): (s: seq<Byte>)
    ensures |s| == 8
  {
    if bigEndian then BigEndian(n, 8) else LittleEndian(n, 8)
  }

  // The low byte of n >> 8 * i.
  function Shifted(n: nat, i: nat): Byte
    decreases i
  {
    if i == 0 then n % 256 else Shifted(n / 256, i - 1)
  }

  lemma {:induction false} LittleAt(n: nat, count: nat, i: nat)
    requires i < count
    ensures LittleEndian(n, count)[i] == Shifted(n, i)
  {
    if i > 0 { LittleAt(n / 256, count - 1, i - 1); }
  }

  lemma {:induction false} BigAt(n: nat, count: nat, i: nat)
    requires i < count
    ensures BigEndian(n, count)[count - 1 - i] == Shifted(n, i)
  {
    if i > 0 { BigAt(n / 256, count - 1, i - 1); }
  }

  method StoreLength(buf: array<Byte>, at: nat, n: nat, bigEndian: bool)
    requires at + 8 == buf.Length
    modifies buf
    ensures buf[..] == old(buf[..at]) + ByteOrder(n, bigEndian)
  {
    hide Shifted, BigEndian, LittleEndian;
    for i := 0 to 8
      invariant forall k :: 0 <= k < at ==> buf[k] == old(buf[k])
      invariant forall k :: 0 <= k < i ==> buf[at + k] == ByteOrder(n, bigEndian)[k]
    {
      BigAt(n, 8, 7 - i);
      LittleAt(n, 8, i);
      buf[at + i] := Shifted(n, if bigEndian then 7 - i else i);
    }
  }

  // ---------- padding ----------

  /** What pad appends: the length field keeps 64 bits of the length, and zeros above them. */
  function CodePadding(f: Format, n: nat): seq<Byte>
    requires FormatOk(f)
  {
    [0x80] + ZeroBytes(ZeroCount(f, n)) + ZeroBytes(f.field - 8) + ByteOrder((8 * n) % WORD, f.bigEndian)
  }

  lemma LengthBits(n: nat)
    ensures (n % WORD * 8) % WORD == (8 * n) % WORD
  {
    Quotient(n, WORD);
    assert n % WORD * 8 == 8 * n - 8 * (n / WORD) * WORD;
    RemainderIs(8 * (n / WORD) * WORD, WORD, 8 * (n / WORD), 0);
    MultipleSum(8 * (n / WORD) * WORD, 8 * n, WORD);
  }

  // How many zeros there are, and that the padding ends a block.
  lemma PaddingFits(f: Format, n: nat)
    requires FormatOk(f)
    ensures var r := n % f.block;
      ZeroCount(f, n) == if r + 1 <= f.block - f.field then f.block - f.field - r - 1 else 2 * f.block - f.field - r - 1
  {
    var r := n % f.block;
    if r + 1 <= f.block - f.field {
      RemainderIs(2 * f.block - f.field - 1 - r, f.block, 1, f.block - f.field - 1 - r);
    } else {
      RemainderIs(2 * f.block - f.field - 1 - r, f.block, 0, 2 * f.block - f.field - 1 - r);
    }
  }

  // The one or two blocks that the rest of the message and its padding make.
  lemma PaddedRest(f: Format, m: seq<Byte>)
    requires FormatOk(f)
    ensures var done := Full(|m|, f.block); var rest := m[done..]; var r := |rest| + 1;
      var whole := m + CodePadding(f, |m|); var order := ByteOrder((8 * |m|) % WORD, f.bigEndian);
      if r <= f.block - f.field then
        |whole| == done + f.block && whole[done..done + f.block] == (rest + [0x80]) + ZeroBytes(f.block - 8 - r) + order
      else
        |whole| == done + f.block + f.block
        && whole[done..done + f.block] == rest + [0x80] + ZeroBytes(f.block - r)
        && whole[done + f.block..done + f.block + f.block] == [] + ZeroBytes(f.block - 8) + order
  {
    hide ByteOrder;
    PaddingFits(f, |m|);
    var done := Full(|m|, f.block);
    var rest := m[done..];
    var r := |rest| + 1;
    var order := ByteOrder((8 * |m|) % WORD, f.bigEndian);
    var whole := m + CodePadding(f, |m|);
    TailOfSum(m, CodePadding(f, |m|), done);
    if r <= f.block - f.field {
      ZerosJoin(ZeroCount(f, |m|), f.field - 8);
      assert whole[done..] == (rest + [0x80]) + ZeroBytes(f.block - 8 - r) + order;
      assert whole[done..done + f.block] == whole[done..];
    } else {
      ZerosJoin(f.block - r, f.block - f.field);
      ZerosJoin(f.block - f.field, f.field - 8);
      var first := rest + [0x80] + ZeroBytes(f.block - r);
      var second := [] + ZeroBytes(f.block - 8) + order;
      assert whole[done..] == first + second;
      TwoBlocks(whole, first, second, done, f.block);
    }
  }

  lemma ZerosJoin(a: nat, b: nat)
    ensures ZeroBytes(a) + ZeroBytes(b) == ZeroBytes(a + b)
  {
  }

  lemma TwoBlocks(whole: seq<Byte>, first: seq<Byte>, second: seq<Byte>, done: nat, block: nat)
    requires done <= |whole| && whole[done..] == first + second && |first| == |second| == block
    ensures |whole| == done + block + block && whole[done..done + block] == first
      && whole[done + block..done + block + block] == second
  {
    assert whole[done..done + block] == whole[done..][..block];
    assert whole[done + block..done + block + block] == whole[done..][block..];
  }

  lemma TailOfSum(m: seq<Byte>, more: seq<Byte>, done: nat)
    requires done <= |m|
    ensures (m + more)[done..] == m[done..] + more
  {
  }

  lemma SliceOfSum(m: seq<Byte>, more: seq<Byte>, from: nat, to: nat)
    requires from <= to <= |more|
    ensures (m + more)[|m| + from..|m| + to] == more[from..to]
    ensures to == |more| ==> (m + more)[|m| + from..] == more[from..]
  {
  }

  lemma HoldsParts<H>(compress: (H, seq<Byte>) -> H, block: nat, init: H, h: H, buf: seq<Byte>, m: seq<Byte>)
    requires block > 0 && |buf| == block && Holds(compress, block, init, h, buf, m)
    ensures buf[..|m| % block] == m[Full(|m|, block)..]
  {
  }

  lemma HoldsStart<H>(compress: (H, seq<Byte>) -> H, block: nat, init: H, h: H, buf: seq<Byte>, m: seq<Byte>,
        whole: seq<Byte>)
    requires block > 0 && |buf| == block && Holds(compress, block, init, h, buf, m) && m <= whole
    ensures AtBlock(compress, block, init, h, whole, Full(|m|, block))
  {
    var k := Full(|m|, block);
    RoundDown(|m|, block);
    assert whole[..k] == m[..k];
  }

  lemma AtEnd<H>(compress: (H, seq<Byte>) -> H, block: nat, init: H, h: H, m: seq<Byte>)
    requires block > 0 && AtBlock(compress, block, init, h, m, |m|)
    ensures h == Blocks(compress, block, init, m)
  {
    assert m[..|m|] == m;
  }

  // ---------- arithmetic of lengths ----------

  lemma WrapKeepsRest(n: nat, block: nat)
    requires block == 64 || block == 128
    ensures (n % WORD) % block == n % block
  {
    Quotient(n, WORD);
    assert WORD % block == 0;
    MultipleTimes(n / WORD, WORD, block);
    MultipleSum(n / WORD * WORD, n % WORD, block);
  }

  lemma WrapSum(n: nat, k: nat)
    ensures (n % WORD + k) % WORD == (n + k) % WORD
  {
    RoundDown(n, WORD);
    MultipleSum(n - n % WORD, n % WORD + k, WORD);
  }

  lemma SmallRest(n: nat, k: nat, block: nat)
    requires block > 0 && n % block + k < block
    ensures (n + k) % block == n % block + k
  {
    Quotient(n, block);
    RemainderIs(n + k, block, n / block, n % block + k);
  }

  lemma RestOf(n: nat, done: nat, block: nat)
    requires block > 0 && done <= n < done + block && done % block == 0
    ensures n % block == n - done
  {
    MultipleSum(done, n - done, block);
    RemainderIs(n - done, block, 0, n - done);
  }

  // ---------- steps of an update ----------

  /** h stands for the first done bytes, whole blocks, of the message. */
  ghost predicate AtBlock<H>(compress: (H, seq<Byte>) -> H, block: nat, init: H, h: H, m: seq<Byte>, done: nat)
    requires block > 0
  {
    done <= |m| && done % block == 0 && h == Blocks(compress, block, init, m[..done])
  }

  lemma NextBlock<H>(compress: (H, seq<Byte>) -> H, block: nat, init: H, h: H, m: seq<Byte>, done: nat)
    requires block > 0 && done + block <= |m| && AtBlock(compress, block, init, h, m, done)
    ensures AtBlock(compress, block, init, compress(h, m[done..done + block]), m, done + block)
  {
    hide Blocks;
    var next := m[done..done + block];
    assert m[..done + block] == m[..done] + next;
    BlocksJoin(compress, block, init, m[..done], next);
    OneBlock(compress, block, h, next);
    MultipleSum(done, done + block, block);
    RemainderIs(block, block, 1, 0);
    MultipleSum(done, block, block);
  }

  lemma StillSame<H>(compress: (H, seq<Byte>) -> H, block: nat, init: H, h: H, was: seq<Byte>, now: seq<Byte>,
        m: seq<Byte>, more: seq<Byte>)
    requires block > 0 && |was| == block && Holds(compress, block, init, h, was, m)
    requires |m| % block + |more| < block
    requires now == was[..|m| % block] + more + was[|m| % block + |more|..]
    ensures Holds(compress, block, init, h, now, m + more)
  {
    hide Blocks;
    SmallRest(|m|, |more|, block);
    var k := Full(|m|, block);
    assert (m + more)[..k] == m[..k] && (m + more)[k..] == m[k..] + more;
  }

  lemma FirstBlock<H>(compress: (H, seq<Byte>) -> H, block: nat, init: H, h: H, was: seq<Byte>, now: seq<Byte>,
        m: seq<Byte>, more: seq<Byte>)
    requires block > 0 && |was| == block && Holds(compress, block, init, h, was, m)
    requires |m| % block + |more| >= block
    requires now == was[..|m| % block] + more[..block - |m| % block] + was[block..]
    ensures AtBlock(compress, block, init, compress(h, now), m + more, |m| + (block - |m| % block))
  {
    hide Blocks;
    var k := Full(|m|, block);
    var whole := m + more;
    RoundDown(|m|, block);
    assert whole[..k] == m[..k];
    assert whole[k..k + block] == m[k..] + more[..block - |m| % block] == now;
    NextBlock(compress, block, init, h, whole, k);
  }

  lemma NoRest<H>(compress: (H, seq<Byte>) -> H, block: nat, init: H, h: H, buf: seq<Byte>, m: seq<Byte>,
        more: seq<Byte>)
    requires block > 0 && |buf| == block && Holds(compress, block, init, h, buf, m) && |m| % block == 0
    ensures AtBlock(compress, block, init, h, m + more, |m|)
  {
    assert (m + more)[..|m|] == m == m[..|m|];
  }

  lemma RestBuffered<H>(compress: (H, seq<Byte>) -> H, block: nat, init: H, h: H, buf: seq<Byte>, m: seq<Byte>,
        done: nat)
    requires block > 0 && |buf| == block && AtBlock(compress, block, init, h, m, done) && |m| < done + block
    requires buf[..|m| - done] == m[done..]
    ensures Holds(compress, block, init, h, buf, m)
  {
    RestOf(|m|, done, block);
  }
}
