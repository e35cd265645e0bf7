/**
 Thread-local storage in dynlink.c, with the blocks below the thread pointer: where each module's
 block goes, how much memory a thread needs, and where __copy_tls puts everything in it.
 */
module Tls {
  import opened Words

  /** One module with a TLS image: the address of the image, and the block's size, alignment and place. */
  datatype Block = Block(image: nat, size: nat, align: nat, offset: nat)

  const WORD_BYTES := 8

  // ---------- one offset ----------

  /** Lines 688-691. */
  function PlaceOffset(tlsOffset: nat, size: nat, align: nat, image: nat): nat {
    var raised := Wrap(tlsOffset + size + align - 1);
    Wrap(raised - And(Wrap(raised + image), Wrap(align - 1)))
  }

  /** Lines 1089-1091, for the program itself. */
  function AppOffset(size: nat, align: nat, image: nat): nat {
    Wrap(size + And(Minus(Wrap(image + size)), Wrap(align - 1)))
  }

  /** What the arguments must satisfy: a power of two, and room left in the address space. */
  predicate Fits(tlsOffset: nat, size: nat, align: nat, image: nat) {
    PowerOfTwo(align) && align < WORD && tlsOffset + size + align - 1 < WORD && image < WORD
  }

  /** A block at this offset below an aligned pointer clears the previous one and is as aligned as its image. */
  predicate Suits(o: int, tlsOffset: nat, size: nat, align: nat, image: nat)
    requires align > 0
  {
    tlsOffset + size <= o && (o + image) % align == 0
  }

  lemma PlaceSuits(tlsOffset: nat, size: nat, align: nat, image: nat)
    requires Fits(tlsOffset, size, align, image)
    ensures align > 0 && Suits(PlaceOffset(tlsOffset, size, align, image), tlsOffset, size, align, image)
    ensures PlaceOffset(tlsOffset, size, align, image) < tlsOffset + size + align
  {
    hide And, PowerOfTwo, Wrap;
    PowerPositive(align);
    var raised := tlsOffset + size + align - 1;
    MaskOfWrapped(raised + image, align);
    RoundDown(raised + image, align);
  }

  /** No smaller offset will do. */
  lemma PlaceLeast(tlsOffset: nat, size: nat, align: nat, image: nat, o: int)
    requires Fits(tlsOffset, size, align, image) && align > 0 && Suits(o, tlsOffset, size, align, image)
    ensures PlaceOffset(tlsOffset, size, align, image) <= o
  {
    hide And, PowerOfTwo, Wrap, PlaceOffset;
    var p := PlaceOffset(tlsOffset, size, align, image);
    PlaceSuits(tlsOffset, size, align, image);
    if o < p {
      MultipleSum(o + image, p + image, align);
      SmallMultiple(p - o, align);
    }
  }

  lemma SmallMultiple(d: int, a: nat)
    requires a > 0 && d % a == 0 && 0 <= d < a
    ensures d == 0
  {
    RemainderIs(d, a, 0, d);
  }

  /** The formula for the program is the one for libraries at offset 0. */
  lemma AppIsPlace(size: nat, align: nat, image: nat)
    requires Fits(0, size, align, image)
    ensures AppOffset(size, align, image) == PlaceOffset(0, size, align, image)
  {
    hide And, PowerOfTwo, Wrap, PlaceOffset;
    PowerPositive(align);
    var p := PlaceOffset(0, size, align, image);
    PlaceSuits(0, size, align, image);
    NegatedMask(image + size, align);
    var pad := (-((image + size) as int)) % align;
    Complement(image + size, align);
    PlaceLeast(0, size, align, image, size + pad);
    if p < size + pad {
      MultipleSum(p + image, size + pad + image, align);
      SmallMultiple(size + pad - p, align);
    }
  }

  lemma NegatedMask(x: nat, a: nat)
    requires PowerOfTwo(a) && a < WORD
    ensures a > 0 && And(Minus(Wrap(x)), a - 1) == (-(x as int)) % a
  {
    hide And, PowerOfTwo, Wrap;
    PowerPositive(a);
    MaskOfWrapped(-(Wrap(x) as int), a);
    WordIsPower();
    PowersDivide(a, WORD);
    WrapResidue(x, a);
  }

  lemma WrapResidue(x: nat, a: nat)
    requires a > 0 && WORD % a == 0
    ensures (-(Wrap(x) as int)) % a == (-(x as int)) % a
  {
    Quotient(x, WORD);
    MultipleTimes(x / WORD, WORD, a);
    MultipleSum(x / WORD * WORD, -(Wrap(x) as int), a);
  }

  lemma Complement(x: nat, a: nat)
    requires a > 0
    ensures (x + (-(x as int)) % a) % a == 0
  {
    var y := -(x as int);
    RoundDown(y, a);
    MultipleSum(y - y % a, 0, a);
  }

  // ---------- all blocks ----------

  function OffsetBefore(blocks: seq<Block>, i: nat): nat
    requires i <= |blocks|
  {
    if i == 0 then 0 else blocks[i - 1].offset
  }

  predicate BlockOk(blocks: seq<Block>, i: nat, tlsAlign: nat)
    requires i < |blocks|
  {
    var b := blocks[i];
    PowerOfTwo(b.align) && b.align <= tlsAlign && b.image < WORD
    && b.align > 0 && Suits(b.offset, OffsetBefore(blocks, i), b.size, b.align, b.image)
  }

  /** tls_cnt, tls_offset and tls_align, and the modules with TLS in the order of the list. */
  class Layout {
    var blocks: seq<Block>
    var tlsCnt: nat
    var tlsOffset: nat
    var tlsAlign: nat
    var tlsSize: nat
    // sizeof(struct pthread)
    const threadSize: nat

    ghost predicate Valid()
      reads this
    {
      tlsCnt == |blocks| && tlsOffset == OffsetBefore(blocks, |blocks|)
      && PowerOfTwo(tlsAlign) && 0 < tlsAlign < WORD
      && forall i :: 0 <= i < |blocks| ==> BlockOk(blocks, i, tlsAlign)
    }

    constructor (threadSize: nat)
      ensures Valid() && blocks == [] && this.threadSize == threadSize
    {
      blocks, tlsCnt, tlsOffset, tlsAlign, tlsSize := [], 0, 0, 4 * WORD_BYTES, 0;
      this.threadSize := threadSize;
      new;
      WordIsPower();
    }

    /** Lines 1081-1094: the program's own block, before any library. */
    method AddApp(image: nat, size: nat, align: nat)
      requires Valid() && blocks == [] && Fits(0, size, align, image)
      modifies this
      ensures Valid()
      ensures blocks == if size > 0 then [Block(image, size, align, PlaceOffset(0, size, align, image))] else []
    {
      hide And, PowerOfTwo, Wrap, PlaceOffset, Suits;
      if size > 0 {
        PlaceSuits(0, size, align, image);
        AppIsPlace(size, align, image);
        MaxP2IsMax(tlsAlign, align);
        tlsCnt := 1;
        tlsOffset := AppOffset(size, align, image);
        blocks := [Block(image, size, align, tlsOffset)];
        tlsAlign := MaxP2(tlsAlign, align);
      }
    }

    /** Lines 681-691: a library with a TLS image. */
    method AddLibrary(image: nat, size: nat, align: nat)
      requires Valid() && Fits(tlsOffset, size, align, image)
      modifies this
      ensures Valid()
      ensures blocks == old(blocks) + [Block(image, size, align, PlaceOffset(old(tlsOffset), size, align, image))]
    {
      hide And, PowerOfTwo, Wrap, PlaceOffset, Suits;
      PlaceSuits(tlsOffset, size, align, image);
      MaxP2IsMax(tlsAlign, align);
      ghost var was, wasAlign := blocks, tlsAlign;
      tlsCnt := tlsCnt + 1;
      tlsAlign := MaxP2(tlsAlign, align);
      tlsOffset := PlaceOffset(tlsOffset, size, align, image);
      blocks := blocks + [Block(image, size, align, tlsOffset)];
      forall i | 0 <= i < |blocks|
        ensures BlockOk(blocks, i, tlsAlign)
      {
        if i < |was| { assert BlockOk(was, i, wasAlign); }
        assert OffsetBefore(blocks, i) == OffsetBefore(was, i);
      }
    }

    /** The bytes counted by update_tls_size before rounding. */
    function Needed(): nat
      reads this
    {
      (1 + tlsCnt) * WORD_BYTES + tlsOffset + threadSize + tlsAlign * 2
    }

    /** update_tls_size, lines 941-949. */
    method UpdateTlsSize()
      requires Valid() && Needed() + tlsAlign - 1 < WORD
      modifies this`tlsSize
      ensures Valid() && Needed() <= tlsSize < Needed() + tlsAlign
    {
      AlignRoundsUp(Needed(), tlsAlign);
      tlsSize := Align(Needed(), tlsAlign);
    }

    /**
     __copy_tls, lines 864-898, on memory of tlsSize bytes: the thread structure and the address
     of every block, which is dtv[tls_id] with tls_id one more than the block's index.
     */
    method CopyTls(mem: nat) returns (td: nat, dtv: array<nat>)
      requires Valid()
      requires Needed() <= tlsSize && mem + tlsSize < WORD
      ensures tlsCnt == 0 ==> td == mem && dtv.Length == 0
      ensures tlsCnt > 0 ==> dtv.Length == tlsCnt + 1 && dtv[0] == tlsCnt
      ensures tlsCnt > 0 ==> td % tlsAlign == 0 && td + threadSize <= mem + tlsSize
      ensures tlsCnt > 0 ==> mem + WORD_BYTES * (tlsCnt + 1) + tlsOffset <= td
      ensures forall i :: 0 <= i < |blocks| ==> blocks[i].offset <= td && dtv[i + 1] == td - blocks[i].offset
    {
      hide PowerOfTwo, Suits, And;
      if tlsCnt == 0 {
        dtv := new nat[0];
        return mem, dtv;
      }
      dtv := new nat[tlsCnt + 1];
      dtv[0] := tlsCnt;
      var m := mem + tlsSize - threadSize;
      MaskOfWrapped(m, tlsAlign);
      RoundDown(m, tlsAlign);
      td := m - And(m, tlsAlign - 1);
      OffsetsRise(blocks, tlsAlign);
      for i := 0 to |blocks|
        invariant dtv[0] == tlsCnt
        invariant forall j :: 0 <= j < i ==> dtv[j + 1] == td - blocks[j].offset
      {
        dtv[i + 1] := td - blocks[i].offset;
      }
    }
  }

  /** Offsets never go down, and the last is the largest. */
  lemma {:induction false} OffsetsRiseTo(blocks: seq<Block>, tlsAlign: nat, i: nat, j: nat)
    requires forall k :: 0 <= k < |blocks| ==> BlockOk(blocks, k, tlsAlign)
    requires i < j < |blocks|
    ensures blocks[i].offset + blocks[j].size <= blocks[j].offset
    decreases j
  {
    assert BlockOk(blocks, j, tlsAlign);
    if i < j - 1 {
      OffsetsRiseTo(blocks, tlsAlign, i, j - 1);
    }
  }

  lemma OffsetsRise(blocks: seq<Block>, tlsAlign: nat)
    requires forall k :: 0 <= k < |blocks| ==> BlockOk(blocks, k, tlsAlign)
    ensures forall i :: 0 <= i < |blocks| ==> blocks[i].size <= blocks[i].offset <= OffsetBefore(blocks, |blocks|)
  {
    forall i | 0 <= i < |blocks|
      ensures blocks[i].size <= blocks[i].offset <= OffsetBefore(blocks, |blocks|)
    {
      assert BlockOk(blocks, i, tlsAlign);
      if i < |blocks| - 1 { OffsetsRiseTo(blocks, tlsAlign, i, |blocks| - 1); }
    }
  }

  /** Block i occupies size bytes from here. */
  function Address(td: nat, b: Block): int {
    td - b.offset
  }

  /** Two blocks of one thread never share a byte, and every block ends before the thread structure. */
  lemma BlocksDisjoint(blocks: seq<Block>, tlsAlign: nat, td: nat, i: nat, j: nat)
    requires forall k :: 0 <= k < |blocks| ==> BlockOk(blocks, k, tlsAlign)
    requires i < j < |blocks|
    ensures Address(td, blocks[j]) + blocks[j].size <= Address(td, blocks[i])
    ensures Address(td, blocks[i]) + blocks[i].size <= td
  {
    OffsetsRiseTo(blocks, tlsAlign, i, j);
    OffsetsRise(blocks, tlsAlign);
  }

  /** Every block starts at an address congruent to its image's address modulo its alignment. */
  lemma BlockCongruent(blocks: seq<Block>, tlsAlign: nat, td: nat, i: nat)
    requires PowerOfTwo(tlsAlign) && tlsAlign > 0 && td % tlsAlign == 0
    requires i < |blocks| && BlockOk(blocks, i, tlsAlign)
    ensures Address(td, blocks[i]) % blocks[i].align == blocks[i].image % blocks[i].align
  {
    hide PowerOfTwo;
    var b := blocks[i];
    PowersDivide(b.align, tlsAlign);
    MultipleOfMultiple(td, b.align, tlsAlign);
    MultipleSum(b.offset + b.image, b.image, b.align);
    MultipleSum(td, b.image - (b.offset + b.image), b.align);
  }

  // ---------- the other layout ----------

  /** Lines 684-686, blocks above the thread pointer: the offset of a block. */
  function AboveOffset(tlsOffset: nat, tlsAlign: nat, image: nat): nat {
    tlsOffset + Padding(tlsOffset, tlsAlign, image)
  }

  function Padding(tlsOffset: nat, tlsAlign: nat, image: nat): nat {
    And(Wrap(tlsAlign - 1), Minus(Wrap(tlsOffset + image)))
  }

  /** Two stretches of memory share no byte. */
  predicate Apart(start: nat, size: nat, start': nat, size': nat) {
    start + size <= start' || start' + size' <= start
  }

  function Total(sizes: seq<nat>): nat {
    if sizes == [] then 0 else Total(sizes[..|sizes| - 1]) + sizes[|sizes| - 1]
  }

  /** Line 686 advances tls_offset by the size of each module in turn, without its padding. */
  function AboveTlsOffset(start: nat, sizes: seq<nat>): nat {
    start + Total(sizes)
  }

  /**
   A module of the given size, modules of the sizes between, and one more: the blocks of the
   first and the last are disjoint exactly when the padding of the last makes up for that of
   the first, or the padding of the first exceeds all that follows up to the end of the last.
   */
  lemma AboveDisjointIff(tlsOffset: nat, tlsAlign: nat, image: nat, size: nat, between: seq<nat>,
                         tlsAlign': nat, image': nat, size': nat)
    ensures var tlsOffset' := AboveTlsOffset(tlsOffset, [size] + between);
      var (pad, pad') := (Padding(tlsOffset, tlsAlign, image), Padding(tlsOffset', tlsAlign', image'));
      Apart(AboveOffset(tlsOffset, tlsAlign, image), size, AboveOffset(tlsOffset', tlsAlign', image'), size')
      <==> pad <= Total(between) + pad' || size + Total(between) + pad' + size' <= pad
  {
    TotalCons(size, between);
  }

  lemma {:induction false} TotalCons(d: nat, sizes: seq<nat>)
    ensures Total([d] + sizes) == d + Total(sizes)
    decreases |sizes|
  {
    if sizes == [] {
      assert [d] + sizes == [d] && [d][..0] == [];
    } else {
      assert ([d] + sizes)[..|sizes|] == [d] + sizes[..|sizes| - 1];
      TotalCons(d, sizes[..|sizes| - 1]);
    }
  }

  /** Two images of 32 bytes at addresses 8 and 32, aligned to 64: bytes 56 to 88 and 32 to 64. */
  lemma AboveOverlaps()
    ensures AboveOffset(0, 64, 8) == 56 && AboveOffset(0 + 32, 64, 32) == 32
    ensures !Apart(AboveOffset(0, 64, 8), 32, AboveOffset(0 + 32, 64, 32), 32)
  {
    hide And;
    assert PowerOfTwo(16);
    AndCommutes(63, Minus(8));
    AndCommutes(63, Minus(64));
    NegatedMask(8, 64);
    NegatedMask(64, 64);
  }
}
