/**
 What the tables of DesTables mean: every row only spreads the bits of its index, so each is
 written here as shifts and masks, and shown to agree with the table on every index.
 */
module DesRows {
  import opened DesTables

  /** The word with a in it when bit 0 of v is set, b when bit 1 is, and so on. */
  function Spread(v: bv32, a: bv32, b: bv32, c: bv32, d: bv32): bv32 {
    (if v & 1 != 0 then a else 0) | (if v & 2 != 0 then b else 0)
    | (if v & 4 != 0 then c else 0) | (if v & 8 != 0 then d else 0)
  }

  lemma SpreadIs(v: bv32, a: bv32, b: bv32, c: bv32, d: bv32)
    requires v <= 15
    ensures Spread(v, a, b, c, d) ==
      Pick(v, 0, a, b, a | b, c, a | c, b | c, a | b | c, d, a | d, b | d, a | b | d, c | d, a | c | d, b | c | d,
        a | b | c | d)
  {
    if v == 0 {
    } else if v == 1 {
    } else if v == 2 {
    } else if v == 3 {
    } else if v == 4 {
    } else if v == 5 {
    } else if v == 6 {
    } else if v == 7 {
    } else if v == 8 {
    } else if v == 9 {
    } else if v == 10 {
    } else if v == 11 {
    } else if v == 12 {
    } else if v == 13 {
    } else if v == 14 {
    } else {
    }
  }

  function Spread8(v: bv32, a: bv32, b: bv32, c: bv32): bv32 {
    (if v & 1 != 0 then a else 0) | (if v & 2 != 0 then b else 0) | (if v & 4 != 0 then c else 0)
  }

  lemma Spread8Is(v: bv32, a: bv32, b: bv32, c: bv32)
    requires v <= 7
    ensures Spread8(v, a, b, c) == Pick8(v, 0, a, b, a | b, c, a | c, b | c, a | b | c)
  {
    if v == 0 {
    } else if v == 1 {
    } else if v == 2 {
    } else if v == 3 {
    } else if v == 4 {
    } else if v == 5 {
    } else if v == 6 {
    } else {
    }
  }

  function IpRowL(i: nat, v: bv32): bv32
    requires i < 16
  {
    match i
    case 0 => ((v & 1) << 16) | ((v & 4) << 22)
    case 1 => (v & 1) | ((v & 4) << 6)
    case 2 => ((v & 1) << 17) | ((v & 4) << 23)
    case 3 => ((v & 1) << 1) | ((v & 4) << 7)
    case 4 => ((v & 1) << 18) | ((v & 4) << 24)
    case 5 => ((v & 1) << 2) | ((v & 4) << 8)
    case 6 => ((v & 1) << 19) | ((v & 4) << 25)
    case 7 => ((v & 1) << 3) | ((v & 4) << 9)
    case 8 => ((v & 1) << 20) | ((v & 4) << 26)
    case 9 => ((v & 1) << 4) | ((v & 4) << 10)
    case 10 => ((v & 1) << 21) | ((v & 4) << 27)
    case 11 => ((v & 1) << 5) | ((v & 4) << 11)
    case 12 => ((v & 1) << 22) | ((v & 4) << 28)
    case 13 => ((v & 1) << 6) | ((v & 4) << 12)
    case 14 => ((v & 1) << 23) | ((v & 4) << 29)
    case _ => ((v & 1) << 7) | ((v & 4) << 13)
  }

  lemma IpRowLA(i: nat, v: bv32)
    requires 0 <= i < 4 && v <= 15
    ensures IpMaskL(i, v) == IpRowL(i, v)
  {
    hide Pick;
    match i {
      case 0 => SpreadIs(v, 0x00010000, 0, 0x01000000, 0);
      case 1 => SpreadIs(v, 0x00000001, 0, 0x00000100, 0);
      case 2 => SpreadIs(v, 0x00020000, 0, 0x02000000, 0);
      case _ => SpreadIs(v, 0x00000002, 0, 0x00000200, 0);
    }
  }

  lemma IpRowLB(i: nat, v: bv32)
    requires 4 <= i < 8 && v <= 15
    ensures IpMaskL(i, v) == IpRowL(i, v)
  {
    hide Pick;
    match i {
      case 4 => SpreadIs(v, 0x00040000, 0, 0x04000000, 0);
      case 5 => SpreadIs(v, 0x00000004, 0, 0x00000400, 0);
      case 6 => SpreadIs(v, 0x00080000, 0, 0x08000000, 0);
      case _ => SpreadIs(v, 0x00000008, 0, 0x00000800, 0);
    }
  }

  lemma IpRowLC(i: nat, v: bv32)
    requires 8 <= i < 12 && v <= 15
    ensures IpMaskL(i, v) == IpRowL(i, v)
  {
    hide Pick;
    match i {
      case 8 => SpreadIs(v, 0x00100000, 0, 0x10000000, 0);
      case 9 => SpreadIs(v, 0x00000010, 0, 0x00001000, 0);
      case 10 => SpreadIs(v, 0x00200000, 0, 0x20000000, 0);
      case _ => SpreadIs(v, 0x00000020, 0, 0x00002000, 0);
    }
  }

  lemma IpRowLD(i: nat, v: bv32)
    requires 12 <= i < 16 && v <= 15
    ensures IpMaskL(i, v) == IpRowL(i, v)
  {
    hide Pick;
    match i {
      case 12 => SpreadIs(v, 0x00400000, 0, 0x40000000, 0);
      case 13 => SpreadIs(v, 0x00000040, 0, 0x00004000, 0);
      case 14 => SpreadIs(v, 0x00800000, 0, 0x80000000, 0);
      case _ => SpreadIs(v, 0x00000080, 0, 0x00008000, 0);
    }
  }

  lemma IpRowLTable(i: nat, v: bv32)
    requires i < 16 && v <= 15
    ensures IpMaskL(i, v) == IpRowL(i, v)
  {
    hide IpMaskL, IpRowL;
    if i < 4 {
      IpRowLA(i, v);
    } else if i < 8 {
      IpRowLB(i, v);
    } else if i < 12 {
      IpRowLC(i, v);
    } else {
      IpRowLD(i, v);
    }
  }

  function IpRowR(i: nat, v: bv32): bv32
    requires i < 16
  {
    match i
    case 0 => ((v & 2) << 15) | ((v & 8) << 21)
    case 1 => ((v & 2) >> 1) | ((v & 8) << 5)
    case 2 => ((v & 2) << 16) | ((v & 8) << 22)
    case 3 => (v & 2) | ((v & 8) << 6)
    case 4 => ((v & 2) << 17) | ((v & 8) << 23)
    case 5 => ((v & 2) << 1) | ((v & 8) << 7)
    case 6 => ((v & 2) << 18) | ((v & 8) << 24)
    case 7 => ((v & 2) << 2) | ((v & 8) << 8)
    case 8 => ((v & 2) << 19) | ((v & 8) << 25)
    case 9 => ((v & 2) << 3) | ((v & 8) << 9)
    case 10 => ((v & 2) << 20) | ((v & 8) << 26)
    case 11 => ((v & 2) << 4) | ((v & 8) << 10)
    case 12 => ((v & 2) << 21) | ((v & 8) << 27)
    case 13 => ((v & 2) << 5) | ((v & 8) << 11)
    case 14 => ((v & 2) << 22) | ((v & 8) << 28)
    case _ => ((v & 2) << 6) | ((v & 8) << 12)
  }

  lemma IpRowRA(i: nat, v: bv32)
    requires 0 <= i < 4 && v <= 15
    ensures IpMaskR(i, v) == IpRowR(i, v)
  {
    hide Pick;
    match i {
      case 0 => SpreadIs(v, 0, 0x00010000, 0, 0x01000000);
      case 1 => SpreadIs(v, 0, 0x00000001, 0, 0x00000100);
      case 2 => SpreadIs(v, 0, 0x00020000, 0, 0x02000000);
      case _ => SpreadIs(v, 0, 0x00000002, 0, 0x00000200);
    }
  }

  lemma IpRowRB(i: nat, v: bv32)
    requires 4 <= i < 8 && v <= 15
    ensures IpMaskR(i, v) == IpRowR(i, v)
  {
    hide Pick;
    match i {
      case 4 => SpreadIs(v, 0, 0x00040000, 0, 0x04000000);
      case 5 => SpreadIs(v, 0, 0x00000004, 0, 0x00000400);
      case 6 => SpreadIs(v, 0, 0x00080000, 0, 0x08000000);
      case _ => SpreadIs(v, 0, 0x00000008, 0, 0x00000800);
    }
  }

  lemma IpRowRC(i: nat, v: bv32)
    requires 8 <= i < 12 && v <= 15
    ensures IpMaskR(i, v) == IpRowR(i, v)
  {
    hide Pick;
    match i {
      case 8 => SpreadIs(v, 0, 0x00100000, 0, 0x10000000);
      case 9 => SpreadIs(v, 0, 0x00000010, 0, 0x00001000);
      case 10 => SpreadIs(v, 0, 0x00200000, 0, 0x20000000);
      case _ => SpreadIs(v, 0, 0x00000020, 0, 0x00002000);
    }
  }

  lemma IpRowRD(i: nat, v: bv32)
    requires 12 <= i < 16 && v <= 15
    ensures IpMaskR(i, v) == IpRowR(i, v)
  {
    hide Pick;
    match i {
      case 12 => SpreadIs(v, 0, 0x00400000, 0, 0x40000000);
      case 13 => SpreadIs(v, 0, 0x00000040, 0, 0x00004000);
      case 14 => SpreadIs(v, 0, 0x00800000, 0, 0x80000000);
      case _ => SpreadIs(v, 0, 0x00000080, 0, 0x00008000);
    }
  }

  lemma IpRowRTable(i: nat, v: bv32)
    requires i < 16 && v <= 15
    ensures IpMaskR(i, v) == IpRowR(i, v)
  {
    hide IpMaskR, IpRowR;
    if i < 4 {
      IpRowRA(i, v);
    } else if i < 8 {
      IpRowRB(i, v);
    } else if i < 12 {
      IpRowRC(i, v);
    } else {
      IpRowRD(i, v);
    }
  }

  function FpRowL(i: nat, v: bv32): bv32
    requires i < 8
  {
    match i
    case 0 => ((v & 1) << 30) | ((v & 2) << 21) | ((v & 4) << 12) | ((v & 8) << 3)
    case 1 => ((v & 1) << 28) | ((v & 2) << 19) | ((v & 4) << 10) | ((v & 8) << 1)
    case 2 => ((v & 1) << 26) | ((v & 2) << 17) | ((v & 4) << 8) | ((v & 8) >> 1)
    case 3 => ((v & 1) << 24) | ((v & 2) << 15) | ((v & 4) << 6) | ((v & 8) >> 3)
    case 4 => ((v & 1) << 31) | ((v & 2) << 22) | ((v & 4) << 13) | ((v & 8) << 4)
    case 5 => ((v & 1) << 29) | ((v & 2) << 20) | ((v & 4) << 11) | ((v & 8) << 2)
    case 6 => ((v & 1) << 27) | ((v & 2) << 18) | ((v & 4) << 9) | (v & 8)
    case _ => ((v & 1) << 25) | ((v & 2) << 16) | ((v & 4) << 7) | ((v & 8) >> 2)
  }

  lemma FpRowLA(i: nat, v: bv32)
    requires 0 <= i < 4 && v <= 15
    ensures FpMaskL(i, v) == FpRowL(i, v)
  {
    hide Pick;
    match i {
      case 0 => SpreadIs(v, 0x40000000, 0x00400000, 0x00004000, 0x00000040);
      case 1 => SpreadIs(v, 0x10000000, 0x00100000, 0x00001000, 0x00000010);
      case 2 => SpreadIs(v, 0x04000000, 0x00040000, 0x00000400, 0x00000004);
      case _ => SpreadIs(v, 0x01000000, 0x00010000, 0x00000100, 0x00000001);
    }
  }

  lemma FpRowLB(i: nat, v: bv32)
    requires 4 <= i < 8 && v <= 15
    ensures FpMaskL(i, v) == FpRowL(i, v)
  {
    hide Pick;
    match i {
      case 4 => SpreadIs(v, 0x80000000, 0x00800000, 0x00008000, 0x00000080);
      case 5 => SpreadIs(v, 0x20000000, 0x00200000, 0x00002000, 0x00000020);
      case 6 => SpreadIs(v, 0x08000000, 0x00080000, 0x00000800, 0x00000008);
      case _ => SpreadIs(v, 0x02000000, 0x00020000, 0x00000200, 0x00000002);
    }
  }

  lemma FpRowLTable(i: nat, v: bv32)
    requires i < 8 && v <= 15
    ensures FpMaskL(i, v) == FpRowL(i, v)
  {
    hide FpMaskL, FpRowL;
    if i < 4 {
      FpRowLA(i, v);
    } else {
      FpRowLB(i, v);
    }
  }

  function FpRowR(i: nat, v: bv32): bv32
    requires i < 8
  {
    match i
    case 0 => ((v & 1) << 30) | ((v & 2) << 21) | ((v & 4) << 12) | ((v & 8) << 3)
    case 1 => ((v & 1) << 28) | ((v & 2) << 19) | ((v & 4) << 10) | ((v & 8) << 1)
    case 2 => ((v & 1) << 26) | ((v & 2) << 17) | ((v & 4) << 8) | ((v & 8) >> 1)
    case 3 => ((v & 1) << 24) | ((v & 2) << 15) | ((v & 4) << 6) | ((v & 8) >> 3)
    case 4 => ((v & 1) << 31) | ((v & 2) << 22) | ((v & 4) << 13) | ((v & 8) << 4)
    case 5 => ((v & 1) << 29) | ((v & 2) << 20) | ((v & 4) << 11) | ((v & 8) << 2)
    case 6 => ((v & 1) << 27) | ((v & 2) << 18) | ((v & 4) << 9) | (v & 8)
    case _ => ((v & 1) << 25) | ((v & 2) << 16) | ((v & 4) << 7) | ((v & 8) >> 2)
  }

  lemma FpRowRA(i: nat, v: bv32)
    requires 0 <= i < 4 && v <= 15
    ensures FpMaskR(i, v) == FpRowR(i, v)
  {
    hide Pick;
    match i {
      case 0 => SpreadIs(v, 0x40000000, 0x00400000, 0x00004000, 0x00000040);
      case 1 => SpreadIs(v, 0x10000000, 0x00100000, 0x00001000, 0x00000010);
      case 2 => SpreadIs(v, 0x04000000, 0x00040000, 0x00000400, 0x00000004);
      case _ => SpreadIs(v, 0x01000000, 0x00010000, 0x00000100, 0x00000001);
    }
  }

  lemma FpRowRB(i: nat, v: bv32)
    requires 4 <= i < 8 && v <= 15
    ensures FpMaskR(i, v) == FpRowR(i, v)
  {
    hide Pick;
    match i {
      case 4 => SpreadIs(v, 0x80000000, 0x00800000, 0x00008000, 0x00000080);
      case 5 => SpreadIs(v, 0x20000000, 0x00200000, 0x00002000, 0x00000020);
      case 6 => SpreadIs(v, 0x08000000, 0x00080000, 0x00000800, 0x00000008);
      case _ => SpreadIs(v, 0x02000000, 0x00020000, 0x00000200, 0x00000002);
    }
  }

  lemma FpRowRTable(i: nat, v: bv32)
    requires i < 8 && v <= 15
    ensures FpMaskR(i, v) == FpRowR(i, v)
  {
    hide FpMaskR, FpRowR;
    if i < 4 {
      FpRowRA(i, v);
    } else {
      FpRowRB(i, v);
    }
  }

  function KeyRowL(i: nat, v: bv32): bv32
    requires i < 8
  {
    match i
    case 0 => ((v & 2) << 3) | ((v & 4) << 10) | ((v & 8) << 17)
    case 1 => ((v & 2) << 4) | ((v & 4) << 11) | ((v & 8) << 18)
    case 2 => ((v & 2) << 5) | ((v & 4) << 12) | ((v & 8) << 19)
    case 3 => ((v & 2) << 6) | ((v & 4) << 13) | ((v & 8) << 20)
    case 4 => (v & 1) | ((v & 2) << 7) | ((v & 4) << 14) | ((v & 8) << 21)
    case 5 => ((v & 1) << 1) | ((v & 2) << 8) | ((v & 4) << 15) | ((v & 8) << 22)
    case 6 => ((v & 1) << 2) | ((v & 2) << 9) | ((v & 4) << 16) | ((v & 8) << 23)
    case _ => ((v & 1) << 3) | ((v & 2) << 10) | ((v & 4) << 17) | ((v & 8) << 24)
  }

  lemma KeyRowLA(i: nat, v: bv32)
    requires 0 <= i < 4 && v <= 15
    ensures KeyPermMaskL(i, v) == KeyRowL(i, v)
  {
    hide Pick;
    match i {
      case 0 => SpreadIs(v, 0, 0x00000010, 0x00001000, 0x00100000);
      case 1 => SpreadIs(v, 0, 0x00000020, 0x00002000, 0x00200000);
      case 2 => SpreadIs(v, 0, 0x00000040, 0x00004000, 0x00400000);
      case _ => SpreadIs(v, 0, 0x00000080, 0x00008000, 0x00800000);
    }
  }

  lemma KeyRowLB(i: nat, v: bv32)
    requires 4 <= i < 8 && v <= 15
    ensures KeyPermMaskL(i, v) == KeyRowL(i, v)
  {
    hide Pick;
    match i {
      case 4 => SpreadIs(v, 0x00000001, 0x00000100, 0x00010000, 0x01000000);
      case 5 => SpreadIs(v, 0x00000002, 0x00000200, 0x00020000, 0x02000000);
      case 6 => SpreadIs(v, 0x00000004, 0x00000400, 0x00040000, 0x04000000);
      case _ => SpreadIs(v, 0x00000008, 0x00000800, 0x00080000, 0x08000000);
    }
  }

  lemma KeyRowLTable(i: nat, v: bv32)
    requires i < 8 && v <= 15
    ensures KeyPermMaskL(i, v) == KeyRowL(i, v)
  {
    hide KeyPermMaskL, KeyRowL;
    if i < 4 {
      KeyRowLA(i, v);
    } else {
      KeyRowLB(i, v);
    }
  }

  function KeyRowR(i: nat, v: bv32): bv32
    requires i < 12
  {
    match i
    case 0 => (v & 1)
    case 1 => ((v & 2) << 19) | ((v & 4) << 10) | ((v & 8) << 1)
    case 2 => ((v & 1) << 1)
    case 3 => ((v & 2) << 20) | ((v & 4) << 11) | ((v & 8) << 2)
    case 4 => ((v & 1) << 2)
    case 5 => ((v & 2) << 21) | ((v & 4) << 12) | ((v & 8) << 3)
    case 6 => ((v & 1) << 3)
    case 7 => ((v & 2) << 22) | ((v & 4) << 13) | ((v & 8) << 4)
    case 8 => ((v & 2) << 23) | ((v & 4) << 14) | ((v & 8) << 5)
    case 9 => ((v & 2) << 24) | ((v & 4) << 15) | ((v & 8) << 6)
    case 10 => ((v & 2) << 25) | ((v & 4) << 16) | ((v & 8) << 7)
    case _ => ((v & 2) << 26) | ((v & 4) << 17) | ((v & 8) << 8)
  }

  lemma KeyRowRA(i: nat, v: bv32)
    requires 0 <= i < 4 && v <= 15
    ensures KeyPermMaskR(i, v) == KeyRowR(i, v)
  {
    hide Pick;
    match i {
      case 0 => SpreadIs(v, 0x00000001, 0, 0, 0);
      case 1 => SpreadIs(v, 0, 0x00100000, 0x00001000, 0x00000010);
      case 2 => SpreadIs(v, 0x00000002, 0, 0, 0);
      case _ => SpreadIs(v, 0, 0x00200000, 0x00002000, 0x00000020);
    }
  }

  lemma KeyRowRB(i: nat, v: bv32)
    requires 4 <= i < 8 && v <= 15
    ensures KeyPermMaskR(i, v) == KeyRowR(i, v)
  {
    hide Pick;
    match i {
      case 4 => SpreadIs(v, 0x00000004, 0, 0, 0);
      case 5 => SpreadIs(v, 0, 0x00400000, 0x00004000, 0x00000040);
      case 6 => SpreadIs(v, 0x00000008, 0, 0, 0);
      case _ => SpreadIs(v, 0, 0x00800000, 0x00008000, 0x00000080);
    }
  }

  lemma KeyRowRC(i: nat, v: bv32)
    requires 8 <= i < 12 && v <= 15
    ensures KeyPermMaskR(i, v) == KeyRowR(i, v)
  {
    hide Pick;
    match i {
      case 8 => SpreadIs(v, 0, 0x01000000, 0x00010000, 0x00000100);
      case 9 => SpreadIs(v, 0, 0x02000000, 0x00020000, 0x00000200);
      case 10 => SpreadIs(v, 0, 0x04000000, 0x00040000, 0x00000400);
      case _ => SpreadIs(v, 0, 0x08000000, 0x00080000, 0x00000800);
    }
  }

  lemma KeyRowRTable(i: nat, v: bv32)
    requires i < 12 && v <= 15
    ensures KeyPermMaskR(i, v) == KeyRowR(i, v)
  {
    hide KeyPermMaskR, KeyRowR;
    if i < 4 {
      KeyRowRA(i, v);
    } else if i < 8 {
      KeyRowRB(i, v);
    } else {
      KeyRowRC(i, v);
    }
  }

  function CompRowL0(i: nat, v: bv32): bv32
    requires i < 4
  {
    match i
    case 0 => ((v & 1) << 17) | ((v & 2) >> 1) | ((v & 4) << 17)
    case 1 => ((v & 1) << 12) | ((v & 4) << 4)
    case 2 => ((v & 1) << 22) | ((v & 2) << 4) | ((v & 4) << 13)
    case _ => ((v & 1) << 20) | ((v & 2) << 10)
  }

  lemma CompRowL0Table(i: nat, v: bv32)
    requires i < 4 && v <= 7
    ensures CompMaskL0(i, v) == CompRowL0(i, v)
  {
    hide Pick8;
    match i {
      case 0 => Spread8Is(v, 0x00020000, 0x00000001, 0x00080000);
      case 1 => Spread8Is(v, 0x00001000, 0, 0x00000040);
      case 2 => Spread8Is(v, 0x00400000, 0x00000020, 0x00008000);
      case _ => Spread8Is(v, 0x00100000, 0x00000800, 0);
    }
  }

  function CompRowR0(i: nat, v: bv32): bv32
    requires i < 4
  {
    match i
    case 0 => ((v & 1) << 21) | ((v & 2) << 16) | ((v & 4) >> 1)
    case 1 => ((v & 2) << 19) | (v & 4)
    case 2 => ((v & 1) << 14) | ((v & 2) << 10)
    case _ => ((v & 1) << 22) | ((v & 2) << 14) | ((v & 4) << 1)
  }

  lemma CompRowR0Table(i: nat, v: bv32)
    requires i < 4 && v <= 7
    ensures CompMaskR0(i, v) == CompRowR0(i, v)
  {
    hide Pick8;
    match i {
      case 0 => Spread8Is(v, 0x00200000, 0x00020000, 0x00000002);
      case 1 => Spread8Is(v, 0, 0x00100000, 0x00000004);
      case 2 => Spread8Is(v, 0x00004000, 0x00000800, 0);
      case _ => Spread8Is(v, 0x00400000, 0x00008000, 0x00000008);
    }
  }

  function CompRowL1(i: nat, v: bv32): bv32
    requires i < 4
  {
    match i
    case 0 => ((v & 1) << 4) | ((v & 2) << 13) | ((v & 4) << 16) | ((v & 8) << 5)
    case 1 => ((v & 1) << 23) | (v & 2) | ((v & 4) << 7) | ((v & 8) << 18)
    case 2 => ((v & 1) << 13) | ((v & 2) << 1) | ((v & 4) << 8)
    case _ => ((v & 1) << 16) | ((v & 2) << 2) | ((v & 4) << 5)
  }

  lemma CompRowL1Table(i: nat, v: bv32)
    requires i < 4 && v <= 15
    ensures CompMaskL1(i, v) == CompRowL1(i, v)
  {
    hide Pick;
    match i {
      case 0 => SpreadIs(v, 0x00000010, 0x00004000, 0x00040000, 0x00000100);
      case 1 => SpreadIs(v, 0x00800000, 0x00000002, 0x00000200, 0x00200000);
      case 2 => SpreadIs(v, 0x00002000, 0x00000004, 0x00000400, 0);
      case _ => SpreadIs(v, 0x00010000, 0x00000008, 0x00000080, 0);
    }
  }

  function CompRowR1(i: nat, v: bv32): bv32
    requires i < 4
  {
    match i
    case 0 => ((v & 2) << 6) | ((v & 4) << 11) | ((v & 8) >> 3)
    case 1 => ((v & 1) << 4) | ((v & 2) << 22) | ((v & 4) << 14) | ((v & 8) << 6)
    case 2 => ((v & 1) << 10) | ((v & 2) << 11) | ((v & 4) << 17) | ((v & 8) << 2)
    case _ => ((v & 1) << 8) | ((v & 2) << 17) | ((v & 8) << 3)
  }

  lemma CompRowR1Table(i: nat, v: bv32)
    requires i < 4 && v <= 15
    ensures CompMaskR1(i, v) == CompRowR1(i, v)
  {
    hide Pick;
    match i {
      case 0 => SpreadIs(v, 0, 0x00000080, 0x00002000, 0x00000001);
      case 1 => SpreadIs(v, 0x00000010, 0x00800000, 0x00010000, 0x00000200);
      case 2 => SpreadIs(v, 0x00000400, 0x00001000, 0x00080000, 0x00000020);
      case _ => SpreadIs(v, 0x00000100, 0x00040000, 0, 0x00000040);
    }
  }
}
