/**
 The constant tables of crypt_des.c.  A row of sixteen entries is indexed by a nibble, a row
 of eight by three bits, a row of sixty-four by six; Pick and Pick8 are the lookup.
 */
module DesTables {

  function Pick(v: bv32, t0: bv32, t1: bv32, t2: bv32, t3: bv32, t4: bv32, t5: bv32, t6: bv32, t7: bv32,
      t8: bv32, t9: bv32, t10: bv32, t11: bv32, t12: bv32, t13: bv32, t14: bv32, t15: bv32): bv32 {
    if v == 0 then t0 else if v == 1 then t1 else if v == 2 then t2 else if v == 3 then t3
    else if v == 4 then t4 else if v == 5 then t5 else if v == 6 then t6 else if v == 7 then t7
    else if v == 8 then t8 else if v == 9 then t9 else if v == 10 then t10 else if v == 11 then t11
    else if v == 12 then t12 else if v == 13 then t13 else if v == 14 then t14 else t15
  }

  function Pick8(v: bv32, t0: bv32, t1: bv32, t2: bv32, t3: bv32, t4: bv32, t5: bv32, t6: bv32, t7: bv32): bv32 {
    if v == 0 then t0 else if v == 1 then t1 else if v == 2 then t2 else if v == 3 then t3
    else if v == 4 then t4 else if v == 5 then t5 else if v == 6 then t6 else t7
  }

  function IpMaskL(i: nat, v: bv32): bv32
    requires i < 16
  {
    match i
    case 0 => Pick(v,
      0x00000000, 0x00010000, 0x00000000, 0x00010000, 0x01000000, 0x01010000, 0x01000000, 0x01010000,
      0x00000000, 0x00010000, 0x00000000, 0x00010000, 0x01000000, 0x01010000, 0x01000000, 0x01010000)
    case 1 => Pick(v,
      0x00000000, 0x00000001, 0x00000000, 0x00000001, 0x00000100, 0x00000101, 0x00000100, 0x00000101,
      0x00000000, 0x00000001, 0x00000000, 0x00000001, 0x00000100, 0x00000101, 0x00000100, 0x00000101)
    case 2 => Pick(v,
      0x00000000, 0x00020000, 0x00000000, 0x00020000, 0x02000000, 0x02020000, 0x02000000, 0x02020000,
      0x00000000, 0x00020000, 0x00000000, 0x00020000, 0x02000000, 0x02020000, 0x02000000, 0x02020000)
    case 3 => Pick(v,
      0x00000000, 0x00000002, 0x00000000, 0x00000002, 0x00000200, 0x00000202, 0x00000200, 0x00000202,
      0x00000000, 0x00000002, 0x00000000, 0x00000002, 0x00000200, 0x00000202, 0x00000200, 0x00000202)
    case 4 => Pick(v,
      0x00000000, 0x00040000, 0x00000000, 0x00040000, 0x04000000, 0x04040000, 0x04000000, 0x04040000,
      0x00000000, 0x00040000, 0x00000000, 0x00040000, 0x04000000, 0x04040000, 0x04000000, 0x04040000)
    case 5 => Pick(v,
      0x00000000, 0x00000004, 0x00000000, 0x00000004, 0x00000400, 0x00000404, 0x00000400, 0x00000404,
      0x00000000, 0x00000004, 0x00000000, 0x00000004, 0x00000400, 0x00000404, 0x00000400, 0x00000404)
    case 6 => Pick(v,
      0x00000000, 0x00080000, 0x00000000, 0x00080000, 0x08000000, 0x08080000, 0x08000000, 0x08080000,
      0x00000000, 0x00080000, 0x00000000, 0x00080000, 0x08000000, 0x08080000, 0x08000000, 0x08080000)
    case 7 => Pick(v,
      0x00000000, 0x00000008, 0x00000000, 0x00000008, 0x00000800, 0x00000808, 0x00000800, 0x00000808,
      0x00000000, 0x00000008, 0x00000000, 0x00000008, 0x00000800, 0x00000808, 0x00000800, 0x00000808)
    case 8 => Pick(v,
      0x00000000, 0x00100000, 0x00000000, 0x00100000, 0x10000000, 0x10100000, 0x10000000, 0x10100000,
      0x00000000, 0x00100000, 0x00000000, 0x00100000, 0x10000000, 0x10100000, 0x10000000, 0x10100000)
    case 9 => Pick(v,
      0x00000000, 0x00000010, 0x00000000, 0x00000010, 0x00001000, 0x00001010, 0x00001000, 0x00001010,
      0x00000000, 0x00000010, 0x00000000, 0x00000010, 0x00001000, 0x00001010, 0x00001000, 0x00001010)
    case 10 => Pick(v,
      0x00000000, 0x00200000, 0x00000000, 0x00200000, 0x20000000, 0x20200000, 0x20000000, 0x20200000,
      0x00000000, 0x00200000, 0x00000000, 0x00200000, 0x20000000, 0x20200000, 0x20000000, 0x20200000)
    case 11 => Pick(v,
      0x00000000, 0x00000020, 0x00000000, 0x00000020, 0x00002000, 0x00002020, 0x00002000, 0x00002020,
      0x00000000, 0x00000020, 0x00000000, 0x00000020, 0x00002000, 0x00002020, 0x00002000, 0x00002020)
    case 12 => Pick(v,
      0x00000000, 0x00400000, 0x00000000, 0x00400000, 0x40000000, 0x40400000, 0x40000000, 0x40400000,
      0x00000000, 0x00400000, 0x00000000, 0x00400000, 0x40000000, 0x40400000, 0x40000000, 0x40400000)
    case 13 => Pick(v,
      0x00000000, 0x00000040, 0x00000000, 0x00000040, 0x00004000, 0x00004040, 0x00004000, 0x00004040,
      0x00000000, 0x00000040, 0x00000000, 0x00000040, 0x00004000, 0x00004040, 0x00004000, 0x00004040)
    case 14 => Pick(v,
      0x00000000, 0x00800000, 0x00000000, 0x00800000, 0x80000000, 0x80800000, 0x80000000, 0x80800000,
      0x00000000, 0x00800000, 0x00000000, 0x00800000, 0x80000000, 0x80800000, 0x80000000, 0x80800000)
    case _ => Pick(v,
      0x00000000, 0x00000080, 0x00000000, 0x00000080, 0x00008000, 0x00008080, 0x00008000, 0x00008080,
      0x00000000, 0x00000080, 0x00000000, 0x00000080, 0x00008000, 0x00008080, 0x00008000, 0x00008080)
  }

  function IpMaskR(i: nat, v: bv32): bv32
    requires i < 16
  {
    match i
    case 0 => Pick(v,
      0x00000000, 0x00000000, 0x00010000, 0x00010000, 0x00000000, 0x00000000, 0x00010000, 0x00010000,
      0x01000000, 0x01000000, 0x01010000, 0x01010000, 0x01000000, 0x01000000, 0x01010000, 0x01010000)
    case 1 => Pick(v,
      0x00000000, 0x00000000, 0x00000001, 0x00000001, 0x00000000, 0x00000000, 0x00000001, 0x00000001,
      0x00000100, 0x00000100, 0x00000101, 0x00000101, 0x00000100, 0x00000100, 0x00000101, 0x00000101)
    case 2 => Pick(v,
      0x00000000, 0x00000000, 0x00020000, 0x00020000, 0x00000000, 0x00000000, 0x00020000, 0x00020000,
      0x02000000, 0x02000000, 0x02020000, 0x02020000, 0x02000000, 0x02000000, 0x02020000, 0x02020000)
    case 3 => Pick(v,
      0x00000000, 0x00000000, 0x00000002, 0x00000002, 0x00000000, 0x00000000, 0x00000002, 0x00000002,
      0x00000200, 0x00000200, 0x00000202, 0x00000202, 0x00000200, 0x00000200, 0x00000202, 0x00000202)
    case 4 => Pick(v,
      0x00000000, 0x00000000, 0x00040000, 0x00040000, 0x00000000, 0x00000000, 0x00040000, 0x00040000,
      0x04000000, 0x04000000, 0x04040000, 0x04040000, 0x04000000, 0x04000000, 0x04040000, 0x04040000)
    case 5 => Pick(v,
      0x00000000, 0x00000000, 0x00000004, 0x00000004, 0x00000000, 0x00000000, 0x00000004, 0x00000004,
      0x00000400, 0x00000400, 0x00000404, 0x00000404, 0x00000400, 0x00000400, 0x00000404, 0x00000404)
    case 6 => Pick(v,
      0x00000000, 0x00000000, 0x00080000, 0x00080000, 0x00000000, 0x00000000, 0x00080000, 0x00080000,
      0x08000000, 0x08000000, 0x08080000, 0x08080000, 0x08000000, 0x08000000, 0x08080000, 0x08080000)
    case 7 => Pick(v,
      0x00000000, 0x00000000, 0x00000008, 0x00000008, 0x00000000, 0x00000000, 0x00000008, 0x00000008,
      0x00000800, 0x00000800, 0x00000808, 0x00000808, 0x00000800, 0x00000800, 0x00000808, 0x00000808)
    case 8 => Pick(v,
      0x00000000, 0x00000000, 0x00100000, 0x00100000, 0x00000000, 0x00000000, 0x00100000, 0x00100000,
      0x10000000, 0x10000000, 0x10100000, 0x10100000, 0x10000000, 0x10000000, 0x10100000, 0x10100000)
    case 9 => Pick(v,
      0x00000000, 0x00000000, 0x00000010, 0x00000010, 0x00000000, 0x00000000, 0x00000010, 0x00000010,
      0x00001000, 0x00001000, 0x00001010, 0x00001010, 0x00001000, 0x00001000, 0x00001010, 0x00001010)
    case 10 => Pick(v,
      0x00000000, 0x00000000, 0x00200000, 0x00200000, 0x00000000, 0x00000000, 0x00200000, 0x00200000,
      0x20000000, 0x20000000, 0x20200000, 0x20200000, 0x20000000, 0x20000000, 0x20200000, 0x20200000)
    case 11 => Pick(v,
      0x00000000, 0x00000000, 0x00000020, 0x00000020, 0x00000000, 0x00000000, 0x00000020, 0x00000020,
      0x00002000, 0x00002000, 0x00002020, 0x00002020, 0x00002000, 0x00002000, 0x00002020, 0x00002020)
    case 12 => Pick(v,
      0x00000000, 0x00000000, 0x00400000, 0x00400000, 0x00000000, 0x00000000, 0x00400000, 0x00400000,
      0x40000000, 0x40000000, 0x40400000, 0x40400000, 0x40000000, 0x40000000, 0x40400000, 0x40400000)
    case 13 => Pick(v,
      0x00000000, 0x00000000, 0x00000040, 0x00000040, 0x00000000, 0x00000000, 0x00000040, 0x00000040,
      0x00004000, 0x00004000, 0x00004040, 0x00004040, 0x00004000, 0x00004000, 0x00004040, 0x00004040)
    case 14 => Pick(v,
      0x00000000, 0x00000000, 0x00800000, 0x00800000, 0x00000000, 0x00000000, 0x00800000, 0x00800000,
      0x80000000, 0x80000000, 0x80800000, 0x80800000, 0x80000000, 0x80000000, 0x80800000, 0x80800000)
    case _ => Pick(v,
      0x00000000, 0x00000000, 0x00000080, 0x00000080, 0x00000000, 0x00000000, 0x00000080, 0x00000080,
      0x00008000, 0x00008000, 0x00008080, 0x00008080, 0x00008000, 0x00008000, 0x00008080, 0x00008080)
  }

  function FpMaskL(i: nat, v: bv32): bv32
    requires i < 8
  {
    match i
    case 0 => Pick(v,
      0x00000000, 0x40000000, 0x00400000, 0x40400000, 0x00004000, 0x40004000, 0x00404000, 0x40404000,
      0x00000040, 0x40000040, 0x00400040, 0x40400040, 0x00004040, 0x40004040, 0x00404040, 0x40404040)
    case 1 => Pick(v,
      0x00000000, 0x10000000, 0x00100000, 0x10100000, 0x00001000, 0x10001000, 0x00101000, 0x10101000,
      0x00000010, 0x10000010, 0x00100010, 0x10100010, 0x00001010, 0x10001010, 0x00101010, 0x10101010)
    case 2 => Pick(v,
      0x00000000, 0x04000000, 0x00040000, 0x04040000, 0x00000400, 0x04000400, 0x00040400, 0x04040400,
      0x00000004, 0x04000004, 0x00040004, 0x04040004, 0x00000404, 0x04000404, 0x00040404, 0x04040404)
    case 3 => Pick(v,
      0x00000000, 0x01000000, 0x00010000, 0x01010000, 0x00000100, 0x01000100, 0x00010100, 0x01010100,
      0x00000001, 0x01000001, 0x00010001, 0x01010001, 0x00000101, 0x01000101, 0x00010101, 0x01010101)
    case 4 => Pick(v,
      0x00000000, 0x80000000, 0x00800000, 0x80800000, 0x00008000, 0x80008000, 0x00808000, 0x80808000,
      0x00000080, 0x80000080, 0x00800080, 0x80800080, 0x00008080, 0x80008080, 0x00808080, 0x80808080)
    case 5 => Pick(v,
      0x00000000, 0x20000000, 0x00200000, 0x20200000, 0x00002000, 0x20002000, 0x00202000, 0x20202000,
      0x00000020, 0x20000020, 0x00200020, 0x20200020, 0x00002020, 0x20002020, 0x00202020, 0x20202020)
    case 6 => Pick(v,
      0x00000000, 0x08000000, 0x00080000, 0x08080000, 0x00000800, 0x08000800, 0x00080800, 0x08080800,
      0x00000008, 0x08000008, 0x00080008, 0x08080008, 0x00000808, 0x08000808, 0x00080808, 0x08080808)
    case _ => Pick(v,
      0x00000000, 0x02000000, 0x00020000, 0x02020000, 0x00000200, 0x02000200, 0x00020200, 0x02020200,
      0x00000002, 0x02000002, 0x00020002, 0x02020002, 0x00000202, 0x02000202, 0x00020202, 0x02020202)
  }

  function FpMaskR(i: nat, v: bv32): bv32
    requires i < 8
  {
    match i
    case 0 => Pick(v,
      0x00000000, 0x40000000, 0x00400000, 0x40400000, 0x00004000, 0x40004000, 0x00404000, 0x40404000,
      0x00000040, 0x40000040, 0x00400040, 0x40400040, 0x00004040, 0x40004040, 0x00404040, 0x40404040)
    case 1 => Pick(v,
      0x00000000, 0x10000000, 0x00100000, 0x10100000, 0x00001000, 0x10001000, 0x00101000, 0x10101000,
      0x00000010, 0x10000010, 0x00100010, 0x10100010, 0x00001010, 0x10001010, 0x00101010, 0x10101010)
    case 2 => Pick(v,
      0x00000000, 0x04000000, 0x00040000, 0x04040000, 0x00000400, 0x04000400, 0x00040400, 0x04040400,
      0x00000004, 0x04000004, 0x00040004, 0x04040004, 0x00000404, 0x04000404, 0x00040404, 0x04040404)
    case 3 => Pick(v,
      0x00000000, 0x01000000, 0x00010000, 0x01010000, 0x00000100, 0x01000100, 0x00010100, 0x01010100,
      0x00000001, 0x01000001, 0x00010001, 0x01010001, 0x00000101, 0x01000101, 0x00010101, 0x01010101)
    case 4 => Pick(v,
      0x00000000, 0x80000000, 0x00800000, 0x80800000, 0x00008000, 0x80008000, 0x00808000, 0x80808000,
      0x00000080, 0x80000080, 0x00800080, 0x80800080, 0x00008080, 0x80008080, 0x00808080, 0x80808080)
    case 5 => Pick(v,
      0x00000000, 0x20000000, 0x00200000, 0x20200000, 0x00002000, 0x20002000, 0x00202000, 0x20202000,
      0x00000020, 0x20000020, 0x00200020, 0x20200020, 0x00002020, 0x20002020, 0x00202020, 0x20202020)
    case 6 => Pick(v,
      0x00000000, 0x08000000, 0x00080000, 0x08080000, 0x00000800, 0x08000800, 0x00080800, 0x08080800,
      0x00000008, 0x08000008, 0x00080008, 0x08080008, 0x00000808, 0x08000808, 0x00080808, 0x08080808)
    case _ => Pick(v,
      0x00000000, 0x02000000, 0x00020000, 0x02020000, 0x00000200, 0x02000200, 0x00020200, 0x02020200,
      0x00000002, 0x02000002, 0x00020002, 0x02020002, 0x00000202, 0x02000202, 0x00020202, 0x02020202)
  }

  function KeyPermMaskL(i: nat, v: bv32): bv32
    requires i < 8
  {
    match i
    case 0 => Pick(v,
      0x00000000, 0x00000000, 0x00000010, 0x00000010, 0x00001000, 0x00001000, 0x00001010, 0x00001010,
      0x00100000, 0x00100000, 0x00100010, 0x00100010, 0x00101000, 0x00101000, 0x00101010, 0x00101010)
    case 1 => Pick(v,
      0x00000000, 0x00000000, 0x00000020, 0x00000020, 0x00002000, 0x00002000, 0x00002020, 0x00002020,
      0x00200000, 0x00200000, 0x00200020, 0x00200020, 0x00202000, 0x00202000, 0x00202020, 0x00202020)
    case 2 => Pick(v,
      0x00000000, 0x00000000, 0x00000040, 0x00000040, 0x00004000, 0x00004000, 0x00004040, 0x00004040,
      0x00400000, 0x00400000, 0x00400040, 0x00400040, 0x00404000, 0x00404000, 0x00404040, 0x00404040)
    case 3 => Pick(v,
      0x00000000, 0x00000000, 0x00000080, 0x00000080, 0x00008000, 0x00008000, 0x00008080, 0x00008080,
      0x00800000, 0x00800000, 0x00800080, 0x00800080, 0x00808000, 0x00808000, 0x00808080, 0x00808080)
    case 4 => Pick(v,
      0x00000000, 0x00000001, 0x00000100, 0x00000101, 0x00010000, 0x00010001, 0x00010100, 0x00010101,
      0x01000000, 0x01000001, 0x01000100, 0x01000101, 0x01010000, 0x01010001, 0x01010100, 0x01010101)
    case 5 => Pick(v,
      0x00000000, 0x00000002, 0x00000200, 0x00000202, 0x00020000, 0x00020002, 0x00020200, 0x00020202,
      0x02000000, 0x02000002, 0x02000200, 0x02000202, 0x02020000, 0x02020002, 0x02020200, 0x02020202)
    case 6 => Pick(v,
      0x00000000, 0x00000004, 0x00000400, 0x00000404, 0x00040000, 0x00040004, 0x00040400, 0x00040404,
      0x04000000, 0x04000004, 0x04000400, 0x04000404, 0x04040000, 0x04040004, 0x04040400, 0x04040404)
    case _ => Pick(v,
      0x00000000, 0x00000008, 0x00000800, 0x00000808, 0x00080000, 0x00080008, 0x00080800, 0x00080808,
      0x08000000, 0x08000008, 0x08000800, 0x08000808, 0x08080000, 0x08080008, 0x08080800, 0x08080808)
  }

  function KeyPermMaskR(i: nat, v: bv32): bv32
    requires i < 12
  {
    match i
    case 0 => Pick(v,
      0x00000000, 0x00000001, 0x00000000, 0x00000001, 0x00000000, 0x00000001, 0x00000000, 0x00000001,
      0x00000000, 0x00000001, 0x00000000, 0x00000001, 0x00000000, 0x00000001, 0x00000000, 0x00000001)
    case 1 => Pick(v,
      0x00000000, 0x00000000, 0x00100000, 0x00100000, 0x00001000, 0x00001000, 0x00101000, 0x00101000,
      0x00000010, 0x00000010, 0x00100010, 0x00100010, 0x00001010, 0x00001010, 0x00101010, 0x00101010)
    case 2 => Pick(v,
      0x00000000, 0x00000002, 0x00000000, 0x00000002, 0x00000000, 0x00000002, 0x00000000, 0x00000002,
      0x00000000, 0x00000002, 0x00000000, 0x00000002, 0x00000000, 0x00000002, 0x00000000, 0x00000002)
    case 3 => Pick(v,
      0x00000000, 0x00000000, 0x00200000, 0x00200000, 0x00002000, 0x00002000, 0x00202000, 0x00202000,
      0x00000020, 0x00000020, 0x00200020, 0x00200020, 0x00002020, 0x00002020, 0x00202020, 0x00202020)
    case 4 => Pick(v,
      0x00000000, 0x00000004, 0x00000000, 0x00000004, 0x00000000, 0x00000004, 0x00000000, 0x00000004,
      0x00000000, 0x00000004, 0x00000000, 0x00000004, 0x00000000, 0x00000004, 0x00000000, 0x00000004)
    case 5 => Pick(v,
      0x00000000, 0x00000000, 0x00400000, 0x00400000, 0x00004000, 0x00004000, 0x00404000, 0x00404000,
      0x00000040, 0x00000040, 0x00400040, 0x00400040, 0x00004040, 0x00004040, 0x00404040, 0x00404040)
    case 6 => Pick(v,
      0x00000000, 0x00000008, 0x00000000, 0x00000008, 0x00000000, 0x00000008, 0x00000000, 0x00000008,
      0x00000000, 0x00000008, 0x00000000, 0x00000008, 0x00000000, 0x00000008, 0x00000000, 0x00000008)
    case 7 => Pick(v,
      0x00000000, 0x00000000, 0x00800000, 0x00800000, 0x00008000, 0x00008000, 0x00808000, 0x00808000,
      0x00000080, 0x00000080, 0x00800080, 0x00800080, 0x00008080, 0x00008080, 0x00808080, 0x00808080)
    case 8 => Pick(v,
      0x00000000, 0x00000000, 0x01000000, 0x01000000, 0x00010000, 0x00010000, 0x01010000, 0x01010000,
      0x00000100, 0x00000100, 0x01000100, 0x01000100, 0x00010100, 0x00010100, 0x01010100, 0x01010100)
    case 9 => Pick(v,
      0x00000000, 0x00000000, 0x02000000, 0x02000000, 0x00020000, 0x00020000, 0x02020000, 0x02020000,
      0x00000200, 0x00000200, 0x02000200, 0x02000200, 0x00020200, 0x00020200, 0x02020200, 0x02020200)
    case 10 => Pick(v,
      0x00000000, 0x00000000, 0x04000000, 0x04000000, 0x00040000, 0x00040000, 0x04040000, 0x04040000,
      0x00000400, 0x00000400, 0x04000400, 0x04000400, 0x00040400, 0x00040400, 0x04040400, 0x04040400)
    case _ => Pick(v,
      0x00000000, 0x00000000, 0x08000000, 0x08000000, 0x00080000, 0x00080000, 0x08080000, 0x08080000,
      0x00000800, 0x00000800, 0x08000800, 0x08000800, 0x00080800, 0x00080800, 0x08080800, 0x08080800)
  }

  function CompMaskL0(i: nat, v: bv32): bv32
    requires i < 4
  {
    match i
    case 0 => Pick8(v,
      0x00000000, 0x00020000, 0x00000001, 0x00020001, 0x00080000, 0x000a0000, 0x00080001, 0x000a0001)
    case 1 => Pick8(v,
      0x00000000, 0x00001000, 0x00000000, 0x00001000, 0x00000040, 0x00001040, 0x00000040, 0x00001040)
    case 2 => Pick8(v,
      0x00000000, 0x00400000, 0x00000020, 0x00400020, 0x00008000, 0x00408000, 0x00008020, 0x00408020)
    case _ => Pick8(v,
      0x00000000, 0x00100000, 0x00000800, 0x00100800, 0x00000000, 0x00100000, 0x00000800, 0x00100800)
  }

  function CompMaskR0(i: nat, v: bv32): bv32
    requires i < 4
  {
    match i
    case 0 => Pick8(v,
      0x00000000, 0x00200000, 0x00020000, 0x00220000, 0x00000002, 0x00200002, 0x00020002, 0x00220002)
    case 1 => Pick8(v,
      0x00000000, 0x00000000, 0x00100000, 0x00100000, 0x00000004, 0x00000004, 0x00100004, 0x00100004)
    case 2 => Pick8(v,
      0x00000000, 0x00004000, 0x00000800, 0x00004800, 0x00000000, 0x00004000, 0x00000800, 0x00004800)
    case _ => Pick8(v,
      0x00000000, 0x00400000, 0x00008000, 0x00408000, 0x00000008, 0x00400008, 0x00008008, 0x00408008)
  }

  function CompMaskL1(i: nat, v: bv32): bv32
    requires i < 4
  {
    match i
    case 0 => Pick(v,
      0x00000000, 0x00000010, 0x00004000, 0x00004010, 0x00040000, 0x00040010, 0x00044000, 0x00044010,
      0x00000100, 0x00000110, 0x00004100, 0x00004110, 0x00040100, 0x00040110, 0x00044100, 0x00044110)
    case 1 => Pick(v,
      0x00000000, 0x00800000, 0x00000002, 0x00800002, 0x00000200, 0x00800200, 0x00000202, 0x00800202,
      0x00200000, 0x00a00000, 0x00200002, 0x00a00002, 0x00200200, 0x00a00200, 0x00200202, 0x00a00202)
    case 2 => Pick(v,
      0x00000000, 0x00002000, 0x00000004, 0x00002004, 0x00000400, 0x00002400, 0x00000404, 0x00002404,
      0x00000000, 0x00002000, 0x00000004, 0x00002004, 0x00000400, 0x00002400, 0x00000404, 0x00002404)
    case _ => Pick(v,
      0x00000000, 0x00010000, 0x00000008, 0x00010008, 0x00000080, 0x00010080, 0x00000088, 0x00010088,
      0x00000000, 0x00010000, 0x00000008, 0x00010008, 0x00000080, 0x00010080, 0x00000088, 0x00010088)
  }

  function CompMaskR1(i: nat, v: bv32): bv32
    requires i < 4
  {
    match i
    case 0 => Pick(v,
      0x00000000, 0x00000000, 0x00000080, 0x00000080, 0x00002000, 0x00002000, 0x00002080, 0x00002080,
      0x00000001, 0x00000001, 0x00000081, 0x00000081, 0x00002001, 0x00002001, 0x00002081, 0x00002081)
    case 1 => Pick(v,
      0x00000000, 0x00000010, 0x00800000, 0x00800010, 0x00010000, 0x00010010, 0x00810000, 0x00810010,
      0x00000200, 0x00000210, 0x00800200, 0x00800210, 0x00010200, 0x00010210, 0x00810200, 0x00810210)
    case 2 => Pick(v,
      0x00000000, 0x00000400, 0x00001000, 0x00001400, 0x00080000, 0x00080400, 0x00081000, 0x00081400,
      0x00000020, 0x00000420, 0x00001020, 0x00001420, 0x00080020, 0x00080420, 0x00081020, 0x00081420)
    case _ => Pick(v,
      0x00000000, 0x00000100, 0x00040000, 0x00040100, 0x00000000, 0x00000100, 0x00040000, 0x00040100,
      0x00000040, 0x00000140, 0x00040040, 0x00040140, 0x00000040, 0x00000140, 0x00040040, 0x00040140)
  }

  /** The S-boxes with the P permutation applied; six index bits. */
  function PsBox(i: nat, v: bv32): bv32
    requires i < 8 && v <= 63
  {
    var (hi, lo) := (v >> 4, v & 0xf);
    match i
    case 0 =>
      if hi == 0 then Pick(lo,
        0x00808200, 0x00000000, 0x00008000, 0x00808202, 0x00808002, 0x00008202, 0x00000002, 0x00008000,
        0x00000200, 0x00808200, 0x00808202, 0x00000200, 0x00800202, 0x00808002, 0x00800000, 0x00000002)
      else if hi == 1 then Pick(lo,
        0x00000202, 0x00800200, 0x00800200, 0x00008200, 0x00008200, 0x00808000, 0x00808000, 0x00800202,
        0x00008002, 0x00800002, 0x00800002, 0x00008002, 0x00000000, 0x00000202, 0x00008202, 0x00800000)
      else if hi == 2 then Pick(lo,
        0x00008000, 0x00808202, 0x00000002, 0x00808000, 0x00808200, 0x00800000, 0x00800000, 0x00000200,
        0x00808002, 0x00008000, 0x00008200, 0x00800002, 0x00000200, 0x00000002, 0x00800202, 0x00008202)
      else Pick(lo,
        0x00808202, 0x00008002, 0x00808000, 0x00800202, 0x00800002, 0x00000202, 0x00008202, 0x00808200,
        0x00000202, 0x00800200, 0x00800200, 0x00000000, 0x00008002, 0x00008200, 0x00000000, 0x00808002)
    case 1 =>
      if hi == 0 then Pick(lo,
        0x40084010, 0x40004000, 0x00004000, 0x00084010, 0x00080000, 0x00000010, 0x40080010, 0x40004010,
        0x40000010, 0x40084010, 0x40084000, 0x40000000, 0x40004000, 0x00080000, 0x00000010, 0x40080010)
      else if hi == 1 then Pick(lo,
        0x00084000, 0x00080010, 0x40004010, 0x00000000, 0x40000000, 0x00004000, 0x00084010, 0x40080000,
        0x00080010, 0x40000010, 0x00000000, 0x00084000, 0x00004010, 0x40084000, 0x40080000, 0x00004010)
      else if hi == 2 then Pick(lo,
        0x00000000, 0x00084010, 0x40080010, 0x00080000, 0x40004010, 0x40080000, 0x40084000, 0x00004000,
        0x40080000, 0x40004000, 0x00000010, 0x40084010, 0x00084010, 0x00000010, 0x00004000, 0x40000000)
      else Pick(lo,
        0x00004010, 0x40084000, 0x00080000, 0x40000010, 0x00080010, 0x40004010, 0x40000010, 0x00080010,
        0x00084000, 0x00000000, 0x40004000, 0x00004010, 0x40000000, 0x40080010, 0x40084010, 0x00084000)
    case 2 =>
      if hi == 0 then Pick(lo,
        0x00000104, 0x04010100, 0x00000000, 0x04010004, 0x04000100, 0x00000000, 0x00010104, 0x04000100,
        0x00010004, 0x04000004, 0x04000004, 0x00010000, 0x04010104, 0x00010004, 0x04010000, 0x00000104)
      else if hi == 1 then Pick(lo,
        0x04000000, 0x00000004, 0x04010100, 0x00000100, 0x00010100, 0x04010000, 0x04010004, 0x00010104,
        0x04000104, 0x00010100, 0x00010000, 0x04000104, 0x00000004, 0x04010104, 0x00000100, 0x04000000)
      else if hi == 2 then Pick(lo,
        0x04010100, 0x04000000, 0x00010004, 0x00000104, 0x00010000, 0x04010100, 0x04000100, 0x00000000,
        0x00000100, 0x00010004, 0x04010104, 0x04000100, 0x04000004, 0x00000100, 0x00000000, 0x04010004)
      else Pick(lo,
        0x04000104, 0x00010000, 0x04000000, 0x04010104, 0x00000004, 0x00010104, 0x00010100, 0x04000004,
        0x04010000, 0x04000104, 0x00000104, 0x04010000, 0x00010104, 0x00000004, 0x04010004, 0x00010100)
    case 3 =>
      if hi == 0 then Pick(lo,
        0x80401000, 0x80001040, 0x80001040, 0x00000040, 0x00401040, 0x80400040, 0x80400000, 0x80001000,
        0x00000000, 0x00401000, 0x00401000, 0x80401040, 0x80000040, 0x00000000, 0x00400040, 0x80400000)
      else if hi == 1 then Pick(lo,
        0x80000000, 0x00001000, 0x00400000, 0x80401000, 0x00000040, 0x00400000, 0x80001000, 0x00001040,
        0x80400040, 0x80000000, 0x00001040, 0x00400040, 0x00001000, 0x00401040, 0x80401040, 0x80000040)
      else if hi == 2 then Pick(lo,
        0x00400040, 0x80400000, 0x00401000, 0x80401040, 0x80000040, 0x00000000, 0x00000000, 0x00401000,
        0x00001040, 0x00400040, 0x80400040, 0x80000000, 0x80401000, 0x80001040, 0x80001040, 0x00000040)
      else Pick(lo,
        0x80401040, 0x80000040, 0x80000000, 0x00001000, 0x80400000, 0x80001000, 0x00401040, 0x80400040,
        0x80001000, 0x00001040, 0x00400000, 0x80401000, 0x00000040, 0x00400000, 0x00001000, 0x00401040)
    case 4 =>
      if hi == 0 then Pick(lo,
        0x00000080, 0x01040080, 0x01040000, 0x21000080, 0x00040000, 0x00000080, 0x20000000, 0x01040000,
        0x20040080, 0x00040000, 0x01000080, 0x20040080, 0x21000080, 0x21040000, 0x00040080, 0x20000000)
      else if hi == 1 then Pick(lo,
        0x01000000, 0x20040000, 0x20040000, 0x00000000, 0x20000080, 0x21040080, 0x21040080, 0x01000080,
        0x21040000, 0x20000080, 0x00000000, 0x21000000, 0x01040080, 0x01000000, 0x21000000, 0x00040080)
      else if hi == 2 then Pick(lo,
        0x00040000, 0x21000080, 0x00000080, 0x01000000, 0x20000000, 0x01040000, 0x21000080, 0x20040080,
        0x01000080, 0x20000000, 0x21040000, 0x01040080, 0x20040080, 0x00000080, 0x01000000, 0x21040000)
      else Pick(lo,
        0x21040080, 0x00040080, 0x21000000, 0x21040080, 0x01040000, 0x00000000, 0x20040000, 0x21000000,
        0x00040080, 0x01000080, 0x20000080, 0x00040000, 0x00000000, 0x20040000, 0x01040080, 0x20000080)
    case 5 =>
      if hi == 0 then Pick(lo,
        0x10000008, 0x10200000, 0x00002000, 0x10202008, 0x10200000, 0x00000008, 0x10202008, 0x00200000,
        0x10002000, 0x00202008, 0x00200000, 0x10000008, 0x00200008, 0x10002000, 0x10000000, 0x00002008)
      else if hi == 1 then Pick(lo,
        0x00000000, 0x00200008, 0x10002008, 0x00002000, 0x00202000, 0x10002008, 0x00000008, 0x10200008,
        0x10200008, 0x00000000, 0x00202008, 0x10202000, 0x00002008, 0x00202000, 0x10202000, 0x10000000)
      else if hi == 2 then Pick(lo,
        0x10002000, 0x00000008, 0x10200008, 0x00202000, 0x10202008, 0x00200000, 0x00002008, 0x10000008,
        0x00200000, 0x10002000, 0x10000000, 0x00002008, 0x10000008, 0x10202008, 0x00202000, 0x10200000)
      else Pick(lo,
        0x00202008, 0x10202000, 0x00000000, 0x10200008, 0x00000008, 0x00002000, 0x10200000, 0x00202008,
        0x00002000, 0x00200008, 0x10002008, 0x00000000, 0x10202000, 0x10000000, 0x00200008, 0x10002008)
    case 6 =>
      if hi == 0 then Pick(lo,
        0x00100000, 0x02100001, 0x02000401, 0x00000000, 0x00000400, 0x02000401, 0x00100401, 0x02100400,
        0x02100401, 0x00100000, 0x00000000, 0x02000001, 0x00000001, 0x02000000, 0x02100001, 0x00000401)
      else if hi == 1 then Pick(lo,
        0x02000400, 0x00100401, 0x00100001, 0x02000400, 0x02000001, 0x02100000, 0x02100400, 0x00100001,
        0x02100000, 0x00000400, 0x00000401, 0x02100401, 0x00100400, 0x00000001, 0x02000000, 0x00100400)
      else if hi == 2 then Pick(lo,
        0x02000000, 0x00100400, 0x00100000, 0x02000401, 0x02000401, 0x02100001, 0x02100001, 0x00000001,
        0x00100001, 0x02000000, 0x02000400, 0x00100000, 0x02100400, 0x00000401, 0x00100401, 0x02100400)
      else Pick(lo,
        0x00000401, 0x02000001, 0x02100401, 0x02100000, 0x00100400, 0x00000000, 0x00000001, 0x02100401,
        0x00000000, 0x00100401, 0x02100000, 0x00000400, 0x02000001, 0x02000400, 0x00000400, 0x00100001)
    case _ =>
      if hi == 0 then Pick(lo,
        0x08000820, 0x00000800, 0x00020000, 0x08020820, 0x08000000, 0x08000820, 0x00000020, 0x08000000,
        0x00020020, 0x08020000, 0x08020820, 0x00020800, 0x08020800, 0x00020820, 0x00000800, 0x00000020)
      else if hi == 1 then Pick(lo,
        0x08020000, 0x08000020, 0x08000800, 0x00000820, 0x00020800, 0x00020020, 0x08020020, 0x08020800,
        0x00000820, 0x00000000, 0x00000000, 0x08020020, 0x08000020, 0x08000800, 0x00020820, 0x00020000)
      else if hi == 2 then Pick(lo,
        0x00020820, 0x00020000, 0x08020800, 0x00000800, 0x00000020, 0x08020020, 0x00000800, 0x00020820,
        0x08000800, 0x00000020, 0x08000020, 0x08020000, 0x08020020, 0x08000000, 0x00020000, 0x08000820)
      else Pick(lo,
        0x00000000, 0x08020820, 0x00020020, 0x08000020, 0x08020000, 0x08000800, 0x08000820, 0x00000000,
        0x08020820, 0x00020800, 0x00020800, 0x00000820, 0x00000820, 0x00020020, 0x08000000, 0x08020800)
  }
}
