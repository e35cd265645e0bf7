/**
 The packets of the ball controller (network.c and BallController.c): bit fields in a 32-bit key and
 payload, the averager whose results fit the fields, and the counter that tells repeats apart.
 Floating-point values are real numbers here.
 */
module Packets {
  import opened Words

  const ERROR_MSG := 0xA000_0000
  const UPD_MSG := 0x4000_0000

  // ---------- values as a sign and a magnitude ----------

  /** (int)(|v| * scale): how a value travels. */
  function Magnitude(v: real, scale: nat): (m: int)
    ensures m >= 0
  {
    ((if v < 0.0 then -v else v) * (scale as real)).Floor
  }

  function SignBit(v: real): nat {
    if v < 0.0 then 1 else 0
  }

  /** What the receiver makes of it. */
  function Restored(sign: nat, m: int, scale: nat): real
    requires scale > 0
  {
    var size := (m as real) / (scale as real);
    if sign == 1 then -size else size
  }

  predicate Unit(v: real) {
    -1.0 <= v <= 1.0
  }

  lemma MagnitudeBound(v: real, scale: nat)
    requires Unit(v)
    ensures Magnitude(v, scale) <= scale
  {
    var size := if v < 0.0 then -v else v;
    assert size * (scale as real) <= 1.0 * (scale as real);
  }

  /** The value arrives with its sign and within one step, towards zero. */
  lemma RestoredClose(v: real, scale: nat)
    requires scale > 0
    ensures var r := Restored(SignBit(v), Magnitude(v, scale), scale);
      (v >= 0.0 ==> 0.0 <= r <= v && v - r < 1.0 / (scale as real))
      && (v < 0.0 ==> v <= r <= 0.0 && r - v < 1.0 / (scale as real))
  {
    var size := if v < 0.0 then -v else v;
    var k := scale as real;
    var m := Magnitude(v, scale) as real;
    assert m <= size * k < m + 1.0;
    Divided(m, size, k);
  }

  lemma Divided(m: real, size: real, k: real)
    requires k > 0.0 && 0.0 <= m <= size * k < m + 1.0
    ensures 0.0 <= m / k <= size && size - m / k < 1.0 / k
  {
    var q := m / k;
    assert q * k == m;
    assert (size - q) * k == size * k - m;
    assert (size - q) * k >= 0.0 ==> size - q >= 0.0;
    var e := 1.0 / k;
    assert e * k == 1.0;
    assert (e - (size - q)) * k > 0.0;
  }

  // ---------- the error message ----------

  datatype ErrorFields = ErrorFields(counter: nat, signX: nat, signY: nat, x: nat, y: nat, magX: nat, magY: nat)

  predicate ErrorFits(f: ErrorFields) {
    f.counter < 64 && f.signX < 2 && f.signY < 2 && f.x < 256 && f.y < 256 && f.magX < 0x1_0000 && f.magY < 0x1_0000
  }

  /** The key and the payload as sums of their fields. */
  function ErrorKey(f: ErrorFields): nat {
    ERROR_MSG + f.counter * 0x10_0000 + f.signX * 0x2_0000 + f.signY * 0x1_0000 + f.x * 0x100 + f.y
  }

  function ErrorPayload(f: ErrorFields): nat {
    f.magX * 0x1_0000 + f.magY
  }

  lemma Powers()
    ensures PowerOfTwo(0x100) && PowerOfTwo(0x400) && PowerOfTwo(0x1_0000) && PowerOfTwo(0x2_0000)
      && PowerOfTwo(0x4_0000)
    ensures PowerOfTwo(0x10_0000) && PowerOfTwo(0x400_0000) && PowerOfTwo(0x1000_0000) && PowerOfTwo(0x4000_0000)
      && PowerOfTwo(0x1_0000_0000)
  {
    assert PowerOfTwo(4);
    PowerProduct(4, 4);
    PowerProduct(0x10, 0x10);
    PowerProduct(0x100, 4);
    PowerProduct(0x100, 0x100);
    PowerProduct(0x1_0000, 2);
    PowerProduct(0x1_0000, 4);
    PowerProduct(0x1_0000, 0x10);
    PowerProduct(0x1_0000, 0x400);
    PowerProduct(0x10_0000, 0x100);
    PowerProduct(0x10_0000, 0x400);
    PowerProduct(0x1_0000, 0x1_0000);
  }

  /** Lines 152-170 of network.c, the key. */
  method EncodeErrorKey(negX: bool, negY: bool, x: nat, y: nat, counter: nat) returns (key: nat)
    requires x < 256 && y < 256 && counter < 64
    ensures key
      == ERROR_MSG + counter * 0x10_0000 + (if negX then 0x2_0000 else 0) + (if negY then 0x1_0000
      else 0) + x * 0x100 + y
  {
    hide PowerOfTwo, Or;
    Powers();
    OrIntoGap(10, 0x1000_0000, x, 0x100, 0);
    key := Or(ERROR_MSG, x * 0x100);
    OrIsSum(0xA0_0000 + x, 0x100, y);
    key := Or(key, y);
    ghost var low := x * 0x100 + y;
    if negX {
      OrIntoGap(10, 0x1000_0000, 1, 0x2_0000, low);
      key := Or(key, 0x2_0000);
    }
    ghost var bitX := if negX then 1 else 0;
    if negY {
      OrIntoGap(0x5000 + bitX, 0x2_0000, 1, 0x1_0000, low);
      key := Or(key, 0x1_0000);
    }
    ghost var bitY := if negY then 1 else 0;
    OrIntoGap(10, 0x1000_0000, counter, 0x10_0000, bitX * 0x2_0000 + bitY * 0x1_0000 + low);
    key := Or(key, counter * 0x10_0000);
  }

  /** Lines 153-167: two magnitudes of 16 bits. */
  method EncodePayload(high: nat, low: nat) returns (payload: nat)
    requires high < 0x1_0000 && low < 0x1_0000
    ensures payload == high * 0x1_0000 + low
  {
    hide PowerOfTwo, Or;
    Powers();
    OrFromZero(high * 0x1_0000);
    payload := Or(0, high * 0x1_0000);
    OrIsSum(high, 0x1_0000, low);
    payload := Or(payload, low);
  }

  lemma {:induction false} OrFromZero(x: nat)
    ensures Or(0, x) == x
  {
    if x != 0 { OrFromZero(x / 2); }
  }

  /** Bits shift and up of a word, masked by size - 1. */
  function Field(word: nat, shift: nat, size: nat): nat
    requires shift > 0 && size > 0
  {
    And(word / shift, size - 1)
  }

  lemma FieldIs(word: nat, shift: nat, size: nat)
    requires shift > 0 && PowerOfTwo(size)
    ensures size > 0 && Field(word, shift, size) == word / shift % size
  {
    MaskIsRemainder(word / shift, size);
  }

  /** Lines 178-198 and eventNode: the fields of a key and a payload. */
  method DecodeError(key: nat, payload: nat) returns (f: ErrorFields)
    ensures forall g :: ErrorFits(g) && key == ErrorKey(g) && payload == ErrorPayload(g) ==> f == g
  {
    hide And, PowerOfTwo;
    Powers();
    assert PowerOfTwo(2) by { PowerTwo(); }
    FieldIs(key, 0x10_0000, 0x100);
    FieldIs(key, 0x2_0000, 2);
    FieldIs(key, 0x1_0000, 2);
    FieldIs(key, 0x100, 0x100);
    FieldIs(key, 1, 0x100);
    FieldIs(payload, 1, 0x1_0000);
    f := ErrorFields(Field(key, 0x10_0000, 0x100), Field(key, 0x2_0000, 2), Field(key, 0x1_0000, 2),
      Field(key, 0x100, 0x100),
      Field(key, 1, 0x100), payload / 0x1_0000, Field(payload, 1, 0x1_0000));
    forall g | ErrorFits(g) && key == ErrorKey(g) && payload == ErrorPayload(g)
      ensures f == g
    {
      ErrorFieldsOf(g);
    }
  }

  lemma PowerTwo()
    ensures PowerOfTwo(2)
  {
  }

  lemma ErrorFieldsOf(g: ErrorFields)
    requires ErrorFits(g)
    ensures ErrorKey(g) / 0x10_0000 % 0x100 == g.counter && ErrorKey(g) / 0x2_0000 % 2 == g.signX
      && ErrorKey(g) / 0x1_0000 % 2 == g.signY
    ensures ErrorKey(g) / 0x100 % 0x100 == g.x && ErrorKey(g) / 1 % 0x100 == g.y
    ensures ErrorPayload(g) / 0x1_0000 == g.magX && ErrorPayload(g) / 1 % 0x1_0000 == g.magY
  {
    var low := g.x * 0x100 + g.y;
    assert ErrorKey(g) / 0x1_0000 == 0xA000 + g.counter * 0x10 + g.signX * 2 + g.signY;
    assert ErrorKey(g) / 0x2_0000 == 0x5000 + g.counter * 8 + g.signX;
    assert ErrorKey(g) / 0x10_0000 == 0xA00 + g.counter;
    assert ErrorKey(g) / 0x100 == 0xA0_0000 + g.counter * 0x1000 + g.signX * 0x200 + g.signY * 0x100 + g.x;
  }

  // ---------- the update message ----------

  datatype UpdateFields = UpdateFields(index: nat, signVy: nat, signVx: nat, signTheta: nat, signPsi: nat, vy: nat,
    vx: nat, theta: nat, psi: nat)

  predicate UpdateFits(f: UpdateFields) {
    f.index < 64 && f.signVy < 2 && f.signVx < 2 && f.signTheta < 2 && f.signPsi < 2 && f.vy < 0x400 && f.vx < 0x400
    && f.theta < 0x1_0000 && f.psi < 0x1_0000
  }

  function UpdateSigns(f: UpdateFields): nat {
    16 + f.signVy * 8 + f.signVx * 4 + f.signTheta * 2 + f.signPsi
  }

  function UpdateKey(f: UpdateFields): nat {
    UpdateSigns(f) * 0x400_0000 + f.index * 0x10_0000 + f.vy * 0x400 + f.vx
  }

  function UpdatePayload(f: UpdateFields): nat {
    f.theta * 0x1_0000 + f.psi
  }

  // Or of a single bit when the value is negative.
  method OrBit(key: nat, negative: bool, ghost hi: nat, ghost a: nat, bit: nat, ghost lo: nat) returns (r: nat)
    requires PowerOfTwo(a) && PowerOfTwo(bit) && bit < a && lo < bit && key == hi * a + lo
    ensures r == key + if negative then bit else 0
  {
    r := key;
    if negative {
      OrIntoGap(hi, a, 1, bit, lo);
      r := Or(key, bit);
    }
  }

  /** Lines 232-260 of network.c, the key. */
  method EncodeUpdateKey(f: UpdateFields) returns (key: nat)
    requires UpdateFits(f)
    ensures key == UpdateKey(f)
  {
    hide PowerOfTwo, Or;
    Powers();
    HighPowers();
    key := OrBit(UPD_MSG, f.signVy == 1, 1, 0x4000_0000, 0x2000_0000, 0);
    OrIntoGap(2 + f.signVy, 0x2000_0000, f.vy, 0x400, 0);
    key := Or(key, f.vy * 0x400);
    key := OrBit(key, f.signVx == 1, 2 + f.signVy, 0x2000_0000, 0x1000_0000, f.vy * 0x400);
    OrIsSum((4 + f.signVy * 2 + f.signVx) * 0x4_0000 + f.vy, 0x400, f.vx);
    key := Or(key, f.vx);
    ghost var low := f.vy * 0x400 + f.vx;
    key := OrBit(key, f.signTheta == 1, 4 + f.signVy * 2 + f.signVx, 0x1000_0000, 0x800_0000, low);
    key := OrBit(key, f.signPsi == 1, 8 + f.signVy * 4 + f.signVx * 2 + f.signTheta, 0x800_0000, 0x400_0000, low);
    OrIntoGap(UpdateSigns(f), 0x400_0000, f.index, 0x10_0000, low);
    key := Or(key, f.index * 0x10_0000);
  }

  lemma HighPowers()
    ensures PowerOfTwo(2) && PowerOfTwo(0x800_0000) && PowerOfTwo(0x2000_0000) && PowerOfTwo(64)
  {
    Powers();
    PowerTwo();
    PowerProduct(0x400_0000, 2);
    PowerProduct(0x1000_0000, 2);
    assert PowerOfTwo(16);
  }

  /** rec_upd, lines 269-282: the fields of a key and a payload. */
  method DecodeUpdate(key: nat, payload: nat) returns (f: UpdateFields)
    ensures forall g :: UpdateFits(g) && key == UpdateKey(g) && payload == UpdatePayload(g) ==> f == g
  {
    hide And, PowerOfTwo;
    Powers();
    HighPowers();
    FieldIs(key, 1, 0x400);
    FieldIs(key, 0x400, 0x400);
    FieldIs(key, 0x1000_0000, 2);
    FieldIs(key, 0x2000_0000, 2);
    FieldIs(key, 0x800_0000, 2);
    FieldIs(key, 0x400_0000, 2);
    FieldIs(key, 0x10_0000, 64);
    FieldIs(payload, 1, 0x1_0000);
    f := UpdateFields(Field(key, 0x10_0000, 64), Field(key, 0x2000_0000, 2), Field(key, 0x1000_0000, 2),
      Field(key, 0x800_0000, 2),
      Field(key, 0x400_0000, 2), Field(key, 0x400, 0x400), Field(key, 1, 0x400), payload / 0x1_0000,
        Field(payload, 1, 0x1_0000));
    forall g | UpdateFits(g) && key == UpdateKey(g) && payload == UpdatePayload(g)
      ensures f == g
    {
      UpdateFieldsOf(g);
    }
  }

  lemma UpdateFieldsOf(g: UpdateFields)
    requires UpdateFits(g)
    ensures UpdateKey(g) / 0x10_0000 % 64 == g.index && UpdateKey(g) / 0x2000_0000 % 2 == g.signVy
      && UpdateKey(g) / 0x1000_0000 % 2 == g.signVx
    ensures UpdateKey(g) / 0x800_0000 % 2 == g.signTheta && UpdateKey(g) / 0x400_0000 % 2 == g.signPsi
    ensures UpdateKey(g) / 0x400 % 0x400 == g.vy && UpdateKey(g) / 1 % 0x400 == g.vx
    ensures UpdatePayload(g) / 0x1_0000 == g.theta && UpdatePayload(g) / 1 % 0x1_0000 == g.psi
  {
    assert UpdateKey(g) / 0x400 == UpdateSigns(g) * 0x1_0000 + g.index * 0x400 + g.vy;
    assert UpdateKey(g) / 0x10_0000 == UpdateSigns(g) * 64 + g.index;
    assert UpdateKey(g) / 0x400_0000 == UpdateSigns(g);
    assert UpdateKey(g) / 0x800_0000 == 8 + g.signVy * 4 + g.signVx * 2 + g.signTheta;
    assert UpdateKey(g) / 0x1000_0000 == 4 + g.signVy * 2 + g.signVx;
    assert UpdateKey(g) / 0x2000_0000 == 2 + g.signVy;
  }

  /** The tests of eventNode and eventMaster tell the two kinds of message apart. */
  lemma KindsDistinct(e: ErrorFields, u: UpdateFields)
    requires ErrorFits(e) && UpdateFits(u)
    ensures And(ErrorKey(e), 0xF000_0000) == ERROR_MSG && And(ErrorKey(e), 0xC000_0000) != UPD_MSG
    ensures And(UpdateKey(u), 0xC000_0000) == UPD_MSG && And(UpdateKey(u), 0xF000_0000) != ERROR_MSG
  {
    hide And, PowerOfTwo;
    Powers();
    ComplementMask(ErrorKey(e), 0x1000_0000, 0x1_0000_0000);
    ComplementMask(ErrorKey(e), 0x4000_0000, 0x1_0000_0000);
    ComplementMask(UpdateKey(u), 0x1000_0000, 0x1_0000_0000);
    ComplementMask(UpdateKey(u), 0x4000_0000, 0x1_0000_0000);
    RemainderIs(ErrorKey(e), 0x1000_0000, 10, ErrorKey(e) - ERROR_MSG);
    RemainderIs(ErrorKey(e), 0x4000_0000, 2, ErrorKey(e) - 2 * 0x4000_0000);
    RemainderIs(UpdateKey(u), 0x4000_0000, 1, UpdateKey(u) - UPD_MSG);
    var q := 4 + u.signVy * 2 + u.signVx;
    RemainderIs(UpdateKey(u), 0x1000_0000, q, UpdateKey(u) - q * 0x1000_0000);
  }

  /** CORE_NB: which learner a core is. */
  function CoreNumber(chipY: nat, chipX: nat, coreID: nat): int {
    32 * chipY + 16 * chipX + (coreID - 1)
  }

  /** On 2 by 2 chips of 16 cores the number fits the index field and belongs to one core alone. */
  lemma CoreNumberUnique(chipY: nat, chipX: nat, coreID: nat, chipY': nat, chipX': nat, coreID': nat)
    requires chipY < 2 && chipX < 2 && 1 <= coreID <= 16 && chipY' < 2 && chipX' < 2 && 1 <= coreID' <= 16
    ensures 0 <= CoreNumber(chipY, chipX, coreID) < 64
    ensures CoreNumber(chipY, chipX, coreID) == CoreNumber(chipY', chipX', coreID') <==>
      chipY == chipY' && chipX == chipX' && coreID == coreID'
  {
  }
}
