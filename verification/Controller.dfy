/**
 The controller's use of its packets (BallController.c and network.c): the position averager, the
 master that broadcasts errors, and the slaves that must apply each broadcast once.
 */
module Controller {
  import opened Words
  import opened Packets

  // ---------- the position averager ----------

  function SumOf(s: seq<nat>): nat {
    if s == [] then 0 else SumOf(s[..|s| - 1]) + s[|s| - 1]
  }

  lemma {:induction false} SumTail(s: seq<nat>)
    requires s != []
    ensures SumOf(s) == s[0] + SumOf(s[1..])
  {
    if |s| > 1 {
      SumTail(s[..|s| - 1]);
      assert s[1..][..|s| - 2] == s[..|s| - 1][1..];
    }
  }

  lemma {:induction false} SumBound(s: seq<nat>, top: nat)
    requires forall i :: 0 <= i < |s| ==> s[i] <= top
    ensures SumOf(s) <= |s| * top
  {
    if s != [] {
      SumBound(s[..|s| - 1], top);
      assert |s| * top == (|s| - 1) * top + top;
    }
  }

  /** Sixteen zeros and then every accepted sample. */
  function Padded(samples: seq<nat>): seq<nat> {
    seq(16, _ => 0) + samples
  }

  /** The last sixteen. */
  function Window(samples: seq<nat>): (w: seq<nat>)
    ensures |w| == 16
  {
    Padded(samples)[|samples|..]
  }

  // Moving the window on by one sample.
  lemma WindowMoves(samples: seq<nat>, x: nat)
    ensures SumOf(Window(samples + [x])) == SumOf(Window(samples)) - Padded(samples)[|samples|] + x
  {
    var w, n := Window(samples), Window(samples + [x]);
    SumTail(w);
    assert n[..15] == w[1..];
  }

  /** Slot p % 16 of the ring holds sample p of the window. */
  ghost predicate RingHolds(ring: seq<nat>, samples: seq<nat>)
    requires |ring| == 16
  {
    forall p :: |samples| <= p < |samples| + 16 ==> ring[p % 16] == Padded(samples)[p]
  }

  // Overwriting the oldest sample.
  lemma RingMoves(ring: seq<nat>, samples: seq<nat>, x: nat)
    requires |ring| == 16 && RingHolds(ring, samples)
    ensures ring[|samples| % 16] == Padded(samples)[|samples|]
    ensures RingHolds(ring[|samples| % 16 := x], samples + [x])
  {
    SlotHolds(samples, x);
    var now := ring[|samples| % 16 := x];
    var n := |samples|;
    forall p | n + 1 <= p < n + 17
      ensures now[p % 16] == Padded(samples + [x])[p]
    {
      if p < n + 16 {
        assert Padded(samples + [x])[p] == Padded(samples)[p];
      }
    }
  }

  /** One axis of compute_pos: a ring of 16 samples, its running sum, and the mean. */
  class Averager {
    const buffer: array<nat>
    var total: int
    var index: nat
    var pos: int
    var computed: bool
    ghost var samples: seq<nat>

    ghost predicate Valid()
      reads this, buffer
    {
      buffer.Length == 16 && index == |samples| % 16
      && RingHolds(buffer[..], samples)
      && (forall i :: 0 <= i < |samples| ==> samples[i] < 128)
      && total == SumOf(Window(samples)) && pos == total / 16
      && (computed <==> |samples| >= 16)
    }

    constructor ()
      ensures Valid() && samples == [] && fresh(buffer)
    {
      buffer := new nat[16](_ => 0);
      total, index, pos, computed, samples := 0, 0, 0, false, [];
      new;
      ZeroSum(16);
      assert Window([]) == seq(16, _ => 0);
    }

    /** compute_pos, lines 43-61; near is its distance test. */
    method ComputePos(cur: nat, near: bool)
      requires Valid() && cur < 128
      modifies this, buffer
      ensures Valid() && samples == old(samples) + if !old(computed) || near then [cur] else []
    {
      hide RingHolds, SumOf, Window, Padded;
      if !computed || near {
        WindowMoves(samples, cur);
        RingMoves(buffer[..], samples, cur);
        ghost var ring := buffer[..];
        total := total - buffer[index] + cur;
        buffer[index] := cur;
        assert buffer[..] == ring[index := cur];
        pos := total / 16;
        if !computed && index == 15 {
          computed := true;
        }
        index := (index + 1) % 16;
        samples := samples + [cur];
      }
    }
  }

  lemma {:induction false} ZeroSum(n: nat)
    ensures SumOf(seq(n, _ => 0)) == 0
  {
    if n > 0 {
      ZeroSum(n - 1);
      assert seq(n, _ => 0)[..n - 1] == seq(n - 1, _ => 0);
    }
  }

  // Which of the sixteen slots the new sample takes.
  lemma SlotHolds(samples: seq<nat>, x: nat)
    ensures Padded(samples + [x])[..|samples| + 16] == Padded(samples) && Padded(samples + [x])[|samples| + 16] == x
    ensures forall p :: |samples| < p < |samples| + 16 ==> p % 16 != |samples| % 16
    ensures (|samples| + 16) % 16 == |samples| % 16
  {
  }

  /** The position always fits seven bits, and is the mean of the last sixteen accepted samples. */
  lemma PositionFits(samples: seq<nat>)
    requires forall i :: 0 <= i < |samples| ==> samples[i] < 128
    ensures 0 <= SumOf(Window(samples)) / 16 < 128
  {
    SumBound(Window(samples), 127);
  }

  // ---------- the broadcast of an error ----------

  /** What a slave reads out of one broadcast. */
  datatype Heard = Heard(counter: nat, x: nat, y: nat, errorX: real, errorY: real)

  /** counter is the number of broadcasts so far, modulo 50. */
  class Master {
    var counter: nat
    ghost var sent: nat

    ghost predicate Valid()
      reads this
    {
      counter == CounterOf(sent)
    }

    constructor ()
      ensures Valid() && sent == 0
    {
      counter, sent := 0, 0;
    }

    /** send_err, lines 151-174. */
    method SendErr(errorX: real, errorY: real, x: nat, y: nat) returns (key: nat, payload: nat)
      requires Valid() && Unit(errorX) && Unit(errorY) && x < 128 && y < 128
      modifies this
      ensures Valid() && sent == old(sent) + 1
      ensures key == ErrorKey(Sent(errorX, errorY, x, y, counter))
        && payload == ErrorPayload(Sent(errorX, errorY, x, y, counter))
    {
      MagnitudeBound(errorX, 10000);
      MagnitudeBound(errorY, 10000);
      counter := (counter + 1) % 50;
      sent := sent + 1;
      payload := EncodePayload(Magnitude(errorX, 10000), Magnitude(errorY, 10000));
      key := EncodeErrorKey(errorX < 0.0, errorY < 0.0, x, y, counter);
    }
  }

  function Sent(errorX: real, errorY: real, x: nat, y: nat, counter: nat): ErrorFields {
    ErrorFields(counter, SignBit(errorX), SignBit(errorY), x, y, Magnitude(errorX, 10000), Magnitude(errorY, 10000))
  }

  /** r is v with its sign, less than one step of 1/scale nearer to zero. */
  predicate Arrives(r: real, v: real, scale: nat)
    requires scale > 0
  {
    if v >= 0.0 then 0.0 <= r <= v && v - r < 1.0 / (scale as real)
    else v <= r <= 0.0 && r - v < 1.0 / (scale as real)
  }

  /** rec_err, lines 177-202, and the counter that eventNode compares. */
  method RecErr(key: nat, payload: nat) returns (h: Heard)
    ensures forall errorX, errorY, x, y, counter: nat {:trigger Sent(errorX, errorY, x, y, counter)} ::
      Unit(errorX) && Unit(errorY) && x < 128 && y < 128 && counter < 50
      && key == ErrorKey(Sent(errorX, errorY, x, y, counter))
      && payload == ErrorPayload(Sent(errorX, errorY, x, y, counter))
      ==> h.counter == counter && h.x == x && h.y == y
          && Arrives(h.errorX, errorX, 10000) && Arrives(h.errorY, errorY, 10000)
  {
    var f := DecodeError(key, payload);
    h := Heard(f.counter, f.x, f.y, Restored(f.signX, f.magX, 10000), Restored(f.signY, f.magY, 10000));
    forall errorX, errorY, x, y, counter: nat {:trigger Sent(errorX, errorY, x, y, counter)} |
      Unit(errorX) && Unit(errorY) && x < 128 && y < 128 && counter < 50
      && key == ErrorKey(Sent(errorX, errorY, x, y, counter))
      && payload == ErrorPayload(Sent(errorX, errorY, x, y, counter))
      ensures h.counter == counter && h.x == x && h.y == y
      ensures Arrives(h.errorX, errorX, 10000) && Arrives(h.errorY, errorY, 10000)
    {
      MagnitudeBound(errorX, 10000);
      MagnitudeBound(errorY, 10000);
      assert f == Sent(errorX, errorY, x, y, counter);
      RestoredClose(errorX, 10000);
      RestoredClose(errorY, 10000);
    }
  }

  // ---------- a learner's update ----------

  /** range of spin1_math.c. */
  function Range(v: real, lower: real, upper: real): real {
    if v > upper then upper else if v < lower then lower else v
  }

  function Clipped(v: real): (c: real)
    ensures Unit(c)
  {
    Range(v, -1.0, 1.0)
  }

  function SentUpdate(index: nat, vx: real, vy: real, theta: real, psi: real): UpdateFields {
    UpdateFields(index, SignBit(Clipped(vy)), SignBit(Clipped(vx)), SignBit(Clipped(theta)), SignBit(Clipped(psi)),
      Magnitude(Clipped(vy), 1000), Magnitude(Clipped(vx), 1000), Magnitude(Clipped(theta), 10000),
        Magnitude(Clipped(psi), 10000))
  }

  lemma UpdateBounds(index: nat, vx: real, vy: real, theta: real, psi: real)
    requires index < 64
    ensures UpdateFits(SentUpdate(index, vx, vy, theta, psi))
  {
    MagnitudeBound(Clipped(vx), 1000);
    MagnitudeBound(Clipped(vy), 1000);
    MagnitudeBound(Clipped(theta), 10000);
    MagnitudeBound(Clipped(psi), 10000);
  }

  /** send_upd, lines 217-265, from the four values before they are clipped. */
  method SendUpd(index: nat, vx: real, vy: real, theta: real, psi: real) returns (key: nat, payload: nat)
    requires index < 64
    ensures key == UpdateKey(SentUpdate(index, vx, vy, theta, psi))
    ensures payload == UpdatePayload(SentUpdate(index, vx, vy, theta, psi))
  {
    var f := SentUpdate(index, vx, vy, theta, psi);
    UpdateBounds(index, vx, vy, theta, psi);
    key := EncodeUpdateKey(f);
    payload := EncodePayload(f.theta, f.psi);
  }

  /** What rec_upd makes of a packet; the value for V_y is decoded and then not stored. */
  datatype Update = Update(index: nat, vx: real, vy: real, theta: real, psi: real)

  /** The update u is the one sent, up to quantisation. */
  predicate Received(u: Update, index: nat, vx: real, vy: real, theta: real, psi: real) {
    u.index == index && Arrives(u.vx, Clipped(vx), 1000) && Arrives(u.vy, Clipped(vy), 1000)
    && Arrives(u.theta, Clipped(theta), 10000) && Arrives(u.psi, Clipped(psi), 10000)
  }

  /** rec_upd, lines 269-314. */
  method RecUpd(key: nat, payload: nat) returns (u: Update)
    ensures forall index: nat, vx, vy, theta, psi {:trigger SentUpdate(index, vx, vy, theta, psi)} ::
      index < 64 && key == UpdateKey(SentUpdate(index, vx, vy, theta, psi))
      && payload == UpdatePayload(SentUpdate(index, vx, vy, theta, psi))
      ==> Received(u, index, vx, vy, theta, psi)
  {
    hide UpdateKey, UpdatePayload, SentUpdate, Clipped;
    var f := DecodeUpdate(key, payload);
    u := RestoredUpdate(f);
    forall index: nat, vx, vy, theta, psi {:trigger SentUpdate(index, vx, vy, theta, psi)} |
      index < 64 && key == UpdateKey(SentUpdate(index, vx, vy, theta, psi))
      && payload == UpdatePayload(SentUpdate(index, vx, vy, theta, psi))
      ensures Received(u, index, vx, vy, theta, psi)
    {
      UpdateBounds(index, vx, vy, theta, psi);
      UpdateArrives(index, vx, vy, theta, psi);
    }
  }

  function RestoredUpdate(f: UpdateFields): Update {
    Update(f.index, Restored(f.signVx, f.vx, 1000), Restored(f.signVy, f.vy, 1000),
      Restored(f.signTheta, f.theta, 10000),
      Restored(f.signPsi, f.psi, 10000))
  }

  lemma UpdateArrives(index: nat, vx: real, vy: real, theta: real, psi: real)
    ensures Received(RestoredUpdate(SentUpdate(index, vx, vy, theta, psi)), index, vx, vy, theta, psi)
  {
    hide Magnitude, Restored, Clipped, SignBit;
    RestoredClose(Clipped(vx), 1000);
    RestoredClose(Clipped(vy), 1000);
    RestoredClose(Clipped(theta), 10000);
    RestoredClose(Clipped(psi), 10000);
  }

  // ---------- repeats ----------

  /** The counter of the k-th broadcast. */
  function CounterOf(k: nat): nat {
    k % 50
  }

  /** The broadcasts that a slave applies, given the numbers of those that arrive and the last counter it kept. */
  function Applied(stream: seq<nat>, last: nat): seq<nat>
    decreases |stream|
  {
    if stream == [] then []
    else if CounterOf(stream[0]) != last then [stream[0]] + Applied(stream[1..], CounterOf(stream[0]))
    else Applied(stream[1..], last)
  }

  /** The same with each broadcast named once. */
  function Once(stream: seq<nat>, last: nat): seq<nat>
    decreases |stream|
  {
    if stream == [] then []
    else if stream[0] != last then [stream[0]] + Once(stream[1..], stream[0])
    else Once(stream[1..], last)
  }

  /** In order, starting after broadcast number last. */
  predicate InOrder(stream: seq<nat>, last: nat)
    decreases |stream|
  {
    stream == [] || (last <= stream[0] && InOrder(stream[1..], stream[0]))
  }

  /**
   Somewhere the number of an arrival exceeds that of the one before by a multiple of fifty that
   is not zero: 49 broadcasts between them are missing, or 99, and so on.
   */
  predicate StepsFifty(stream: seq<nat>, last: nat)
    decreases |stream|
  {
    stream != [] && ((stream[0] != last && (stream[0] - last) % 50 == 0) || StepsFifty(stream[1..], stream[0]))
  }

  lemma SameCounter(a: nat, b: nat)
    requires a <= b
    ensures CounterOf(a) == CounterOf(b) <==> (b - a) % 50 == 0
  {
  }

  lemma {:induction false} OnceRises(stream: seq<nat>, last: nat)
    requires InOrder(stream, last)
    ensures forall i :: 0 <= i < |Once(stream, last)| ==> Once(stream, last)[i] > last
    ensures forall i, j :: 0 <= i < j < |Once(stream, last)| ==> Once(stream, last)[i] < Once(stream, last)[j]
    ensures forall k :: k in stream && k != last ==> k in Once(stream, last)
    decreases |stream|
  {
    if stream != [] {
      OnceRises(stream[1..], stream[0]);
    }
  }

  lemma {:induction false} AppliedFewer(stream: seq<nat>, last: nat)
    requires InOrder(stream, last)
    ensures |Applied(stream, CounterOf(last))| <= |Once(stream, last)|
    ensures StepsFifty(stream, last) ==> |Applied(stream, CounterOf(last))| < |Once(stream, last)|
    ensures !StepsFifty(stream, last) ==> Applied(stream, CounterOf(last)) == Once(stream, last)
    decreases |stream|
  {
    if stream != [] {
      SameCounter(last, stream[0]);
      AppliedFewer(stream[1..], stream[0]);
      if stream[0] != last && CounterOf(stream[0]) == CounterOf(last) {
        assert Applied(stream, CounterOf(last)) == Applied(stream[1..], CounterOf(stream[0]));
      }
    }
  }

  /**
   A slave applies each broadcast that reaches it exactly once, in order, exactly when no two
   successive arrivals are a multiple of fifty apart, repeats not counting.  Broadcasts are
   numbered from 1.
   */
  lemma ExactlyOnceIff(stream: seq<nat>)
    requires InOrder(stream, 0)
    ensures Applied(stream, 0) == Once(stream, 0) <==> !StepsFifty(stream, 0)
  {
    AppliedFewer(stream, 0);
  }

  /** The slave: node_counter and what it has applied. */
  class Slave {
    var nodeCounter: nat
    var simCount: nat
    ghost var applied: seq<nat>

    constructor ()
      ensures nodeCounter == 0 && simCount == 1 && applied == []
    {
      nodeCounter, simCount, applied := 0, 1, [];
    }

    /** eventNode, lines 92-108, for the k-th broadcast. */
    method EventNode(counter: nat, ghost k: nat)
      requires counter == CounterOf(k)
      modifies this
      ensures nodeCounter == counter
      ensures applied == old(applied) + Applied([k], old(nodeCounter))
      ensures simCount - |applied| == old(simCount) - old(|applied|)
    {
      if counter != nodeCounter {
        simCount := simCount + 1;
        nodeCounter := counter;
        applied := applied + [k];
      }
      assert Applied([], nodeCounter) == [];
    }
  }

  /** The counter that a slave keeps after a stream. */
  function LastCounter(stream: seq<nat>, last: nat): nat
    decreases |stream|
  {
    if stream == [] then last else LastCounter(stream[1..], CounterOf(stream[0]))
  }

  lemma {:induction false} AppliedJoin(a: seq<nat>, b: seq<nat>, last: nat)
    ensures Applied(a + b, last) == Applied(a, last) + Applied(b, LastCounter(a, last))
    ensures LastCounter(a + b, last) == LastCounter(b, LastCounter(a, last))
    decreases |a|
  {
    if a == [] {
      assert a + b == b;
    } else {
      assert (a + b)[0] == a[0] && (a + b)[1..] == a[1..] + b;
      AppliedJoin(a[1..], b, CounterOf(a[0]));
    }
  }

  /** A slave fed a whole stream of packets. */
  method Listen(s: Slave, stream: seq<nat>)
    requires s.nodeCounter == 0 && s.applied == [] && InOrder(stream, 0)
    modifies s
    ensures s.applied == Applied(stream, 0)
    ensures s.applied == Once(stream, 0) <==> !StepsFifty(stream, 0)
  {
    for i := 0 to |stream|
      invariant s.applied == Applied(stream[..i], 0) && s.nodeCounter == LastCounter(stream[..i], 0)
    {
      assert stream[..i + 1] == stream[..i] + [stream[i]];
      AppliedJoin(stream[..i], [stream[i]], 0);
      s.EventNode(CounterOf(stream[i]), stream[i]);
      assert LastCounter([stream[i]], 0) == LastCounter([], CounterOf(stream[i])) == CounterOf(stream[i]);
    }
    assert stream[..|stream|] == stream;
    ExactlyOnceIff(stream);
  }
}
