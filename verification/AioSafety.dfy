/**
 What every run of the completion protocol keeps: results are final once __err says so, and no
 wake-up is lost as long as fewer than 2^32 of them fall between reading seq and going to sleep.
 */
module AioSafety {
  import opened Wrappers
  import opened Aio

  // ---------- requests ----------

  predicate Active(p: Phase) {
    p == Creating || p == Running || p == RetStored
  }

  predicate Done(p: Phase) {
    p == ErrStored || p == Counted || p == Finished
  }

  /** What one worker knows of its control block. */
  predicate WorkerOk(s: State, x: Worker) {
    x.cb < |s.controls|
    && 0 < x.gen <= s.controls[x.cb].gen
    && x.errno != EINPROGRESS && x.errno > 0
    && (Active(x.phase) ==> s.controls[x.cb].err == EINPROGRESS && s.controls[x.cb].gen == x.gen)
    && (x.phase == Failed && s.controls[x.cb].gen == x.gen ==> s.controls[x.cb].err == EINPROGRESS)
    && (x.phase == RetStored ==> s.controls[x.cb].ret == x.ret)
    && (Done(x.phase) && s.controls[x.cb].gen == x.gen ==>
      s.controls[x.cb].ret == x.ret && s.controls[x.cb].err == ErrorOf(x))
  }

  /** No two submissions are the same submission. */
  ghost predicate Distinct(s: State) {
    forall i, j :: 0 <= i < j < |s.workers| ==>
      s.workers[i].cb != s.workers[j].cb || s.workers[i].gen != s.workers[j].gen
  }

  ghost predicate WorkersOk(s: State) {
    Distinct(s) && forall i :: 0 <= i < |s.workers| ==> WorkerOk(s, s.workers[i])
  }

  // ---------- waiters ----------

  ghost predicate HasWorker(s: State, cb: nat, phase: Phase) {
    exists i :: 0 <= i < |s.workers| && s.workers[i].cb == cb && s.workers[i].phase == phase
  }

  // A request seen in progress after seq was read as last: it still is, or seq is yet to move, or it moved.
  ghost predicate Covered(s: State, slot: Option<nat>, last: nat) {
    Complete(s, slot) ==> HasWorker(s, slot.value, ErrStored) || s.count > last
  }

  /** The worker of the request has its wake-up still to perform. */
  ghost predicate WakePending(s: State, cb: nat) {
    HasWorker(s, cb, ErrStored) || HasWorker(s, cb, Counted)
  }

  ghost predicate SleepOk(s: State, slot: Option<nat>, last: nat, at: nat) {
    Complete(s, slot) ==> WakePending(s, slot.value) || at > last
  }

  /** The waiter's view of the requests it has looked at since it read seq. */
  ghost predicate WaiterOk(s: State, v: Waiter) {
    |v.slots| == |v.list| == |v.seen|
    && match v.pc
       case Scan(last, i) => last <= s.count && i <= |v.slots| && forall k :: 0 <= k < i ==>
         Covered(s, v.slots[k], last)
       case Wait(last) => last <= s.count && forall k :: 0 <= k < |v.slots| ==> Covered(s, v.slots[k], last)
       case Asleep(last, at) =>
         last <= at <= s.count && at % WRAP == last % WRAP && forall k :: 0 <= k < |v.slots| ==>
           SleepOk(s, v.slots[k], last, at)
       case _ => true
  }

  ghost predicate WaitersOk(s: State) {
    forall i :: 0 <= i < |s.waiters| ==> WaiterOk(s, s.waiters[i])
  }

  // ---------- what lio_wait has cleared ----------

  /** A slot is cleared for a submission that was over, and its error stays as it was seen. */
  predicate SlotOk(s: State, listed: Option<nat>, slot: Option<nat>, seen: Option<(nat, int)>) {
    (listed.Some? ==> listed.value < |s.controls|)
    && (slot == listed || slot == None)
    && (seen.Some? <==> listed.Some? && slot == None)
    && (seen.Some? ==>
          var (gen, err) := seen.value;
          err != EINPROGRESS && gen <= s.controls[listed.value].gen
          && (gen == s.controls[listed.value].gen ==> s.controls[listed.value].err == err))
  }

  ghost predicate SawError(v: Waiter) {
    exists k :: 0 <= k < |v.seen| && v.seen[k].Some? && v.seen[k].value.1 != 0
  }

  ghost predicate LioOk(s: State, v: Waiter) {
    |v.slots| == |v.list| == |v.seen|
    && (forall k :: 0 <= k < |v.list| ==> SlotOk(s, v.list[k], v.slots[k], v.seen[k]))
    && (v.gotErr <==> SawError(v))
    && (v.lio ==> match v.pc
                  case LioScan(i) => i <= |v.slots| && forall k :: 0 <= k < i ==> v.slots[k] == None
                  case Return(code) => (code == 0 || code == EIO) ==>
                    (forall k :: 0 <= k < |v.slots| ==> v.slots[k] == None) && (code == EIO <==> v.gotErr)
                  case _ => true)
    && (!v.lio ==> v.slots == v.list && !v.pc.LioScan?)
  }

  ghost predicate LiosOk(s: State) {
    forall i :: 0 <= i < |s.waiters| ==> LioOk(s, s.waiters[i])
  }

  ghost predicate Inv(s: State) {
    WorkersOk(s) && WaitersOk(s) && LiosOk(s)
  }

  // ---------- steps of workers ----------

  // A completed request keeps its result until it is submitted again.
  predicate Kept(c: Control, c': Control) {
    c.gen <= c'.gen && (c.err != EINPROGRESS && c'.gen == c.gen ==> c' == c)
  }

  ghost predicate ControlsKept(s: State, t: State) {
    |t.controls| == |s.controls| && forall cb :: 0 <= cb < |s.controls| ==> Kept(s.controls[cb], t.controls[cb])
  }

  // No thread is at work on a block that is not in progress or whose thread could not be created.
  lemma NotActive(s: State, cb: nat, i: nat)
    requires WorkersOk(s) && cb < |s.controls| && (s.controls[cb].err != EINPROGRESS || NotStarted(s, cb))
    requires i < |s.workers| && s.workers[i].cb == cb
    ensures !Active(s.workers[i].phase)
  {
    assert WorkerOk(s, s.workers[i]);
    if s.controls[cb].err == EINPROGRESS {
      var w: nat :| Orphan(s, w) && s.workers[w].cb == cb;
      assert i < w ==> s.workers[i].cb != s.workers[w].cb || s.workers[i].gen != s.workers[w].gen;
      assert w < i ==> s.workers[w].cb != s.workers[i].cb || s.workers[w].gen != s.workers[i].gen;
    }
  }

  lemma SubmitWorkers(s: State, cb: nat, ret: int, errno: int)
    requires WorkersOk(s) && CanSubmit(s, cb, ret, errno)
    ensures WorkersOk(DoSubmit(s, cb, ret, errno)) && ControlsKept(s, DoSubmit(s, cb, ret, errno))
  {
    var t := DoSubmit(s, cb, ret, errno);
    forall i | 0 <= i < |t.workers|
      ensures WorkerOk(t, t.workers[i])
    {
      if i < |s.workers| {
        assert WorkerOk(s, s.workers[i]);
        if s.workers[i].cb == cb { NotActive(s, cb, i); }
      }
    }
    forall i, j | 0 <= i < j < |t.workers|
      ensures t.workers[i].cb != t.workers[j].cb || t.workers[i].gen != t.workers[j].gen
    {
      assert WorkerOk(s, s.workers[i]);
    }
  }

  /** One step of worker w: its own next phase, and perhaps the block it works on. */
  ghost predicate WorkerStep(s: State, t: State, w: nat) {
    w < |s.workers| && |t.workers| == |s.workers| && |t.controls| == |s.controls|
    && s.workers[w].cb < |s.controls|
    && t.workers[w] == s.workers[w].(phase := t.workers[w].phase)
    && (forall i :: 0 <= i < |s.workers| && i != w ==> t.workers[i] == s.workers[i])
    && (forall cb :: 0 <= cb < |s.controls| && cb != s.workers[w].cb ==> t.controls[cb] == s.controls[cb])
    && t.controls[s.workers[w].cb].gen == s.controls[s.workers[w].cb].gen
  }

  lemma StepWorkers(s: State, t: State, w: nat)
    requires WorkersOk(s) && WorkerStep(s, t, w) && WorkerOk(t, t.workers[w])
    requires t.controls[s.workers[w].cb] == s.controls[s.workers[w].cb] || Active(s.workers[w].phase)
    ensures WorkersOk(t) && ControlsKept(s, t)
  {
    assert WorkerOk(s, s.workers[w]);
    forall i | 0 <= i < |t.workers| && i != w
      ensures WorkerOk(t, t.workers[i])
    {
      assert WorkerOk(s, s.workers[i]);
      if s.workers[i].cb == s.workers[w].cb {
        assert s.workers[i].gen != s.workers[w].gen;
      }
    }
    forall i, j | 0 <= i < j < |t.workers|
      ensures t.workers[i].cb != t.workers[j].cb || t.workers[i].gen != t.workers[j].gen
    {
      assert s.workers[i].cb != s.workers[j].cb || s.workers[i].gen != s.workers[j].gen;
    }
  }

  predicate WorkerEvent(e: Event) {
    e.Create? || e.StoreRet? || e.StoreErr? || e.Count? || e.Wake?
  }

  lemma WorkerEventKeeps(s: State, e: Event)
    requires WorkersOk(s) && WorkerEvent(e) && Enabled(s, e)
    ensures WorkersOk(Next(s, e)) && ControlsKept(s, Next(s, e))
  {
    var w := e.w;
    assert WorkerOk(s, s.workers[w]);
    StepWorkers(s, Next(s, e), w);
  }

  // ---------- what a step of a worker leaves of a waiter's view ----------

  lemma KeepsWorker(s: State, t: State, w: nat, cb: nat, p: Phase)
    requires WorkerStep(s, t, w) && HasWorker(s, cb, p)
    requires s.workers[w].cb != cb || s.workers[w].phase != p
    ensures HasWorker(t, cb, p)
  {
    var i :| 0 <= i < |s.workers| && s.workers[i].cb == cb && s.workers[i].phase == p;
    assert t.workers[i] == s.workers[i];
  }

  lemma GainsWorker(s: State, t: State, w: nat)
    requires WorkerStep(s, t, w)
    ensures HasWorker(t, s.workers[w].cb, t.workers[w].phase)
  {
  }

  lemma StepCovered(s: State, e: Event, slot: Option<nat>, last: nat)
    requires WorkersOk(s) && WorkerEvent(e) && Enabled(s, e) && last <= s.count && Covered(s, slot, last)
    ensures Covered(Next(s, e), slot, last)
  {
    var t := Next(s, e);
    var w := e.w;
    if Complete(t, slot) && !e.Count? {
      if e.StoreErr? && slot.value == s.workers[w].cb {
        GainsWorker(s, t, w);
      } else if s.count <= last {
        KeepsWorker(s, t, w, slot.value, ErrStored);
      }
    }
  }

  lemma StepSleep(s: State, e: Event, slot: Option<nat>, last: nat, at: nat)
    requires WorkersOk(s) && WorkerEvent(e) && Enabled(s, e) && !e.Wake? && SleepOk(s, slot, last, at)
    ensures SleepOk(Next(s, e), slot, last, at)
  {
    var t := Next(s, e);
    var w := e.w;
    if Complete(t, slot) && at <= last {
      if slot.value == s.workers[w].cb && (e.StoreErr? || e.Count?) {
        GainsWorker(s, t, w);
      } else if HasWorker(s, slot.value, ErrStored) {
        KeepsWorker(s, t, w, slot.value, ErrStored);
      } else {
        KeepsWorker(s, t, w, slot.value, Counted);
      }
    }
  }

  lemma StepWaiter(s: State, e: Event, v: Waiter)
    requires WorkersOk(s) && WorkerEvent(e) && Enabled(s, e) && WaiterOk(s, v)
    ensures WaiterOk(Next(s, e), if e.Wake? then Woken(v) else v)
  {
    var t := Next(s, e);
    match v.pc
    case Scan(last, i) =>
      forall k | 0 <= k < i ensures Covered(t, v.slots[k], last) { StepCovered(s, e, v.slots[k], last); }
    case Wait(last) =>
      forall k | 0 <= k < |v.slots| ensures Covered(t, v.slots[k], last) { StepCovered(s, e, v.slots[k], last); }
    case Asleep(last, at) =>
      if !e.Wake? {
        forall k | 0 <= k < |v.slots|
          ensures SleepOk(t, v.slots[k], last, at) { StepSleep(s, e, v.slots[k], last, at); }
      }
    case _ =>
  }

  lemma SubmitHas(s: State, cb: nat, ret: int, errno: int, c: nat, p: Phase)
    requires CanSubmit(s, cb, ret, errno) && HasWorker(s, c, p)
    ensures HasWorker(DoSubmit(s, cb, ret, errno), c, p)
  {
    var i :| 0 <= i < |s.workers| && s.workers[i].cb == c && s.workers[i].phase == p;
    assert DoSubmit(s, cb, ret, errno).workers[i] == s.workers[i];
  }

  lemma SubmitCovers(s: State, cb: nat, ret: int, errno: int, slot: Option<nat>)
    requires CanSubmit(s, cb, ret, errno)
    ensures forall last :: Covered(s, slot, last) ==> Covered(DoSubmit(s, cb, ret, errno), slot, last)
    ensures forall last, at :: SleepOk(s, slot, last, at) ==> SleepOk(DoSubmit(s, cb, ret, errno), slot, last, at)
  {
    if Complete(s, slot) {
      if HasWorker(s, slot.value, ErrStored) { SubmitHas(s, cb, ret, errno, slot.value, ErrStored); }
      if HasWorker(s, slot.value, Counted) { SubmitHas(s, cb, ret, errno, slot.value, Counted); }
    }
  }

  lemma SubmitWaiter(s: State, cb: nat, ret: int, errno: int, v: Waiter)
    requires CanSubmit(s, cb, ret, errno) && WaiterOk(s, v)
    ensures WaiterOk(DoSubmit(s, cb, ret, errno), v)
  {
    forall k | 0 <= k < |v.slots|
      ensures forall last :: Covered(s, v.slots[k], last) ==> Covered(DoSubmit(s, cb, ret, errno), v.slots[k], last)
      ensures forall last, at :: SleepOk(s, v.slots[k], last, at) ==>
        SleepOk(DoSubmit(s, cb, ret, errno), v.slots[k], last, at)
    {
      SubmitCovers(s, cb, ret, errno, v.slots[k]);
    }
  }

  lemma KeptLio(s: State, t: State, v: Waiter)
    requires LioOk(s, v) && ControlsKept(s, t)
    ensures LioOk(t, v) && LioOk(t, Woken(v))
  {
    forall k | 0 <= k < |v.list|
      ensures SlotOk(t, v.list[k], v.slots[k], v.seen[k])
    {
      assert SlotOk(s, v.list[k], v.slots[k], v.seen[k]);
      if v.seen[k].Some? { assert Kept(s.controls[v.list[k].value], t.controls[v.list[k].value]); }
    }
    assert SawError(Woken(v)) == SawError(v);
  }

  lemma RequestStepKeeps(s: State, e: Event)
    requires Inv(s) && Enabled(s, e) && (e.Submit? || WorkerEvent(e))
    ensures Inv(Next(s, e)) && ControlsKept(s, Next(s, e))
  {
    var t := Next(s, e);
    if e.Submit? { SubmitWorkers(s, e.cb, e.ret, e.errno); } else { WorkerEventKeeps(s, e); }
    forall i | 0 <= i < |t.waiters|
      ensures WaiterOk(t, t.waiters[i]) && LioOk(t, t.waiters[i])
    {
      assert WaiterOk(s, s.waiters[i]) && LioOk(s, s.waiters[i]);
      if e.Submit? { SubmitWaiter(s, e.cb, e.ret, e.errno, s.waiters[i]); } else { StepWaiter(s, e, s.waiters[i]); }
      KeptLio(s, t, s.waiters[i]);
    }
  }

  // ---------- steps of waiters ----------

  lemma NextWaiterOk(s: State, v: Waiter)
    requires WaiterOk(s, v)
    ensures WaiterOk(s, WaiterNext(s, v))
  {
  }

  // Clearing slot i of the list.
  lemma ClearKeeps(s: State, v: Waiter, i: nat)
    requires LioOk(s, v) && v.pc == LioScan(i) && v.lio && i < |v.slots| && Complete(s, v.slots[i])
    ensures LioOk(s, LioNext(s, v, i))
  {
    var x := LioNext(s, v, i);
    var c := s.controls[v.slots[i].value];
    assert SlotOk(s, v.list[i], v.slots[i], v.seen[i]);
    forall k | 0 <= k < |v.list|
      ensures SlotOk(s, x.list[k], x.slots[k], x.seen[k])
    {
      assert SlotOk(s, v.list[k], v.slots[k], v.seen[k]);
    }
    assert x.seen[i] == Some((c.gen, c.err));
    if SawError(v) {
      var k :| 0 <= k < |v.seen| && v.seen[k].Some? && v.seen[k].value.1 != 0;
      assert x.seen[k] == v.seen[k];
    }
    if SawError(x) && c.err == 0 {
      var k :| 0 <= k < |x.seen| && x.seen[k].Some? && x.seen[k].value.1 != 0;
      assert v.seen[k] == x.seen[k];
    }
  }

  lemma SameSeen(v: Waiter, x: Waiter)
    requires x.seen == v.seen
    ensures SawError(x) == SawError(v)
  {
  }

  lemma NextLioOk(s: State, v: Waiter)
    requires LioOk(s, v) && WaiterOk(s, v)
    ensures LioOk(s, WaiterNext(s, v))
  {
    var x := WaiterNext(s, v);
    if v.pc.LioScan? && v.pc.i < |v.slots| && Complete(s, v.slots[v.pc.i]) {
      ClearKeeps(s, v, v.pc.i);
    } else {
      SameSeen(v, x);
    }
  }

  // A waiter's view does not depend on the other waiters.
  lemma OtherWaiters(s: State, t: State, v: Waiter)
    requires t.controls == s.controls && t.workers == s.workers && t.count == s.count
    ensures WaiterOk(s, v) ==> WaiterOk(t, v)
    ensures LioOk(s, v) ==> LioOk(t, v)
  {
    assert forall cb, p :: HasWorker(s, cb, p) == HasWorker(t, cb, p);
  }

  lemma WaiterEventKeeps(s: State, e: Event)
    requires Inv(s) && Enabled(s, e) && (e.Call? || e.WaiterStep? || e.WaitEnds?)
    ensures Inv(Next(s, e)) && ControlsKept(s, Next(s, e))
  {
    var t := Next(s, e);
    assert WorkersOk(t) by {
      forall i | 0 <= i < |t.workers| ensures WorkerOk(t, t.workers[i]) { assert WorkerOk(s, s.workers[i]); }
    }
    forall i | 0 <= i < |t.waiters|
      ensures WaiterOk(t, t.waiters[i]) && LioOk(t, t.waiters[i])
    {
      if i < |s.waiters| { assert WaiterOk(s, s.waiters[i]) && LioOk(s, s.waiters[i]); }
      OtherWaiters(s, t, t.waiters[i]);
      if e.WaiterStep? && i == e.v {
        NextWaiterOk(s, s.waiters[i]);
        NextLioOk(s, s.waiters[i]);
      } else if e.WaitEnds? && i == e.v {
        SameSeen(s.waiters[i], t.waiters[i]);
      }
    }
  }

  /** Every event keeps the invariant, and the results of completed requests. */
  lemma StepKeeps(s: State, e: Event)
    requires Inv(s) && Enabled(s, e)
    ensures Inv(Next(s, e)) && ControlsKept(s, Next(s, e))
  {
    if e.Submit? || WorkerEvent(e) { RequestStepKeeps(s, e); } else { WaiterEventKeeps(s, e); }
  }

  lemma {:induction false} RunKeeps(s: State, events: seq<Event>, t: State)
    requires Inv(s) && Runs(s, events, t)
    ensures Inv(t) && ControlsKept(s, t)
    decreases |events|
  {
    if events != [] {
      StepKeeps(s, events[0]);
      var m := Next(s, events[0]);
      RunKeeps(m, events[1..], t);
      forall cb | 0 <= cb < |s.controls|
        ensures Kept(s.controls[cb], t.controls[cb])
      {
        assert Kept(s.controls[cb], m.controls[cb]) && Kept(m.controls[cb], t.controls[cb]);
      }
    }
  }

  lemma StartOk(n: nat)
    ensures Inv(Start(n))
  {
  }
}
