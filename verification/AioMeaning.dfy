/**
 The guarantees of the completion protocol, over every run from any number of control blocks.
 */
module AioMeaning {
  import opened Wrappers
  import opened Aio
  import opened AioSafety

  /** A state that some interleaving reaches. */
  ghost predicate Reachable(s: State) {
    exists n: nat, events :: Runs(Start(n), events, s)
  }

  lemma ReachableOk(s: State)
    requires Reachable(s)
    ensures Inv(s)
  {
    var n: nat, events :| Runs(Start(n), events, s);
    StartOk(n);
    RunKeeps(Start(n), events, s);
  }

  /** Waiter v sleeps although slot k of its list is complete and no wake-up is on its way. */
  ghost predicate Lost(s: State, v: nat, k: nat) {
    v < |s.waiters| && s.waiters[v].pc.Asleep? && k < |s.waiters[v].slots|
    && Complete(s, s.waiters[v].slots[k]) && !WakePending(s, s.waiters[v].slots[k].value)
  }

  /**
   No lost wake-up: a sleeper with a complete request and no wake-up on its way went to sleep a
   multiple of 2^32 completions after it read seq, and not at once.
   */
  lemma NoLostWake(s: State, v: nat, k: nat)
    requires Reachable(s) && Lost(s, v, k)
    ensures var c := s.waiters[v].pc.at - s.waiters[v].pc.last;
      c >= WRAP && c % WRAP == 0
  {
    ReachableOk(s);
    assert WaiterOk(s, s.waiters[v]);
    var last, at := s.waiters[v].pc.last, s.waiters[v].pc.at;
    assert SleepOk(s, s.waiters[v].slots[k], last, at);
    WholeTurns(last, at);
  }

  lemma WholeTurns(last: nat, at: nat)
    requires last < at && at % WRAP == last % WRAP
    ensures at >= last + WRAP && (at - last) % WRAP == 0
  {
  }

  /**
   The exact condition, for any waiter about to sleep while a request of its list is complete and
   no wake-up for it is on its way: it goes to sleep, and the wake-up is lost, if and only if the
   number of completions since it read seq is a multiple of 2^32 and not zero.
   */
  lemma LostWakeIff(s: State, v: nat, k: nat)
    requires Reachable(s) && v < |s.waiters| && s.waiters[v].pc.Wait? && k < |s.waiters[v].slots|
    requires Complete(s, s.waiters[v].slots[k]) && !WakePending(s, s.waiters[v].slots[k].value)
    ensures var c := s.count - s.waiters[v].pc.last;
      Lost(Next(s, WaiterStep(v)), v, k) <==> c >= WRAP && c % WRAP == 0
  {
    ReachableOk(s);
    assert WaiterOk(s, s.waiters[v]);
    var last, t := s.waiters[v].pc.last, Next(s, WaiterStep(v));
    assert Covered(s, s.waiters[v].slots[k], last);
    assert t.workers == s.workers && t.controls == s.controls;
    SameTurn(last, s.count);
  }

  lemma SameTurn(last: nat, count: nat)
    requires last < count
    ensures count % WRAP == last % WRAP <==> count - last >= WRAP && (count - last) % WRAP == 0
  {
  }

  /** The pending wake-up reaches every sleeper. */
  lemma WakeReaches(s: State, w: nat, v: nat)
    requires Enabled(s, Wake(w)) && v < |s.waiters|
    ensures |Next(s, Wake(w)).waiters| == |s.waiters|
    ensures !Next(s, Wake(w)).waiters[v].pc.Asleep?
    ensures s.waiters[v].pc.Asleep? ==> Next(s, Wake(w)).waiters[v].pc == Read
  {
  }

  /** Once __err is not EINPROGRESS, __err and __ret are final until the block is submitted again. */
  lemma ResultFinal(s: State, events: seq<Event>, t: State, cb: nat)
    requires Reachable(s) && Runs(s, events, t) && cb < |s.controls| && cb < |t.controls|
    requires s.controls[cb].err != EINPROGRESS && t.controls[cb].gen == s.controls[cb].gen
    ensures t.controls[cb] == s.controls[cb]
  {
    ReachableOk(s);
    RunKeeps(s, events, t);
    assert Kept(s.controls[cb], t.controls[cb]);
  }

  /** ... and they are what the I/O call of that submission gave. */
  lemma ResultIsOutcome(s: State, w: nat)
    requires Reachable(s) && w < |s.workers| && s.workers[w].cb < |s.controls|
    requires s.workers[w].gen == s.controls[s.workers[w].cb].gen && s.controls[s.workers[w].cb].err != EINPROGRESS
    ensures s.controls[s.workers[w].cb].ret == s.workers[w].ret
    ensures s.controls[s.workers[w].cb].err == ErrorOf(s.workers[w])
    ensures s.controls[s.workers[w].cb].err == 0 <==> s.workers[w].ret >= 0
  {
    ReachableOk(s);
    assert WorkerOk(s, s.workers[w]);
  }

  // Every listed block is known to the state.
  lemma ReachableListed(s: State, v: nat, k: nat)
    requires Inv(s) && v < |s.waiters| && k < |s.waiters[v].list|
    ensures SlotOk(s, s.waiters[v].list[k], s.waiters[v].slots[k], s.waiters[v].seen[k])
  {
    assert LioOk(s, s.waiters[v]);
  }

  /** aio_suspend gives 0 only while some listed request is complete. */
  lemma SuspendResult(s: State, v: nat)
    requires Reachable(s) && v < |s.waiters| && !s.waiters[v].lio
    requires s.waiters[v].pc != Return(0) && WaiterNext(s, s.waiters[v]).pc == Return(0)
    ensures exists k :: 0 <= k < |s.waiters[v].list| && Complete(s, s.waiters[v].list[k])
  {
    ReachableOk(s);
    assert LioOk(s, s.waiters[v]);
  }

  /**
   When lio_wait gives 0 or EIO, every listed request was seen complete during the call, and the
   result is EIO exactly when one of them was seen with an error.
   */
  lemma LioWaitResult(s: State, v: nat, code: int)
    requires Reachable(s) && v < |s.waiters| && s.waiters[v].lio
    requires s.waiters[v].pc == Return(code) && (code == 0 || code == EIO)
    ensures |s.waiters[v].seen| == |s.waiters[v].list|
    ensures forall k :: 0 <= k < |s.waiters[v].list| && s.waiters[v].list[k].Some? ==>
      s.waiters[v].seen[k].Some? && s.waiters[v].seen[k].value.1 != EINPROGRESS
    ensures code == EIO <==> SawError(s.waiters[v])
  {
    ReachableOk(s);
    assert LioOk(s, s.waiters[v]);
    forall k | 0 <= k < |s.waiters[v].list| && s.waiters[v].list[k].Some?
      ensures s.waiters[v].seen[k].Some? && s.waiters[v].seen[k].value.1 != EINPROGRESS
    {
      ReachableListed(s, v, k);
    }
  }

  /** No listed request was submitted again after lio_wait saw it complete. */
  ghost predicate NotResubmitted(s: State, x: Waiter)
    requires |x.seen| == |x.list|
  {
    forall k :: 0 <= k < |x.list| && x.list[k].Some? ==>
      x.list[k].value < |s.controls| && (x.seen[k].Some? ==> s.controls[x.list[k].value].gen == x.seen[k].value.0)
  }

  ghost predicate Errored(s: State, slot: Option<nat>) {
    Complete(s, slot) && s.controls[slot.value].err != 0
  }

  /** Then, whatever has run since, all of them are still complete and EIO says that one failed. */
  lemma LioWaitNow(s: State, v: nat, code: int)
    requires Reachable(s) && v < |s.waiters| && s.waiters[v].lio
    requires s.waiters[v].pc == Return(code) && (code == 0 || code == EIO)
    requires |s.waiters[v].seen| == |s.waiters[v].list| && NotResubmitted(s, s.waiters[v])
    ensures forall k :: 0 <= k < |s.waiters[v].list| && s.waiters[v].list[k].Some? ==> Complete(s, s.waiters[v].list[k])
    ensures code == EIO <==> exists k :: 0 <= k < |s.waiters[v].list| && Errored(s, s.waiters[v].list[k])
  {
    LioWaitResult(s, v, code);
    ReachableOk(s);
    var x := s.waiters[v];
    forall k | 0 <= k < |x.list| && x.list[k].Some?
      ensures Complete(s, x.list[k]) && s.controls[x.list[k].value].err == x.seen[k].value.1
    {
      ReachableListed(s, v, k);
    }
    if code == EIO {
      var k :| 0 <= k < |x.seen| && x.seen[k].Some? && x.seen[k].value.1 != 0;
      ReachableListed(s, v, k);
      assert Errored(s, x.list[k]);
    }
    if k :| 0 <= k < |x.list| && Errored(s, x.list[k]) {
      assert x.seen[k].Some? && x.seen[k].value.1 != 0;
    }
  }

  // ---------- a request whose thread could not be created ----------

  ghost predicate Submits(events: seq<Event>, cb: nat) {
    exists i :: 0 <= i < |events| && events[i].Submit? && events[i].cb == cb
  }

  // A request without a thread stays as it is; only another submission of its block goes past it.
  lemma OrphanStep(s: State, e: Event, w: nat)
    requires Inv(s) && Enabled(s, e)
    requires w < |s.workers| && s.workers[w].phase == Failed && s.workers[w].cb < |s.controls|
    ensures var t := Next(s, e);
      && w < |t.workers| && t.workers[w] == s.workers[w] && |t.controls| == |s.controls|
      && (!(e.Submit? && e.cb == s.workers[w].cb) ==>
        t.controls[s.workers[w].cb].gen == s.controls[s.workers[w].cb].gen)
      && (e.Submit? && e.cb == s.workers[w].cb ==> !Orphan(t, w))
      && (Orphan(t, w) ==> Orphan(s, w) && t.controls[s.workers[w].cb] == s.controls[s.workers[w].cb])
  {
    assert WorkerOk(s, s.workers[w]);
    StepKeeps(s, e);
    assert Kept(s.controls[s.workers[w].cb], Next(s, e).controls[s.workers[w].cb]);
    if WorkerEvent(e) && s.workers[e.w].cb == s.workers[w].cb && Orphan(s, w) {
      NotActive(s, s.workers[w].cb, e.w);
    }
  }

  /**
   new_req stores EINPROGRESS before pthread_create and does not take it back when that fails.
   In every run the block then reads as in progress, with nobody at work on it, until it is
   submitted again and no longer.
   */
  lemma {:induction false} OrphanUntilResubmitted(s: State, events: seq<Event>, t: State, w: nat)
    requires Inv(s) && Runs(s, events, t) && Orphan(s, w)
    ensures w < |t.workers| && t.workers[w] == s.workers[w] && |t.controls| == |s.controls|
    ensures Orphan(t, w) <==> !Submits(events, s.workers[w].cb)
    ensures Orphan(t, w) ==> t.controls[s.workers[w].cb] == s.controls[s.workers[w].cb]
    ensures Orphan(t, w) ==> t.controls[s.workers[w].cb].err == EINPROGRESS
    decreases |events|
  {
    assert WorkerOk(s, s.workers[w]);
    if events != [] {
      var m := Next(s, events[0]);
      StepKeeps(s, events[0]);
      OrphanStep(s, events[0], w);
      SubmitsCons(events, s.workers[w].cb);
      if Orphan(m, w) {
        OrphanUntilResubmitted(m, events[1..], t, w);
      } else {
        NeverOrphanAgain(m, events[1..], t, w);
      }
    }
  }

  lemma SubmitsCons(events: seq<Event>, cb: nat)
    requires events != []
    ensures Submits(events, cb) <==> (events[0].Submit? && events[0].cb == cb) || Submits(events[1..], cb)
  {
    if i :| 0 < i < |events| && events[i].Submit? && events[i].cb == cb {
      assert events[1..][i - 1] == events[i];
    }
  }

  lemma {:induction false} NeverOrphanAgain(s: State, events: seq<Event>, t: State, w: nat)
    requires Inv(s) && Runs(s, events, t) && !Orphan(s, w)
    requires w < |s.workers| && s.workers[w].phase == Failed && s.workers[w].cb < |s.controls|
    ensures w < |t.workers| && t.workers[w] == s.workers[w] && |t.controls| == |s.controls| && !Orphan(t, w)
    decreases |events|
  {
    if events != [] {
      StepKeeps(s, events[0]);
      OrphanStep(s, events[0], w);
      NeverOrphanAgain(Next(s, events[0]), events[1..], t, w);
    }
  }

  /** And a second attempt whose thread is created completes like any other request. */
  lemma RetryCompletes(s: State, w: nat, ret: int, errno: int) returns (t: State)
    requires Inv(s) && Orphan(s, w) && errno > 0 && errno != EINPROGRESS
    ensures var (cb, n) := (s.workers[w].cb, |s.workers|);
      && Runs(s, [Submit(cb, ret, errno), Create(n, true), StoreRet(n), StoreErr(n)], t)
      && |t.controls| == |s.controls|
      && t.controls[cb] == Control(if ret < 0 then errno else 0, ret, s.controls[cb].gen + 1)
  {
    var cb, n := s.workers[w].cb, |s.workers|;
    var s1 := DoSubmit(s, cb, ret, errno);
    var s2 := DoCreate(s1, n, true);
    var s3 := DoStoreRet(s2, n);
    t := DoStoreErr(s3, n);
    var es := [Submit(cb, ret, errno), Create(n, true), StoreRet(n), StoreErr(n)];
    assert es[1..] == [Create(n, true), StoreRet(n), StoreErr(n)];
    assert es[1..][1..] == [StoreRet(n), StoreErr(n)];
    assert es[1..][1..][1..] == [StoreErr(n)];
    assert Runs(s3, [StoreErr(n)], t);
    assert Runs(s2, [StoreRet(n), StoreErr(n)], t);
    assert Runs(s1, [Create(n, true), StoreRet(n), StoreErr(n)], t);
  }

  // ---------- the limit of NoLostWake is reached ----------

  lemma {:induction false} RunsJoin(s: State, a: seq<Event>, m: State, b: seq<Event>, t: State)
    requires Runs(s, a, m) && Runs(m, b, t)
    ensures Runs(s, a + b, t)
    decreases |a|
  {
    if a == [] {
      assert a + b == b;
    } else {
      RunsJoin(Next(s, a[0]), a[1..], m, b, t);
      assert (a + b)[0] == a[0] && (a + b)[1..] == a[1..] + b;
    }
  }

  function OneRequest(s: State, cb: nat): seq<Event> {
    var w := |s.workers|;
    [Submit(cb, 0, 1), Create(w, true), StoreRet(w), StoreErr(w), Count(w), Wake(w)]
  }

  // Everything is over, and the one waiter is about to sleep on the value it read at the start.
  ghost predicate Poised(s: State, count: nat) {
    |s.controls| == 2 && s.controls[0].err == 0 && s.controls[1].err != EINPROGRESS
    && s.waiters == [Waiter(false, [Some(0)], [Some(0)], [None], false, Wait(0))]
    && s.count == count && forall i :: 0 <= i < |s.workers| ==> s.workers[i].phase == Finished
  }

  // The request on the other block with its result stored.
  function Stored(s: State): State
    requires |s.controls| == 2
  {
    var gen := s.controls[1].gen + 1;
    s.(controls := s.controls[1 := Control(EINPROGRESS, 0, gen)],
       workers := s.workers + [Worker(1, gen, 0, 1, RetStored)])
  }

  lemma RequestBegins(s: State, count: nat) returns (s1: State, s2: State, s3: State)
    requires Poised(s, count)
    ensures var w := |s.workers|;
      && Enabled(s, Submit(1, 0, 1)) && Next(s, Submit(1, 0, 1)) == s1
      && Enabled(s1, Create(w, true)) && Next(s1, Create(w, true)) == s2
      && Enabled(s2, StoreRet(w)) && Next(s2, StoreRet(w)) == s3 == Stored(s)
  {
    var w := |s.workers|;
    s1 := DoSubmit(s, 1, 0, 1);
    s2 := DoCreate(s1, w, true);
    s3 := DoStoreRet(s2, w);
  }

  lemma RequestEnds(s: State, count: nat) returns (s4: State, s5: State, t: State)
    requires Poised(s, count)
    ensures var w := |s.workers|;
      && Enabled(Stored(s), StoreErr(w)) && Next(Stored(s), StoreErr(w)) == s4
      && Enabled(s4, Count(w)) && Next(s4, Count(w)) == s5 && Enabled(s5, Wake(w)) && Next(s5, Wake(w)) == t
    ensures Poised(t, count + 1)
  {
    var w := |s.workers|;
    s4 := DoStoreErr(Stored(s), w);
    assert s4.controls[0] == s.controls[0] && s4.controls[1].err == 0 && s4.count == count;
    s5 := DoCount(s4, w);
    t := DoWake(s5, w);
    assert t.waiters == s.waiters;
  }

  lemma RequestCompletes(s: State, count: nat) returns (t: State)
    requires Poised(s, count)
    ensures Runs(s, OneRequest(s, 1), t) && Poised(t, count + 1)
  {
    hide Enabled, Next;
    var s1, s2, s3 := RequestBegins(s, count);
    var s4, s5;
    s4, s5, t := RequestEnds(s, count);
    SixEvents(s, s1, s2, s3, s4, s5, t, OneRequest(s, 1));
  }

  lemma SixEvents(s: State, s1: State, s2: State, s3: State, s4: State, s5: State, t: State, es: seq<Event>)
    requires |es| == 6
    requires Enabled(s, es[0]) && Next(s, es[0]) == s1 && Enabled(s1, es[1]) && Next(s1, es[1]) == s2
    requires Enabled(s2, es[2]) && Next(s2, es[2]) == s3 && Enabled(s3, es[3]) && Next(s3, es[3]) == s4
    requires Enabled(s4, es[4]) && Next(s4, es[4]) == s5 && Enabled(s5, es[5]) && Next(s5, es[5]) == t
    ensures Runs(s, es, t)
  {
    assert es[1..][0] == es[1] && es[2..][0] == es[2] && es[3..][0] == es[3] && es[4..][0] == es[4]
      && es[5..][0] == es[5];
    assert es[5..][1..] == [] && es[4..][1..] == es[5..] && es[3..][1..] == es[4..] && es[2..][1..] == es[3..]
      && es[1..][1..] == es[2..];
    assert Runs(s5, es[5..], t);
    assert Runs(s4, es[4..], t);
    assert Runs(s3, es[3..], t);
    assert Runs(s2, es[2..], t);
    assert Runs(s1, es[1..], t);
  }

  lemma {:induction false} ManyRequests(s: State, count: nat, more: nat) returns (events: seq<Event>, t: State)
    requires Poised(s, count)
    ensures Runs(s, events, t) && Poised(t, count + more)
    decreases more
  {
    if more == 0 {
      events, t := [], s;
    } else {
      var m := RequestCompletes(s, count);
      var rest;
      rest, t := ManyRequests(m, count + 1, more - 1);
      events := OneRequest(s, 1) + rest;
      RunsJoin(s, OneRequest(s, 1), m, rest, t);
    }
  }

  // Block 0 is in progress, and the waiter has seen that with seq still 0.
  function Looked(): State {
    State([Control(EINPROGRESS, 0, 1), Control(0, 0, 0)], [Worker(0, 1, 0, 1, Running)],
      [Waiter(false, [Some(0)], [Some(0)], [None], false, Wait(0))], 0)
  }

  function LookEvents(): seq<Event> {
    [Submit(0, 0, 1), Create(0, true), Call(false, [Some(0)]), WaiterStep(0), WaiterStep(0), WaiterStep(0)]
  }

  function OneWaiter(pc: Pc): State {
    Looked().(waiters := [Waiter(false, [Some(0)], [Some(0)], [None], false, pc)])
  }

  lemma ReachLooked()
    ensures Runs(Start(2), LookEvents(), Looked())
  {
    var s0 := Start(2);
    var s1 := DoSubmit(s0, 0, 0, 1);
    var s2 := DoCreate(s1, 0, true);
    assert s2 == Looked().(waiters := []);
    var s3 := DoCall(s2, false, [Some(0)]);
    assert s3.waiters[0].seen == [None];
    assert s3.waiters == [Waiter(false, [Some(0)], [Some(0)], [None], false, Read)];
    assert s3 == OneWaiter(Read);
    Looks();
    SixEvents(s0, s1, s2, s3, OneWaiter(Scan(0, 0)), OneWaiter(Scan(0, 1)), Looked(), LookEvents());
  }

  lemma Looks()
    ensures Next(OneWaiter(Read), WaiterStep(0)) == OneWaiter(Scan(0, 0))
    ensures Next(OneWaiter(Scan(0, 0)), WaiterStep(0)) == OneWaiter(Scan(0, 1))
    ensures Next(OneWaiter(Scan(0, 1)), WaiterStep(0)) == Looked()
  {
  }

  function FinishEvents(): seq<Event> {
    [StoreRet(0), StoreErr(0), Count(0), Wake(0)]
  }

  // The request on block 0 completes after the waiter has looked at it and before it sleeps.
  lemma ReachPoised() returns (t: State)
    ensures Runs(Looked(), FinishEvents(), t) && Poised(t, 1)
  {
    var s1 := DoStoreRet(Looked(), 0);
    var s2 := DoStoreErr(s1, 0);
    var s3 := DoCount(s2, 0);
    t := DoWake(s3, 0);
    assert FinishEvents()[1..] == [StoreErr(0), Count(0), Wake(0)];
    assert [StoreErr(0), Count(0), Wake(0)][1..] == [Count(0), Wake(0)] && [Count(0), Wake(0)][1..] == [Wake(0)];
    assert Runs(s3, [Wake(0)], t);
    assert Runs(s2, [Count(0), Wake(0)], t);
    assert Runs(s1, [StoreErr(0), Count(0), Wake(0)], t);
  }

  /**
   With any nonzero multiple of 2^32 completions between reading seq and going to sleep the wake-up
   is lost: a run ends with the waiter asleep, its request complete, and no worker left to wake it.
   */
  lemma WakeLost(turns: nat) returns (s: State)
    requires turns > 0
    ensures Reachable(s) && Lost(s, 0, 0) && s.waiters[0].pc == Asleep(0, turns * WRAP)
    ensures forall i :: 0 <= i < |s.workers| ==> s.workers[i].phase == Finished
  {
    hide Poised, LookEvents, FinishEvents, Looked;
    ReachLooked();
    var p := ReachPoised();
    RunsJoin(Start(2), LookEvents(), Looked(), FinishEvents(), p);
    var events, q := ManyRequests(p, 1, turns * WRAP - 1);
    RunsJoin(Start(2), LookEvents() + FinishEvents(), p, events, q);
    s := FallAsleep(q, turns);
    assert [WaiterStep(0)][1..] == [] && Runs(s, [], s);
    assert Runs(q, [WaiterStep(0)], s);
    RunsJoin(Start(2), LookEvents() + FinishEvents() + events, q, [WaiterStep(0)], s);
  }

  lemma FallAsleep(q: State, turns: nat) returns (s: State)
    requires Poised(q, turns * WRAP)
    ensures Enabled(q, WaiterStep(0)) && s == Next(q, WaiterStep(0))
    ensures Lost(s, 0, 0) && s.waiters[0].pc == Asleep(0, turns * WRAP)
    ensures forall i :: 0 <= i < |s.workers| ==> s.workers[i].phase == Finished
  {
    s := Next(q, WaiterStep(0));
  }
}
