/**
 The completion protocol of asynchronous I/O (aio_suspend.c, aio_readwrite.c, lio_listio.c): any
 number of worker threads finish requests while any number of waiters sleep on one sequence
 number.  Every event below is one access to shared memory or one system call; a run is any
 interleaving of them.
 */
module Aio {
  import opened Wrappers

  const EINPROGRESS := 115
  const EIO := 5
  const EINTR := 4
  const EAGAIN := 11
  const EINVAL := 22

  /** seq is a 32-bit int that wraps around. */
  const WRAP := 0x1_0000_0000

  /** The fields __err and __ret of a control block; gen counts how often it was submitted. */
  datatype Control = Control(err: int, ret: int, gen: nat)

  /** Where new_req and then io_thread stand with one request. */
  datatype Phase = Creating | Running | RetStored | ErrStored | Counted | Finished | Failed

  /** One submission of control block cb, with the result its I/O call will give. */
  datatype Worker = Worker(cb: nat, gen: nat, ret: int, errno: int, phase: Phase)

  /**
   Where a waiter stands.  Read to Asleep are inside aio_suspend: last is the number of wake-ups
   when seq was read, at the number when the thread went to sleep.  Only their low 32 bits exist
   in the program.  LioScan is the scan of lio_wait.
   */
  datatype Pc = Read | Scan(last: nat, i: nat) | Wait(last: nat) | Asleep(last: nat, at: nat) | LioScan(i: nat)
    | Return(code: int)

  /**
   A call of aio_suspend, or of lio_wait when lio is set.  list is the array of requests passed in
   and slots the same array as lio_wait clears it; seen records the submission and the error that
   each cleared slot was cleared for.
   */
  datatype Waiter = Waiter(lio: bool, list: seq<Option<nat>>, slots: seq<Option<nat>>, seen: seq<Option<(nat, int)>>,
    gotErr: bool, pc: Pc)

  /** count is the number of increments of seq so far; seq itself is count modulo 2^32. */
  datatype State = State(controls: seq<Control>, workers: seq<Worker>, waiters: seq<Waiter>, count: nat)

  datatype Event =
    | Submit(cb: nat, ret: int, errno: int)
    | Create(w: nat, ok: bool)
    | StoreRet(w: nat)
    | StoreErr(w: nat)
    | Count(w: nat)
    | Wake(w: nat)
    | Call(lio: bool, list: seq<Option<nat>>)
    | WaiterStep(v: nat)
    | WaitEnds(v: nat, code: int)

  function Seq(s: State): nat {
    s.count % WRAP
  }

  // What io_thread stores in __err.
  function ErrorOf(w: Worker): int {
    if w.ret < 0 then w.errno else 0
  }

  // ---------- workers ----------

  predicate At(s: State, w: nat, phase: Phase) {
    w < |s.workers| && s.workers[w].phase == phase && s.workers[w].cb < |s.controls|
  }

  function Advance(s: State, w: nat, phase: Phase): State
    requires w < |s.workers|
  {
    s.(workers := s.workers[w := s.workers[w].(phase := phase)])
  }

  function SetControl(s: State, cb: nat, c: Control): State
    requires cb < |s.controls|
  {
    s.(controls := s.controls[cb := c])
  }

  /** The thread for the current submission of worker w's block could not be created. */
  predicate Orphan(s: State, w: nat) {
    w < |s.workers| && s.workers[w].phase == Failed && s.workers[w].cb < |s.controls|
    && s.workers[w].gen == s.controls[s.workers[w].cb].gen
  }

  ghost predicate NotStarted(s: State, cb: nat) {
    exists w: nat :: Orphan(s, w) && s.workers[w].cb == cb
  }

  // Line 86 of aio_readwrite.c.  Submitting a block again while a thread works on it is the
  // caller's error; after a submission that failed with EAGAIN it is not.  An I/O call that
  // fails leaves an errno that is not EINPROGRESS.
  ghost predicate CanSubmit(s: State, cb: nat, ret: int, errno: int) {
    && cb < |s.controls| && (s.controls[cb].err != EINPROGRESS || NotStarted(s, cb))
    && errno != EINPROGRESS && errno > 0
  }

  function DoSubmit(s: State, cb: nat, ret: int, errno: int): State
    requires CanSubmit(s, cb, ret, errno)
  {
    var c := s.controls[cb];
    var s1 := SetControl(s, cb, Control(EINPROGRESS, c.ret, c.gen + 1));
    s1.(workers := s.workers + [Worker(cb, c.gen + 1, ret, errno, Creating)])
  }

  // pthread_create: on failure the block stays EINPROGRESS and nobody works on it.
  function DoCreate(s: State, w: nat, ok: bool): State
    requires At(s, w, Creating)
  {
    Advance(s, w, if ok then Running else Failed)
  }

  function DoStoreRet(s: State, w: nat): State
    requires At(s, w, Running)
  {
    var x := s.workers[w];
    Advance(SetControl(s, x.cb, s.controls[x.cb].(ret := x.ret)), w, RetStored)
  }

  function DoStoreErr(s: State, w: nat): State
    requires At(s, w, RetStored)
  {
    var x := s.workers[w];
    Advance(SetControl(s, x.cb, s.controls[x.cb].(err := ErrorOf(x))), w, ErrStored)
  }

  // __aio_wake, first half: a_inc(&seq).
  function DoCount(s: State, w: nat): State
    requires At(s, w, ErrStored)
  {
    Advance(s, w, Counted).(count := s.count + 1)
  }

  // A sleeper that is woken goes round the loop of aio_suspend again.
  function Woken(v: Waiter): Waiter {
    if v.pc.Asleep? then v.(pc := Read) else v
  }

  // __aio_wake, second half: every thread asleep on seq is woken.
  function DoWake(s: State, w: nat): State
    requires At(s, w, Counted)
  {
    Advance(s, w, Finished).(waiters := seq(|s.waiters|, i requires 0 <= i < |s.waiters| => Woken(s.waiters[i])))
  }

  // ---------- waiters ----------

  predicate Listed(s: State, list: seq<Option<nat>>) {
    forall k :: 0 <= k < |list| && list[k].Some? ==> list[k].value < |s.controls|
  }

  function DoCall(s: State, lio: bool, list: seq<Option<nat>>): State {
    var pc := if lio then LioScan(0) else Read;
    s.(waiters := s.waiters + [Waiter(lio, list, list, seq(|list|, _ => None), false, pc)])
  }

  predicate Complete(s: State, slot: Option<nat>) {
    slot.Some? && slot.value < |s.controls| && s.controls[slot.value].err != EINPROGRESS
  }

  // aio_suspend has a result: lio_wait goes on after 0 and gives any other to its caller.
  function Suspended(lio: bool, code: int): Pc {
    if lio && code == 0 then LioScan(0) else Return(code)
  }

  /** The next access of a waiter that is not asleep. */
  function WaiterNext(s: State, v: Waiter): Waiter {
    match v.pc
    case Read => v.(pc := Scan(s.count, 0))
    case Scan(last, i) =>
      if i >= |v.slots| then v.(pc := Wait(last))
      else if Complete(s, v.slots[i]) then v.(pc := Suspended(v.lio, 0))
      else v.(pc := Scan(last, i + 1))
    case Wait(last) =>
      if Seq(s) == last % WRAP then v.(pc := Asleep(last, s.count)) else v.(pc := Read)
    case Asleep(_, _) => v
    case LioScan(i) => LioNext(s, v, i)
    case Return(_) => v
  }

  /** One turn of the inner loop of lio_wait, or its end. */
  function LioNext(s: State, v: Waiter, i: nat): Waiter {
    if i >= |v.slots| then v.(pc := Return(if v.gotErr then EIO else 0))
    else if v.slots[i] == None then v.(pc := LioScan(i + 1))
    else if !Complete(s, v.slots[i]) then v.(pc := Read)
    else if i >= |v.seen| then v
    else
      var c := s.controls[v.slots[i].value];
      v.(gotErr := v.gotErr || c.err != 0, slots := v.slots[i := None],
         seen := v.seen[i := Some((c.gen, c.err))], pc := LioScan(i + 1))
  }

  function SetWaiter(s: State, v: nat, x: Waiter): State
    requires v < |s.waiters|
  {
    s.(waiters := s.waiters[v := x])
  }

  // __timedwait gives 0 for a spurious wake-up, and otherwise an error of its own; a deadline
  // already past or malformed is reported without sleeping.
  predicate CanEnd(s: State, v: nat, code: int) {
    v < |s.waiters|
    && ((s.waiters[v].pc.Asleep? && (code == 0 || code == EINTR || code == EAGAIN || code == EINVAL))
        || (s.waiters[v].pc.Wait? && (code == EAGAIN || code == EINVAL)))
  }

  function DoEnd(s: State, v: nat, code: int): State
    requires CanEnd(s, v, code)
  {
    var x := s.waiters[v];
    SetWaiter(s, v, x.(pc := if code == 0 then Read else Suspended(x.lio, code)))
  }

  // ---------- runs ----------

  ghost predicate Enabled(s: State, e: Event) {
    match e
    case Submit(cb, ret, errno) => CanSubmit(s, cb, ret, errno)
    case Create(w, _) => At(s, w, Creating)
    case StoreRet(w) => At(s, w, Running)
    case StoreErr(w) => At(s, w, RetStored)
    case Count(w) => At(s, w, ErrStored)
    case Wake(w) => At(s, w, Counted)
    case Call(_, list) => Listed(s, list)
    case WaiterStep(v) => v < |s.waiters|
    case WaitEnds(v, code) => CanEnd(s, v, code)
  }

  function Next(s: State, e: Event): State
    requires Enabled(s, e)
  {
    match e
    case Submit(cb, ret, errno) => DoSubmit(s, cb, ret, errno)
    case Create(w, ok) => DoCreate(s, w, ok)
    case StoreRet(w) => DoStoreRet(s, w)
    case StoreErr(w) => DoStoreErr(s, w)
    case Count(w) => DoCount(s, w)
    case Wake(w) => DoWake(s, w)
    case Call(lio, list) => DoCall(s, lio, list)
    case WaiterStep(v) => SetWaiter(s, v, WaiterNext(s, s.waiters[v]))
    case WaitEnds(v, code) => DoEnd(s, v, code)
  }

  /** n control blocks that were never submitted. */
  function Start(n: nat): State {
    State(seq(n, _ => Control(0, 0, 0)), [], [], 0)
  }

  /** The state after the events, if each is possible in its turn. */
  ghost predicate Runs(s: State, events: seq<Event>, t: State)
    decreases |events|
  {
    if events == [] then s == t
    else Enabled(s, events[0]) && Runs(Next(s, events[0]), events[1..], t)
  }
}
