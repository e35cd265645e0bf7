/**
 What every run of constructors keeps: each library's constructors start at most once, and the
 destructor list is the order in which construction began, backwards.
 */
module InitFiniSafety {
  import opened Wrappers
  import opened InitFini

  // ---------- the invariant ----------

  predicate Critical(pc: Pc) {
    pc == Test || pc == Set
  }

  predicate Built(s: State, p: int) {
    0 <= p < |s.dsos| && s.dsos[p].constructed
  }

  ghost predicate FrameOk(s: State, f: Frame) {
    f.start < |s.dsos| && -1 <= f.p <= f.start
    && (f.pc != Test ==> f.p >= 0)
    && (forall i :: f.p < i <= f.start ==> Built(s, i))
    && (f.pc == Ctor || f.pc == Relock ==> Built(s, f.p))
    && (f.pc == Set ==> !Built(s, f.p))
  }

  ghost predicate StackOk(s: State, stack: seq<Frame>) {
    (forall k :: 0 <= k < |stack| ==> FrameOk(s, stack[k]))
    && forall k :: 0 <= k < |stack| - 1 ==> stack[k].pc == Ctor
  }

  ghost predicate ThreadsOk(s: State) {
    forall t :: 0 <= t < |s.threads| ==>
      StackOk(s, s.threads[t].stack) && (s.threads[t].stack != [] ==> s.threads[t].alive)
  }

  function LockedCount(stack: seq<Frame>): nat {
    if stack == [] then 0 else LockedCount(stack[..|stack| - 1]) + if stack[|stack| - 1].locked then 1 else 0
  }

  /** The lock is held as often as activations of its owner have taken it. */
  ghost predicate LockOk(s: State) {
    (s.owner == None <==> s.depth == 0)
    && (s.owner.Some? ==> s.owner.value < |s.threads|)
    && forall t :: 0 <= t < |s.threads| ==> LockedCount(s.threads[t].stack) == if s.owner == Some(t) then s.depth else 0
  }

  /** A thread at the flag constructed holds the lock or has no other thread beside it. */
  ghost predicate Excluded(s: State, t: nat)
    requires t < |s.threads|
  {
    s.threads[t].stack != [] && Critical(Top(s.threads[t]).pc) ==> Top(s.threads[t]).locked || Alone(s, t)
  }

  ghost predicate AllExcluded(s: State) {
    forall t :: 0 <= t < |s.threads| ==> Excluded(s, t)
  }

  ghost predicate Distinct(q: seq<nat>) {
    forall i, j :: 0 <= i < j < |q| ==> q[i] != q[j]
  }

  /** begun lists the libraries marked constructed, once each, and the destructor list follows it. */
  ghost predicate HistoryOk(s: State) {
    Distinct(s.begun)
    && (forall p :: p in s.begun <==> Built(s, p))
    && s.fini == FiniOrder(s.begun, s.dsos)
  }

  /** Some activation is inside the constructors of p. */
  ghost predicate InProgress(s: State, p: int) {
    exists t, k :: 0 <= t < |s.threads| && 0 <= k < |s.threads[t].stack| && Inside(s.threads[t].stack[k], p)
  }

  predicate Inside(f: Frame, p: int) {
    f.pc == Ctor && f.p == p
  }

  ghost predicate ProgressOk(s: State) {
    forall p :: Built(s, p) ==> p in s.finished || InProgress(s, p)
  }

  ghost predicate Inv(s: State) {
    ThreadsOk(s) && LockOk(s) && AllExcluded(s) && HistoryOk(s) && ProgressOk(s)
  }

  // ---------- the lock ----------

  lemma {:induction false} LockedAt(stack: seq<Frame>, k: nat)
    requires k < |stack| && stack[k].locked
    ensures LockedCount(stack) > 0
    decreases |stack|
  {
    if k < |stack| - 1 {
      LockedAt(stack[..|stack| - 1], k);
    }
  }

  lemma CountTop(stack: seq<Frame>, f: Frame)
    ensures LockedCount(stack + [f]) == LockedCount(stack) + if f.locked then 1 else 0
  {
    assert (stack + [f])[..|stack|] == stack;
  }

  lemma LockedOwner(s: State, t: nat)
    requires LockOk(s) && t < |s.threads| && s.threads[t].stack != []
    ensures Top(s.threads[t]).locked ==> s.owner == Some(t)
  {
    if Top(s.threads[t]).locked {
      LockedAt(s.threads[t].stack, |s.threads[t].stack| - 1);
    }
  }

  ghost predicate AtFlag(s: State, t: nat)
    requires t < |s.threads|
  {
    s.threads[t].stack != [] && Critical(Top(s.threads[t]).pc)
  }

  /** Two threads are never both at the flag. */
  lemma OneAtFlag(s: State, t: nat, u: nat)
    requires LockOk(s) && ThreadsOk(s) && AllExcluded(s)
    requires t < |s.threads| && u < |s.threads| && t != u
    ensures !(AtFlag(s, t) && AtFlag(s, u))
  {
    assert Excluded(s, t) && Excluded(s, u);
    if s.threads[t].stack != [] { LockedOwner(s, t); }
    if s.threads[u].stack != [] { LockedOwner(s, u); }
  }

  // ---------- frames under changes elsewhere ----------

  // The libraries only grow, and only the marks change.
  ghost predicate Grown(s: State, t: State) {
    |s.dsos| <= |t.dsos| && forall p :: 0 <= p < |s.dsos| ==>
      t.dsos[p].hasFini == s.dsos[p].hasFini && (Built(s, p) ==> Built(t, p))
  }

  lemma FrameKept(s: State, t: State, f: Frame)
    requires FrameOk(s, f) && Grown(s, t) && (f.pc == Set ==> !Built(t, f.p))
    ensures FrameOk(t, f)
  {
    forall i | f.p < i <= f.start ensures Built(t, i) { assert Built(s, i); }
    if f.pc == Ctor || f.pc == Relock { assert Built(s, f.p); }
  }

  lemma StackKept(s: State, t: State, stack: seq<Frame>)
    requires StackOk(s, stack) && Grown(s, t)
    requires stack != [] && stack[|stack| - 1].pc == Set ==> !Built(t, stack[|stack| - 1].p)
    ensures StackOk(t, stack)
  {
    forall k | 0 <= k < |stack|
      ensures FrameOk(t, stack[k])
    {
      if k < |stack| - 1 { assert stack[k].pc == Ctor; } else { assert k == |stack| - 1; }
      FrameKept(s, t, stack[k]);
    }
  }

  lemma {:induction false} FiniSame(begun: seq<nat>, s: State, t: State)
    requires Grown(s, t) && forall k :: 0 <= k < |begun| ==> begun[k] < |s.dsos|
    ensures FiniOrder(begun, s.dsos) == FiniOrder(begun, t.dsos)
    decreases |begun|
  {
    if begun != [] {
      FiniSame(begun[..|begun| - 1], s, t);
    }
  }

  lemma BegunKnown(s: State)
    requires HistoryOk(s)
    ensures forall k :: 0 <= k < |s.begun| ==> s.begun[k] < |s.dsos|
  {
    forall k | 0 <= k < |s.begun| ensures s.begun[k] < |s.dsos| { assert s.begun[k] in s.begun; }
  }

  // ---------- preservation ----------

  lemma LoadKeeps(s: State, hasFini: bool)
    requires Inv(s)
    ensures Inv(Next(s, Load(hasFini)))
  {
    var t := Next(s, Load(hasFini));
    forall p: int ensures Built(t, p) == Built(s, p) { }
    forall i | 0 <= i < |t.threads| ensures StackOk(t, t.threads[i].stack) { StackKept(s, t, s.threads[i].stack); }
    forall i | 0 <= i < |t.threads| ensures Excluded(t, i) { assert Excluded(s, i); }
    BegunKnown(s);
    FiniSame(s.begun, s, t);
    forall p | Built(t, p) ensures p in t.finished || InProgress(t, p) { assert InProgress(s, p) == InProgress(t, p); }
  }

  lemma CreateKeeps(s: State, t: nat)
    requires Inv(s) && Free(s, t)
    ensures Inv(Next(s, CreateThread(t)))
  {
    var n := Next(s, CreateThread(t));
    assert StackOk(n, []) && LockedCount([]) == 0;
    hide StackOk, LockedCount;
    forall p: int ensures Built(n, p) == Built(s, p) { }
    forall i | 0 <= i < |n.threads|
      ensures StackOk(n, n.threads[i].stack) && Excluded(n, i)
      ensures LockedCount(n.threads[i].stack) == if n.owner == Some(i) then n.depth else 0
    {
      if i < |s.threads| {
        StackKept(s, n, s.threads[i].stack);
        assert Excluded(s, i);
      }
    }
    forall p | Built(n, p)
      ensures p in n.finished || InProgress(n, p)
    {
      if p !in s.finished {
        var u, k :| 0 <= u < |s.threads| && 0 <= k < |s.threads[u].stack| && Inside(s.threads[u].stack[k], p);
        assert Inside(n.threads[u].stack[k], p);
      }
    }
  }

  lemma ExitKeeps(s: State, t: nat)
    requires Inv(s) && Has(s, t) && s.threads[t].stack == []
    ensures Inv(Next(s, ExitThread(t)))
  {
    var n := Next(s, ExitThread(t));
    forall p: int ensures Built(n, p) == Built(s, p) { }
    forall i | 0 <= i < |n.threads|
      ensures StackOk(n, n.threads[i].stack) && Excluded(n, i)
      ensures n.threads[i].stack == s.threads[i].stack
    {
      StackKept(s, n, s.threads[i].stack);
      assert Excluded(s, i);
    }
    forall p | Built(n, p)
      ensures p in n.finished || InProgress(n, p)
    {
      if p !in s.finished {
        var u, k :| 0 <= u < |s.threads| && 0 <= k < |s.threads[u].stack| && Inside(s.threads[u].stack[k], p);
        assert Inside(n.threads[u].stack[k], p);
      }
    }
  }

  // ---------- steps of one thread's activations ----------

  /** Only the stack of thread t changes, and the lock only in its hands. */
  ghost predicate Changes(s: State, n: State, t: nat, stack: seq<Frame>) {
    t < |s.threads| && s.threads[t].alive
    && n.threads == s.threads[t := s.threads[t].(stack := stack)]
    && Grown(s, n) && StackOk(n, stack)
    && (n.owner == None <==> n.depth == 0)
    && LockedCount(stack) == (if n.owner == Some(t) then n.depth else 0)
    && ((n.owner == s.owner && n.depth == s.depth)
        || ((s.owner == None || s.owner == Some(t)) && (n.owner == None || n.owner == Some(t))))
    && (stack != [] && Critical(stack[|stack| - 1].pc) ==> stack[|stack| - 1].locked || Alone(s, t))
  }

  lemma ChangeKeeps(s: State, n: State, t: nat, stack: seq<Frame>)
    requires ThreadsOk(s) && LockOk(s) && AllExcluded(s) && Changes(s, n, t, stack)
    requires n.dsos == s.dsos || (s.threads[t].stack != [] && Critical(Top(s.threads[t]).pc))
    ensures ThreadsOk(n) && LockOk(n) && AllExcluded(n)
  {
    forall u | 0 <= u < |n.threads|
      ensures StackOk(n, n.threads[u].stack) && Excluded(n, u)
    {
      assert Excluded(s, u);
      if u != t {
        if n.dsos != s.dsos { OneAtFlag(s, t, u); }
        if s.threads[u].stack != [] { assert FrameOk(s, Top(s.threads[u])); }
        StackKept(s, n, s.threads[u].stack);
      }
    }
  }

  lemma SameHistory(s: State, n: State)
    requires HistoryOk(s) && n.dsos == s.dsos && n.begun == s.begun && n.fini == s.fini
    ensures HistoryOk(n)
  {
    forall p: int ensures Built(n, p) == Built(s, p) { }
  }

  // The frames below the top of thread t, and those of other threads, are still there.
  lemma ProgressKept(s: State, n: State, t: nat, stack: seq<Frame>, p: int)
    requires t < |s.threads| && n.threads == s.threads[t := s.threads[t].(stack := stack)]
    requires InProgress(s, p)
    requires |stack| >= |s.threads[t].stack| - 1
    requires forall k :: 0 <= k < |s.threads[t].stack| - 1 ==> stack[k] == s.threads[t].stack[k]
    requires s.threads[t].stack != [] && Inside(Top(s.threads[t]), p) ==>
      |stack| >= |s.threads[t].stack| && stack[|s.threads[t].stack| - 1] == Top(s.threads[t])
    ensures InProgress(n, p)
  {
    var u, k :| 0 <= u < |s.threads| && 0 <= k < |s.threads[u].stack| && Inside(s.threads[u].stack[k], p);
    assert Inside(n.threads[u].stack[k], p);
  }

  lemma EnterChange(s: State, t: nat, start: nat)
    requires ThreadsOk(s) && LockOk(s) && CanEnter(s, t, start)
    ensures Changes(s, DoEnter(s, t, start), t, s.threads[t].stack + [Frame(start, start, Test, !Alone(s, t))])
  {
    var f := Frame(start, start, Test, !Alone(s, t));
    CountTop(s.threads[t].stack, f);
    StackPushed(s, DoEnter(s, t, start), s.threads[t].stack, f);
  }

  lemma EnterKeeps(s: State, t: nat, start: nat)
    requires Inv(s) && CanEnter(s, t, start)
    ensures Inv(Next(s, Enter(t, start)))
  {
    hide StackOk, Excluded, LockedCount, FrameOk, Changes;
    var n := DoEnter(s, t, start);
    var was := s.threads[t].stack;
    var f := Frame(start, start, Test, !Alone(s, t));
    EnterChange(s, t, start);
    ChangeKeeps(s, n, t, was + [f]);
    SameHistory(s, n);
    forall p | Built(n, p)
      ensures p in n.finished || InProgress(n, p)
    {
      if p !in s.finished { ProgressKept(s, n, t, was + [f], p); }
    }
  }

  lemma StackPushed(s: State, n: State, stack: seq<Frame>, f: Frame)
    requires StackOk(s, stack) && n.dsos == s.dsos && (stack == [] || stack[|stack| - 1].pc == Ctor) && FrameOk(n, f)
    ensures StackOk(n, stack + [f])
  {
    forall k | 0 <= k < |stack| ensures FrameOk(n, stack[k]) { FrameKept(s, n, stack[k]); }
  }

  // Replacing the top frame.
  lemma TopReplaced(s: State, n: State, stack: seq<Frame>, f: Frame)
    requires stack != [] && StackOk(s, stack) && Grown(s, n) && FrameOk(n, f)
    ensures StackOk(n, stack[..|stack| - 1] + [f])
  {
    var below := stack[..|stack| - 1];
    forall k | 0 <= k < |below|
      ensures below[k].pc == Ctor && FrameOk(n, below[k])
    {
      assert stack[k].pc == Ctor;
      FrameKept(s, n, stack[k]);
    }
    var next := below + [f];
    assert forall k :: 0 <= k < |below| ==> next[k] == below[k];
  }

  lemma CountReplaced(stack: seq<Frame>, f: Frame)
    requires stack != []
    ensures LockedCount(stack[..|stack| - 1] + [f])
      == LockedCount(stack) - (if stack[|stack| - 1].locked then 1 else 0) + (if f.locked then 1 else 0)
  {
    CountTop(stack[..|stack| - 1], f);
  }

  // A step that leaves the marks alone and keeps the top frame's place on the stack.
  lemma MoveKeeps(s: State, n: State, t: nat, f: Frame)
    requires Inv(s) && CanStep(s, t)
    requires n.threads == SetTop(s, t, f).threads && n.dsos == s.dsos && n.begun == s.begun && n.fini == s.fini
    requires FrameOk(n, f)
    requires Critical(f.pc) ==> f.locked || Alone(s, t)
    requires (f.locked == Top(s.threads[t]).locked && n.owner == s.owner && n.depth == s.depth)
      || (f.locked && !Top(s.threads[t]).locked && CanLock(s, t) && n.owner == Some(t) && n.depth == s.depth + 1)
    requires forall p :: p in s.finished ==> p in n.finished
    requires Top(s.threads[t]).pc == Ctor ==> Top(s.threads[t]).p in n.finished
    ensures Inv(n)
  {
    var stack := s.threads[t].stack;
    TopReplaced(s, n, stack, f);
    CountReplaced(stack, f);
    var next := stack[..|stack| - 1] + [f];
    ChangeKeeps(s, n, t, next);
    SameHistory(s, n);
    forall p | Built(n, p)
      ensures p in n.finished || InProgress(n, p)
    {
      assert Built(s, p);
      if p !in n.finished { ProgressKept(s, n, t, next, p); }
    }
  }

  // Going on to the next library below a constructed one.
  lemma SkipFrame(s: State, n: State, f: Frame, locked: bool)
    requires FrameOk(s, f) && f.p >= 0 && Built(s, f.p) && n.dsos == s.dsos
    ensures FrameOk(n, Frame(f.start, f.p - 1, Test, locked))
  {
    forall i | f.p - 1 < i <= f.start ensures Built(n, i) { assert Built(s, i); }
  }

  lemma FrameMoved(s: State, n: State, f: Frame, pc: Pc)
    requires FrameOk(s, f) && f.p >= 0 && n.dsos == s.dsos
    requires (f.pc == Ctor && pc == Relock) || (pc == Set && !Built(s, f.p))
    ensures FrameOk(n, f.(pc := pc))
  {
    forall i | f.p < i <= f.start ensures Built(n, i) { assert Built(s, i); }
    assert Built(n, f.p) == Built(s, f.p);
  }

  lemma TestKeeps(s: State, t: nat)
    requires Inv(s) && CanStep(s, t) && Top(s.threads[t]).pc == Test && Top(s.threads[t]).p >= 0
    ensures Inv(DoTest(s, t))
  {
    var f := Top(s.threads[t]);
    assert StackOk(s, s.threads[t].stack) && FrameOk(s, f) && Excluded(s, t);
    if s.dsos[f.p].constructed {
      SkipFrame(s, DoTest(s, t), f, f.locked);
      MoveKeeps(s, DoTest(s, t), t, f.(p := f.p - 1));
    } else {
      FrameMoved(s, DoTest(s, t), f, Set);
      MoveKeeps(s, DoTest(s, t), t, f.(pc := Set));
    }
  }

  lemma ReturnKeeps(s: State, t: nat)
    requires Inv(s) && CanStep(s, t) && Top(s.threads[t]).pc == Ctor
    ensures Inv(DoReturn(s, t))
  {
    var f := Top(s.threads[t]);
    assert StackOk(s, s.threads[t].stack) && FrameOk(s, f);
    FrameMoved(s, DoReturn(s, t), f, Relock);
    MoveKeeps(s, DoReturn(s, t), t, f.(pc := Relock));
  }

  lemma RelockKeeps(s: State, t: nat)
    requires Inv(s) && CanStep(s, t) && Top(s.threads[t]).pc == Relock
    ensures Inv(DoRelock(s, t))
  {
    var f := Top(s.threads[t]);
    assert StackOk(s, s.threads[t].stack) && FrameOk(s, f);
    SkipFrame(s, DoRelock(s, t), f, f.locked || !Alone(s, t));
    if !f.locked && !Alone(s, t) {
      MoveKeeps(s, DoRelock(s, t), t, f.(locked := true, pc := Test, p := f.p - 1));
    } else {
      MoveKeeps(s, DoRelock(s, t), t, f.(pc := Test, p := f.p - 1));
    }
  }

  lemma LeaveChange(s: State, t: nat)
    requires Inv(s) && CanStep(s, t) && Top(s.threads[t]).pc == Test && Top(s.threads[t]).p < 0
    ensures Changes(s, DoTest(s, t), t, s.threads[t].stack[..|s.threads[t].stack| - 1])
  {
    var n, stack := DoTest(s, t), s.threads[t].stack;
    var below := stack[..|stack| - 1];
    assert StackOk(s, stack);
    if Top(s.threads[t]).locked { LockedAt(stack, |stack| - 1); }
    assert StackOk(n, below) by {
      forall k | 0 <= k < |below| ensures FrameOk(n, below[k]) { FrameKept(s, n, stack[k]); }
    }
  }

  lemma LeaveKeeps(s: State, t: nat)
    requires Inv(s) && CanStep(s, t) && Top(s.threads[t]).pc == Test && Top(s.threads[t]).p < 0
    ensures Inv(DoTest(s, t))
  {
    hide StackOk, Excluded, LockedCount, FrameOk, Changes;
    var n := DoTest(s, t);
    var stack := s.threads[t].stack;
    var below := stack[..|stack| - 1];
    LeaveChange(s, t);
    ChangeKeeps(s, n, t, below);
    SameHistory(s, n);
    forall p | Built(n, p)
      ensures p in n.finished || InProgress(n, p)
    {
      assert Built(s, p);
      if p !in s.finished { ProgressKept(s, n, t, below, p); }
    }
  }

  lemma SetHistory(s: State, t: nat)
    requires Inv(s) && CanStep(s, t) && Top(s.threads[t]).pc == Set
    ensures HistoryOk(DoSet(s, t))
  {
    var f := Top(s.threads[t]);
    var n := DoSet(s, t);
    assert FrameOk(s, f);
    forall p: int ensures Built(n, p) <==> Built(s, p) || p == f.p { }
    assert n.begun[..|n.begun| - 1] == s.begun;
    BegunKnown(s);
    FiniSame(s.begun, s, n);
  }

  lemma SetChange(s: State, t: nat)
    requires Inv(s) && CanStep(s, t) && Top(s.threads[t]).pc == Set
    ensures var stack := s.threads[t].stack;
      && Changes(s, DoSet(s, t), t, stack[..|stack| - 1] + [Top(s.threads[t]).(pc := Ctor)])
      && forall p: int :: Built(DoSet(s, t), p) <==> Built(s, p) || p == Top(s.threads[t]).p
  {
    var f := Top(s.threads[t]);
    var n := DoSet(s, t);
    var stack := s.threads[t].stack;
    assert StackOk(s, stack) && FrameOk(s, f);
    forall p: int ensures Built(n, p) <==> Built(s, p) || p == f.p { }
    TopReplaced(s, n, stack, f.(pc := Ctor));
    CountReplaced(stack, f.(pc := Ctor));
  }

  lemma SetKeeps(s: State, t: nat)
    requires Inv(s) && CanStep(s, t) && Top(s.threads[t]).pc == Set
    ensures Inv(DoSet(s, t))
  {
    hide StackOk, Excluded, LockedCount, FrameOk, Changes;
    var f := Top(s.threads[t]);
    var n := DoSet(s, t);
    var stack := s.threads[t].stack;
    var next := stack[..|stack| - 1] + [f.(pc := Ctor)];
    SetChange(s, t);
    ChangeKeeps(s, n, t, next);
    SetHistory(s, t);
    forall p | Built(n, p)
      ensures p in n.finished || InProgress(n, p)
    {
      if p == f.p {
        assert Inside(n.threads[t].stack[|stack| - 1], p);
      } else if p !in s.finished {
        ProgressKept(s, n, t, next, p);
      }
    }
  }

  /** Every event keeps the invariant. */
  lemma EventKeeps(s: State, e: Event)
    requires Inv(s) && Enabled(s, e)
    ensures Inv(Next(s, e))
  {
    match e
    case Load(hasFini) => LoadKeeps(s, hasFini);
    case Enter(t, start) => EnterKeeps(s, t, start);
    case CreateThread(t) => CreateKeeps(s, t);
    case ExitThread(t) => ExitKeeps(s, t);
    case Step(t) =>
      match Top(s.threads[t]).pc
      case Test => if Top(s.threads[t]).p >= 0 { TestKeeps(s, t); } else { LeaveKeeps(s, t); }
      case Set => SetKeeps(s, t);
      case Ctor => ReturnKeeps(s, t);
      case Relock => RelockKeeps(s, t);
  }

  lemma {:induction false} RunKeeps(s: State, events: seq<Event>, t: State)
    requires Inv(s) && Runs(s, events, t)
    ensures Inv(t)
    decreases |events|
  {
    hide Inv;
    if events != [] {
      EventKeeps(s, events[0]);
      RunKeeps(Next(s, events[0]), events[1..], t);
    }
  }
}
