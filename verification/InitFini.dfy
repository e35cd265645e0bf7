/**
 Constructors and destructors of shared libraries (dynlink.c, lines 795-845 and 1265-1272), as an
 interleaving of threads.  A constructor may itself load libraries and enter do_init_fini again, and
 may start threads that do the same.
 */
module InitFini {
  import opened Wrappers

  /** A library: whether it has destructors, and the flag constructed. */
  datatype Dso = Dso(hasFini: bool, constructed: bool)

  /** Where one activation of do_init_fini stands with library p. */
  datatype Pc = Test | Set | Ctor | Relock

  /** start is the library it was entered with, p the current one (-1 past the head), locked is need_locking. */
  datatype Frame = Frame(start: nat, p: int, pc: Pc, locked: bool)

  /** The activations of one thread, innermost last. */
  datatype Thread = Thread(alive: bool, stack: seq<Frame>)

  /**
   The list of libraries, the list from fini_head on, the threads, and the owner and depth of
   init_fini_lock.  begun and finished record whose constructors have started and ended.
   */
  datatype State = State(dsos: seq<Dso>, fini: seq<nat>, threads: seq<Thread>, owner: Option<nat>, depth: nat,
    begun: seq<nat>, finished: set<nat>)

  datatype Event =
    | Load(hasFini: bool)
    | Enter(t: nat, start: nat)
    | Step(t: nat)
    | CreateThread(t: nat)
    | ExitThread(t: nat)

  // ---------- steps ----------

  /** libc.threads_minus_1 is zero. */
  ghost predicate Alone(s: State, t: nat) {
    forall u :: 0 <= u < |s.threads| && u != t ==> !s.threads[u].alive
  }

  predicate Has(s: State, t: nat) {
    t < |s.threads| && s.threads[t].alive
  }

  /** The thread runs code of the program or of a constructor. */
  predicate Free(s: State, t: nat) {
    Has(s, t) && (s.threads[t].stack == [] || Top(s.threads[t]).pc == Ctor)
  }

  function Top(x: Thread): Frame
    requires x.stack != []
  {
    x.stack[|x.stack| - 1]
  }

  predicate CanLock(s: State, t: nat) {
    s.owner == None || s.owner == Some(t)
  }

  function Lock(s: State, t: nat): State {
    s.(owner := Some(t), depth := s.depth + 1)
  }

  function Unlock(s: State): State
    requires s.depth > 0
  {
    if s.depth == 1 then s.(owner := None, depth := 0) else s.(depth := s.depth - 1)
  }

  function SetStack(s: State, t: nat, stack: seq<Frame>): State
    requires t < |s.threads|
  {
    s.(threads := s.threads[t := s.threads[t].(stack := stack)])
  }

  function SetTop(s: State, t: nat, f: Frame): State
    requires t < |s.threads| && s.threads[t].stack != []
  {
    var stack := s.threads[t].stack;
    SetStack(s, t, stack[..|stack| - 1] + [f])
  }

  ghost predicate CanEnter(s: State, t: nat, start: nat) {
    Free(s, t) && start < |s.dsos| && (Alone(s, t) || CanLock(s, t))
  }

  // Lines 817-821.
  ghost function DoEnter(s: State, t: nat, start: nat): State
    requires CanEnter(s, t, start)
  {
    var locked := !Alone(s, t);
    var s1 := if locked then Lock(s, t) else s;
    SetStack(s1, t, s.threads[t].stack + [Frame(start, start, Test, locked)])
  }

  ghost predicate CanStep(s: State, t: nat) {
    Has(s, t) && s.threads[t].stack != []
    && var f := Top(s.threads[t]);
       f.p < |s.dsos|
       && (f.pc != Test ==> f.p >= 0)
       && (f.pc == Test && f.p < 0 && f.locked ==> s.depth > 0)
       && (f.pc == Relock && !f.locked ==> Alone(s, t) || CanLock(s, t))
  }

  // The loop test and the test of constructed, or the end of the loop.
  ghost function DoTest(s: State, t: nat): State
    requires CanStep(s, t) && Top(s.threads[t]).pc == Test
  {
    var f := Top(s.threads[t]);
    if f.p < 0 then
      var stack := s.threads[t].stack;
      SetStack(if f.locked then Unlock(s) else s, t, stack[..|stack| - 1])
    else if s.dsos[f.p].constructed then SetTop(s, t, f.(p := f.p - 1))
    else SetTop(s, t, f.(pc := Set))
  }

  // Lines 824-829.
  ghost function DoSet(s: State, t: nat): State
    requires CanStep(s, t) && Top(s.threads[t]).pc == Set
  {
    var f := Top(s.threads[t]);
    var s1 := s.(dsos := s.dsos[f.p := s.dsos[f.p].(constructed := true)],
                 fini := if s.dsos[f.p].hasFini then [f.p] + s.fini else s.fini,
                 begun := s.begun + [f.p]);
    SetTop(s1, t, f.(pc := Ctor))
  }

  // The last constructor of the library returns.
  ghost function DoReturn(s: State, t: nat): State
    requires CanStep(s, t) && Top(s.threads[t]).pc == Ctor
  {
    var f := Top(s.threads[t]);
    SetTop(s.(finished := s.finished + {f.p}), t, f.(pc := Relock))
  }

  // Lines 839-842.
  ghost function DoRelock(s: State, t: nat): State
    requires CanStep(s, t) && Top(s.threads[t]).pc == Relock
  {
    var f := Top(s.threads[t]);
    if !f.locked && !Alone(s, t) then SetTop(Lock(s, t), t, f.(locked := true, pc := Test, p := f.p - 1))
    else SetTop(s, t, f.(pc := Test, p := f.p - 1))
  }

  ghost function DoStep(s: State, t: nat): State
    requires CanStep(s, t)
  {
    match Top(s.threads[t]).pc
    case Test => DoTest(s, t)
    case Set => DoSet(s, t)
    case Ctor => DoReturn(s, t)
    case Relock => DoRelock(s, t)
  }

  ghost predicate Enabled(s: State, e: Event) {
    match e
    case Load(_) => true
    case Enter(t, start) => CanEnter(s, t, start)
    case Step(t) => CanStep(s, t)
    case CreateThread(t) => Free(s, t)
    case ExitThread(t) => Has(s, t) && s.threads[t].stack == []
  }

  ghost function Next(s: State, e: Event): State
    requires Enabled(s, e)
  {
    match e
    case Load(hasFini) => s.(dsos := s.dsos + [Dso(hasFini, false)])
    case Enter(t, start) => DoEnter(s, t, start)
    case Step(t) => DoStep(s, t)
    case CreateThread(_) => s.(threads := s.threads + [Thread(true, [])])
    case ExitThread(t) => s.(threads := s.threads[t := Thread(false, [])])
  }

  /** One thread, no libraries yet. */
  function Start(): State {
    State([], [], [Thread(true, [])], None, 0, [], {})
  }

  ghost predicate Runs(s: State, events: seq<Event>, t: State)
    decreases |events|
  {
    if events == [] then s == t
    else Enabled(s, events[0]) && Runs(Next(s, events[0]), events[1..], t)
  }

  // ---------- destructors ----------

  /** The libraries of a list that have destructors, last first. */
  function FiniOrder(begun: seq<nat>, dsos: seq<Dso>): seq<nat>
    decreases |begun|
  {
    if begun == [] then []
    else
      var rest := FiniOrder(begun[..|begun| - 1], dsos);
      var p := begun[|begun| - 1];
      if p < |dsos| && dsos[p].hasFini then [p] + rest else rest
  }

  /** The constructed libraries among the first n of the list. */
  function Constructed(list: seq<nat>, dsos: seq<Dso>, n: nat): seq<nat>
    requires n <= |list|
  {
    if n == 0 then []
    else
      var p := list[n - 1];
      if p < |dsos| && dsos[p].constructed then Constructed(list, dsos, n - 1) + [p] else Constructed(list, dsos, n - 1)
  }

  /** do_fini, lines 795-812: the libraries whose destructors run, in order. */
  method DoFini(s: State) returns (called: seq<nat>)
    ensures called == Constructed(s.fini, s.dsos, |s.fini|)
  {
    called := [];
    for i := 0 to |s.fini|
      invariant called == Constructed(s.fini, s.dsos, i)
    {
      var p := s.fini[i];
      if p < |s.dsos| && s.dsos[p].constructed {
        called := called + [p];
      }
    }
  }
}
