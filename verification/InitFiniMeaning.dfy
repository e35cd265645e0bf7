/**
 The guarantees for constructors and destructors, over every run.
 */
module InitFiniMeaning {
  import opened Wrappers
  import opened InitFini
  import opened InitFiniSafety

  ghost predicate Reachable(s: State) {
    exists events :: Runs(Start(), events, s)
  }

  lemma ReachableOk(s: State)
    requires Reachable(s)
    ensures Inv(s)
  {
    var events :| Runs(Start(), events, s);
    RunKeeps(Start(), events, s);
  }

  /** The constructors of each library start at most once, whatever threads and nested loads there are. */
  lemma ConstructedOnce(s: State)
    requires Reachable(s)
    ensures Distinct(s.begun)
    ensures forall p :: p in s.begun <==> Built(s, p)
  {
    ReachableOk(s);
  }

  /** No two threads are ever between the test of constructed and its assignment. */
  lemma FlagExclusive(s: State, t: nat, u: nat)
    requires Reachable(s) && t < |s.threads| && u < |s.threads| && t != u
    ensures !(AtFlag(s, t) && AtFlag(s, u))
  {
    ReachableOk(s);
    OneAtFlag(s, t, u);
  }

  /** When an activation leaves, every library from the head to its start was constructed by someone. */
  lemma LeaveComplete(s: State, t: nat, p: int)
    requires Reachable(s) && CanStep(s, t) && Top(s.threads[t]).pc == Test && Top(s.threads[t]).p < 0
    requires 0 <= p <= Top(s.threads[t]).start
    ensures p in s.begun && (p in s.finished || InProgress(s, p))
  {
    ReachableOk(s);
    assert FrameOk(s, Top(s.threads[t]));
    assert Built(s, p);
  }

  /** With no activation left, every constructor that started has ended. */
  lemma QuietFinished(s: State, p: nat)
    requires Reachable(s) && (forall t :: 0 <= t < |s.threads| ==> s.threads[t].stack == []) && p in s.begun
    ensures p in s.finished
  {
    ReachableOk(s);
    assert Built(s, p);
  }

  /** An activation can always go on, unless it waits for the lock that another thread holds. */
  lemma StepUnlessWaiting(s: State, t: nat)
    requires Reachable(s) && Has(s, t) && s.threads[t].stack != []
    ensures CanStep(s, t) || (Top(s.threads[t]).pc == Relock && s.owner.Some? && s.owner.value != t)
  {
    ReachableOk(s);
    assert FrameOk(s, Top(s.threads[t]));
    LockedOwner(s, t);
  }

  lemma StepBegun(s: State, e: Event)
    requires Enabled(s, e)
    ensures s.begun <= Next(s, e).begun
  {
  }

  /** The order in which construction began only grows at its end. */
  lemma {:induction false} BegunGrows(s: State, events: seq<Event>, t: State)
    requires Runs(s, events, t)
    ensures s.begun <= t.begun
    decreases |events|
  {
    if events != [] {
      StepBegun(s, events[0]);
      BegunGrows(Next(s, events[0]), events[1..], t);
    }
  }

  // ---------- destructors ----------

  /** The libraries of begun that have destructors, in the same order. */
  function WithFini(begun: seq<nat>, dsos: seq<Dso>): seq<nat>
    decreases |begun|
  {
    if begun == [] then []
    else
      var p := begun[|begun| - 1];
      WithFini(begun[..|begun| - 1], dsos) + if p < |dsos| && dsos[p].hasFini then [p] else []
  }

  lemma {:induction false} FiniOrderReversed(begun: seq<nat>, dsos: seq<Dso>, k: nat)
    requires k < |WithFini(begun, dsos)|
    ensures |FiniOrder(begun, dsos)| == |WithFini(begun, dsos)|
    ensures FiniOrder(begun, dsos)[|WithFini(begun, dsos)| - 1 - k] == WithFini(begun, dsos)[k]
    decreases |begun|
  {
    var shorter := begun[..|begun| - 1];
    FiniLength(shorter, dsos);
    if k < |WithFini(shorter, dsos)| {
      FiniOrderReversed(shorter, dsos, k);
    }
  }

  lemma {:induction false} FiniLength(begun: seq<nat>, dsos: seq<Dso>)
    ensures |FiniOrder(begun, dsos)| == |WithFini(begun, dsos)|
    decreases |begun|
  {
    if begun != [] { FiniLength(begun[..|begun| - 1], dsos); }
  }

  lemma {:induction false} FiniMembers(begun: seq<nat>, dsos: seq<Dso>, i: nat)
    requires i < |FiniOrder(begun, dsos)|
    ensures FiniOrder(begun, dsos)[i] in begun && FiniOrder(begun, dsos)[i] < |dsos|
    decreases |begun|
  {
    var shorter := begun[..|begun| - 1];
    var p := begun[|begun| - 1];
    if p < |dsos| && dsos[p].hasFini {
      if i > 0 { FiniMembers(shorter, dsos, i - 1); }
    } else {
      FiniMembers(shorter, dsos, i);
    }
  }

  lemma {:induction false} AllConstructed(list: seq<nat>, dsos: seq<Dso>, n: nat)
    requires n <= |list| && forall i :: 0 <= i < |list| ==> list[i] < |dsos| && dsos[list[i]].constructed
    ensures Constructed(list, dsos, n) == list[..n]
  {
    if n > 0 {
      AllConstructed(list, dsos, n - 1);
      assert list[..n] == list[..n - 1] + [list[n - 1]];
    }
  }

  /**
   do_fini at any moment of any run calls the destructors of exactly the libraries whose construction
   has begun and that have any, each once, in the reverse of the order in which it began.
   */
  lemma FiniIsReverse(s: State, k: nat)
    requires Reachable(s) && k < |WithFini(s.begun, s.dsos)|
    ensures |Constructed(s.fini, s.dsos, |s.fini|)| == |WithFini(s.begun, s.dsos)|
    ensures Constructed(s.fini, s.dsos, |s.fini|)[|WithFini(s.begun, s.dsos)| - 1 - k] == WithFini(s.begun, s.dsos)[k]
  {
    ReachableOk(s);
    forall i | 0 <= i < |s.fini|
      ensures s.fini[i] < |s.dsos| && s.dsos[s.fini[i]].constructed
    {
      FiniMembers(s.begun, s.dsos, i);
      assert Built(s, s.fini[i]);
    }
    AllConstructed(s.fini, s.dsos, |s.fini|);
    FiniOrderReversed(s.begun, s.dsos, k);
  }
}
