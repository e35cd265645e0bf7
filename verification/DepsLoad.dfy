/**
 load_deps of dynlink.c: the walk over the growing list, its end, and what the list is then.
 */
module DepsLoad {
  import opened Wrappers
  import opened DepsModel
  import opened Deps

  type Search = (string, seq<Ino>) -> Option<Found>

  /** Some library behind the head is what the name means to library p. */
  ghost predicate Answered(nodes: seq<Dso>, order: seq<nat>, p: nat, name: string, search: Search, ldsoName: string) {
    |order| >= 1
    && exists d :: d in order[1..] && Answers(nodes, name, search(name, Chain(nodes, Some(p))), ldsoName, d)
  }

  /** Every name that library p needs is answered by a library in the list. */
  ghost predicate Closed(nodes: seq<Dso>, order: seq<nat>, p: nat, search: Search, ldsoName: string) {
    p < |nodes| && forall j :: 0 <= j < |nodes[p].needed| ==>
      Answered(nodes, order, p, nodes[p].needed[j], search, ldsoName)
  }

  /** What loading names on behalf of library p may have done. */
  ghost predicate Served(files: map<Ino, seq<string>>, vdso: bool, was: seq<Dso>, wasOrder: seq<nat>,
        now: seq<Dso>, nowOrder: seq<nat>, p: nat) {
    Extends(was, wasOrder, now, nowOrder)
    && (nowOrder == wasOrder || Fresh(files, vdso, now, nowOrder) < Fresh(files, vdso, was, wasOrder))
    && (nowOrder == wasOrder ==> Fresh(files, vdso, now, nowOrder) == Fresh(files, vdso, was, wasOrder))
    && (forall q :: |was| <= q < |now| ==> now[q].neededBy == Some(p))
    && (forall i :: |wasOrder| <= i < |nowOrder| ==> nowOrder[i] < FirstLoaded(vdso) || nowOrder[i] >= |was|)
  }

  lemma ExtendsNext(a: seq<Dso>, aOrder: seq<nat>, b: seq<Dso>, bOrder: seq<nat>, c: seq<Dso>, cOrder: seq<nat>)
    requires Extends(a, aOrder, b, bOrder) && Extends(b, bOrder, c, cOrder)
    ensures Extends(a, aOrder, c, cOrder)
  {
    forall q | 0 <= q < |a| ensures Keeps(a[q], c[q]) { assert Keeps(a[q], b[q]) && Keeps(b[q], c[q]); }
  }

  lemma ServedNext(files: map<Ino, seq<string>>, vdso: bool, a: seq<Dso>, aOrder: seq<nat>, b: seq<Dso>,
        bOrder: seq<nat>, c: seq<Dso>, cOrder: seq<nat>, p: nat)
    requires Served(files, vdso, a, aOrder, b, bOrder, p) && Loaded(files, vdso, b, bOrder, c, cOrder, Some(p))
    ensures Served(files, vdso, a, aOrder, c, cOrder, p) && |a| <= |c|
  {
    hide Fresh;
    ExtendsNext(a, aOrder, b, bOrder, c, cOrder);
    forall q | |a| <= q < |c| ensures c[q].neededBy == Some(p) {
      if q < |b| { assert Keeps(b[q], c[q]); }
    }
    forall i | |aOrder| <= i < |cOrder| ensures cOrder[i] < FirstLoaded(vdso) || cOrder[i] >= |a| {
      if i < |bOrder| { assert cOrder[i] == bOrder[i]; }
    }
  }

  lemma {:induction false} ChainKept(was: seq<Dso>, now: seq<Dso>, p: Option<nat>)
    requires |was| <= |now| && forall q :: 0 <= q < |was| ==> Keeps(was[q], now[q])
    requires p.Some? ==> p.value < |was|
    requires forall q :: 0 <= q < |was| ==> NeededEarlier(was, q)
    ensures Chain(was, p) == Chain(now, p)
    decreases if p.Some? then p.value + 1 else 0
  {
    if p.Some? {
      assert Keeps(was[p.value], now[p.value]) && NeededEarlier(was, p.value);
      ChainKept(was, now, was[p.value].neededBy);
    }
  }

  // What was answered stays answered.
  lemma AnsweredKept(was: seq<Dso>, wasOrder: seq<nat>, now: seq<Dso>, nowOrder: seq<nat>, p: nat,
        name: string, search: Search, ldsoName: string)
    requires Extends(was, wasOrder, now, nowOrder) && p < |was| && Answered(was, wasOrder, p, name, search, ldsoName)
    requires forall q :: 0 <= q < |was| ==> NeededEarlier(was, q)
    ensures Answered(now, nowOrder, p, name, search, ldsoName)
  {
    ChainKept(was, now, Some(p));
    var d :| d in wasOrder[1..] && Answers(was, name, search(name, Chain(was, Some(p))), ldsoName, d);
    var i :| 0 <= i < |wasOrder| - 1 && wasOrder[1..][i] == d;
    assert nowOrder[1..][i] == d && Keeps(was[d], now[d]);
    assert d in nowOrder[1..] && Answers(now, name, search(name, Chain(now, Some(p))), ldsoName, d);
  }

  lemma ClosedKept(was: seq<Dso>, wasOrder: seq<nat>, now: seq<Dso>, nowOrder: seq<nat>, p: nat,
        search: Search, ldsoName: string)
    requires Extends(was, wasOrder, now, nowOrder) && Closed(was, wasOrder, p, search, ldsoName)
    requires forall q :: 0 <= q < |was| ==> NeededEarlier(was, q)
    ensures Closed(now, nowOrder, p, search, ldsoName)
  {
    assert Keeps(was[p], now[p]);
    forall j | 0 <= j < |now[p].needed| ensures Answered(now, nowOrder, p, now[p].needed[j], search, ldsoName) {
      AnsweredKept(was, wasOrder, now, nowOrder, p, was[p].needed[j], search, ldsoName);
    }
  }

  /**
   Breadth first: from[i] is the place in the list of the library for which the i-th new one was
   loaded, and those places never go back.
   */
  ghost predicate BreadthFirst(nodes: seq<Dso>, order: seq<nat>, vdso: bool, before: nat, first: nat,
        last: nat, from: seq<nat>) {
    |from| == |order| - before
    && (forall i :: 0 <= i < |from| ==> ServedFor(nodes, order, vdso, before, first, last, from, i))
    && forall i, j :: 0 <= i <= j < |from| ==> from[i] <= from[j]
  }

  ghost predicate ServedFor(nodes: seq<Dso>, order: seq<nat>, vdso: bool, before: nat, first: nat, last: nat,
        from: seq<nat>, i: nat)
    requires i < |from| && |from| == |order| - before
  {
    first <= from[i] <= last && from[i] < before + i && order[before + i] < |nodes|
    && (order[before + i] < FirstLoaded(vdso) || nodes[order[before + i]].neededBy == Some(order[from[i]]))
  }

  ghost predicate AllAnswered(nodes: seq<Dso>, order: seq<nat>, p: nat, needed: seq<string>, i: nat,
        search: Search, ldsoName: string)
    requires i <= |needed|
  {
    forall j :: 0 <= j < i ==> Answered(nodes, order, p, needed[j], search, ldsoName)
  }

  lemma FirstAnswered(was: seq<Dso>, now: seq<Dso>, nowOrder: seq<nat>, p: nat, name: string, search: Search,
        ldsoName: string, d: nat)
    requires |was| <= |now| && (forall q :: 0 <= q < |was| ==> Keeps(was[q], now[q])) && p < |was| && |nowOrder| >= 1
    requires forall q :: 0 <= q < |was| ==> NeededEarlier(was, q)
    requires d in nowOrder[1..] && Answers(now, name, search(name, Chain(was, Some(p))), ldsoName, d)
    ensures Answered(now, nowOrder, p, name, search, ldsoName)
  {
    ChainKept(was, now, Some(p));
  }

  lemma AllKept(was: seq<Dso>, wasOrder: seq<nat>, now: seq<Dso>, nowOrder: seq<nat>, vdso: bool, p: nat,
        needed: seq<string>, i: nat, search: Search, ldsoName: string)
    requires Extends(was, wasOrder, now, nowOrder) && p < |was| && i <= |needed| && FilesOk(was, wasOrder, vdso)
    requires AllAnswered(was, wasOrder, p, needed, i, search, ldsoName)
    ensures AllAnswered(now, nowOrder, p, needed, i, search, ldsoName)
  {
    forall j | 0 <= j < i ensures Answered(now, nowOrder, p, needed[j], search, ldsoName) {
      AnsweredKept(was, wasOrder, now, nowOrder, p, needed[j], search, ldsoName);
    }
  }

  // ---------- the answers ----------

  /** The list after the requests of the inner loop in turn, of which some may have failed. */
  ghost function JoinAll(order: seq<nat>, answers: seq<Option<nat>>, vdso: bool): seq<nat> {
    if answers == [] then order
    else
      var so, last := JoinAll(order, answers[..|answers| - 1], vdso), answers[|answers| - 1];
      if last.Some? then Join(so, last.value, vdso) else so
  }

  ghost function Values(answers: seq<Option<nat>>): seq<nat> {
    if answers == [] then []
    else
      var so, last := Values(answers[..|answers| - 1]), answers[|answers| - 1];
      if last.Some? then so + [last.value] else so
  }

  lemma OneMoreAnswer(order: seq<nat>, answers: seq<Option<nat>>, a: Option<nat>, vdso: bool)
    ensures JoinAll(order, answers + [a], vdso)
         == if a.Some? then Join(JoinAll(order, answers, vdso), a.value, vdso) else JoinAll(order, answers, vdso)
    ensures Values(answers + [a]) == if a.Some? then Values(answers) + [a.value] else Values(answers)
  {
    assert (answers + [a])[..|answers|] == answers;
  }

  lemma {:induction false} AnswersJoin(order: seq<nat>, a: seq<Option<nat>>, b: seq<Option<nat>>, vdso: bool)
    ensures JoinAll(order, a + b, vdso) == JoinAll(JoinAll(order, a, vdso), b, vdso)
    ensures Values(a + b) == Values(a) + Values(b)
    decreases |b|
  {
    if b == [] {
      assert a + b == a;
    } else {
      assert (a + b)[..|a + b| - 1] == a + b[..|b| - 1];
      AnswersJoin(order, a, b[..|b| - 1], vdso);
    }
  }

  ghost predicate AnswerOk(nodes: seq<Dso>, p: nat, name: string, a: Option<nat>, search: Search, ldsoName: string) {
    a.Some? ==> Answers(nodes, name, search(name, Chain(nodes, Some(p))), ldsoName, a.value)
  }

  /** The answers to the first names that library p needs, in the order of its DT_NEEDED entries. */
  ghost predicate AnswersOk(nodes: seq<Dso>, p: nat, answers: seq<Option<nat>>, search: Search, ldsoName: string) {
    && p < |nodes| && |answers| <= |nodes[p].needed|
    && forall j :: 0 <= j < |answers| ==> AnswerOk(nodes, p, nodes[p].needed[j], answers[j], search, ldsoName)
  }

  lemma AnswersOkKept(was: seq<Dso>, wasOrder: seq<nat>, now: seq<Dso>, nowOrder: seq<nat>, vdso: bool, p: nat,
        answers: seq<Option<nat>>, search: Search, ldsoName: string)
    requires Extends(was, wasOrder, now, nowOrder) && FilesOk(was, wasOrder, vdso)
    requires AnswersOk(was, p, answers, search, ldsoName)
    ensures AnswersOk(now, p, answers, search, ldsoName)
  {
    ChainKept(was, now, Some(p));
    assert Keeps(was[p], now[p]);
    forall j | 0 <= j < |answers| ensures AnswerOk(now, p, now[p].needed[j], answers[j], search, ldsoName) {
      assert AnswerOk(was, p, was[p].needed[j], answers[j], search, ldsoName);
      if answers[j].Some? { assert Keeps(was[answers[j].value], now[answers[j].value]); }
    }
  }

  // The answer to the next name.
  lemma AnswersOkNext(was: seq<Dso>, wasOrder: seq<nat>, now: seq<Dso>, nowOrder: seq<nat>, vdso: bool, p: nat,
        answers: seq<Option<nat>>, a: Option<nat>, search: Search, ldsoName: string)
    requires Extends(was, wasOrder, now, nowOrder) && FilesOk(was, wasOrder, vdso)
    requires AnswersOk(was, p, answers, search, ldsoName) && |answers| < |was[p].needed|
    requires AnswerOk(now, p, was[p].needed[|answers|], a, search, ldsoName)
    ensures AnswersOk(now, p, answers + [a], search, ldsoName)
  {
    AnswersOkKept(was, wasOrder, now, nowOrder, vdso, p, answers, search, ldsoName);
    assert Keeps(was[p], now[p]);
  }

  /** One turn of the inner loop: lines 713-730. */
  method LoadOne(l: Loader, p: nat, needed: seq<string>, i: nat) returns (dep: Option<nat>)
    requires l.Valid() && p < |l.nodes| && i < |needed|
    modifies l`nodes, l`tail, l`order
    ensures l.Valid() && Loaded(l.files, l.vdso, old(l.nodes), old(l.order), l.nodes, l.order, Some(p))
    ensures AnswerOk(l.nodes, p, needed[i], dep, l.search, l.ldsoName)
    ensures l.order == if dep.Some? then Join(old(l.order), dep.value, l.vdso) else old(l.order)
    ensures dep.Some? ==> dep.value in l.order
    ensures dep.Some? && old(AllAnswered(l.nodes, l.order, p, needed, i, l.search, l.ldsoName))
      ==> AllAnswered(l.nodes, l.order, p, needed, i + 1, l.search, l.ldsoName)
    ensures dep == None ==> l.nodes == old(l.nodes) && l.order == old(l.order)
  {
    hide Answered, Answers, Chain, Join, Fresh;
    ghost var was, wasOrder := l.nodes, l.order;
    dep := l.LoadLibrary(needed[i], Some(p));
    if dep.Some? {
      ChainKept(was, l.nodes, Some(p));
      FirstAnswered(was, l.nodes, l.order, p, needed[i], l.search, l.ldsoName, dep.value);
      if AllAnswered(was, wasOrder, p, needed, i, l.search, l.ldsoName) {
        AllKept(was, wasOrder, l.nodes, l.order, l.vdso, p, needed, i, l.search, l.ldsoName);
      }
    }
  }

  lemma ServedNone(files: map<Ino, seq<string>>, vdso: bool, nodes: seq<Dso>, order: seq<nat>, p: nat)
    ensures Served(files, vdso, nodes, order, nodes, order, p)
  {
  }

  lemma ClosedWhenAnswered(files: map<Ino, seq<string>>, vdso: bool, was: seq<Dso>, wasOrder: seq<nat>,
        now: seq<Dso>, nowOrder: seq<nat>, p: nat, search: Search, ldsoName: string)
    requires Served(files, vdso, was, wasOrder, now, nowOrder, p) && p < |was|
    ensures AllAnswered(now, nowOrder, p, was[p].needed, |was[p].needed|, search, ldsoName) ==>
      Closed(now, nowOrder, p, search, ldsoName)
  {
    assert Keeps(was[p], now[p]);
  }

  /** Lines 712-731 for one library: its needed names in order. */
  method LoadNeeded(l: Loader, p: nat) returns (ok: bool, deps: seq<nat>, ghost answers: seq<Option<nat>>)
    requires l.Valid() && p < |l.nodes|
    modifies l`nodes, l`tail, l`order, l`ldsoFail
    ensures l.Valid()
    ensures Served(l.files, l.vdso, old(l.nodes), old(l.order), l.nodes, l.order, p)
    ensures !ok ==> l.runtime
    ensures old(l.ldsoFail) ==> l.ldsoFail
    ensures ok && (l.runtime || !l.ldsoFail) ==> Closed(l.nodes, l.order, p, l.search, l.ldsoName)
    ensures AnswersOk(l.nodes, p, answers, l.search, l.ldsoName) && (ok ==> |answers| == |l.nodes[p].needed|)
    ensures l.order == JoinAll(old(l.order), answers, l.vdso)
    ensures deps == if l.runtime then Values(answers) else []
    ensures forall d :: d in deps ==> d in l.order
  {
    hide AllAnswered, Closed, Loaded, Served, Loader.Valid, AnswersOk, AnswerOk, JoinAll, Values, Join, FilesOk;
    ok, deps, answers := true, [], [];
    ghost var was, wasOrder := l.nodes, l.order;
    var needed := l.nodes[p].needed;
    ServedNone(l.files, l.vdso, was, wasOrder, p);
    NoneAnswered(was, wasOrder, p, needed, l.search, l.ldsoName);
    NothingAsked(was, wasOrder, p, l.search, l.ldsoName, l.vdso);
    var i := 0;
    while i < |needed|
      invariant i <= |needed| && |was| <= |l.nodes| && l.Valid()
      invariant Served(l.files, l.vdso, was, wasOrder, l.nodes, l.order, p)
      invariant old(l.ldsoFail) ==> l.ldsoFail
      invariant l.runtime || !l.ldsoFail ==> AllAnswered(l.nodes, l.order, p, needed, i, l.search, l.ldsoName)
      invariant |answers| == i && p < |l.nodes| && l.nodes[p].needed == needed
      invariant AnswersOk(l.nodes, p, answers, l.search, l.ldsoName)
      invariant l.order == JoinAll(wasOrder, answers, l.vdso)
      invariant deps == if l.runtime then Values(answers) else []
      invariant forall d :: d in deps ==> d in l.order
    {
      ghost var mid, midOrder := l.nodes, l.order;
      ValidParts(l);
      var dep := LoadOne(l, p, needed, i);
      LoadedKeeps(l.files, l.vdso, mid, midOrder, l.nodes, l.order, Some(p), p);
      AnswersOkNext(mid, midOrder, l.nodes, l.order, l.vdso, p, answers, dep, l.search, l.ldsoName);
      OneMoreAnswer(wasOrder, answers, dep, l.vdso);
      ServedNext(l.files, l.vdso, was, wasOrder, mid, midOrder, l.nodes, l.order, p);
      LoadedLonger(l.files, l.vdso, mid, midOrder, l.nodes, l.order, Some(p));
      if dep.Some? {
        if l.runtime {
          deps := deps + [dep.value];
        }
      } else if l.runtime {
        ok, answers := false, answers + [dep];
        return;
      } else {
        l.ldsoFail := true;
      }
      i, answers := i + 1, answers + [dep];
    }
    ClosedWhenAnswered(l.files, l.vdso, was, wasOrder, l.nodes, l.order, p, l.search, l.ldsoName);
  }

  lemma NothingAsked(nodes: seq<Dso>, order: seq<nat>, p: nat, search: Search, ldsoName: string, vdso: bool)
    requires p < |nodes|
    ensures AnswersOk(nodes, p, [], search, ldsoName) && JoinAll(order, [], vdso) == order && Values([]) == []
  {
  }

  lemma LoadedKeeps(files: map<Ino, seq<string>>, vdso: bool, was: seq<Dso>, wasOrder: seq<nat>,
        now: seq<Dso>, nowOrder: seq<nat>, neededBy: Option<nat>, p: nat)
    requires Loaded(files, vdso, was, wasOrder, now, nowOrder, neededBy) && p < |was|
    ensures Extends(was, wasOrder, now, nowOrder) && p < |now| && now[p].needed == was[p].needed
  {
    assert Keeps(was[p], now[p]);
  }

  lemma NoneAnswered(nodes: seq<Dso>, order: seq<nat>, p: nat, needed: seq<string>, search: Search, ldsoName: string)
    ensures AllAnswered(nodes, order, p, needed, 0, search, ldsoName)
  {
  }

  lemma LoadedLonger(files: map<Ino, seq<string>>, vdso: bool, was: seq<Dso>, wasOrder: seq<nat>,
        now: seq<Dso>, nowOrder: seq<nat>, neededBy: Option<nat>)
    requires Loaded(files, vdso, was, wasOrder, now, nowOrder, neededBy)
    ensures forall d :: d in wasOrder ==> d in nowOrder
  {
    assert wasOrder == nowOrder[..|wasOrder|];
  }

  // ---------- the walk ----------

  ghost function Flat(all: seq<seq<Option<nat>>>): seq<Option<nat>> {
    if all == [] then [] else Flat(all[..|all| - 1]) + all[|all| - 1]
  }

  /** all[m] are the answers for the library in place first + m, all of them except perhaps in the last. */
  ghost predicate WalkOk(nodes: seq<Dso>, order: seq<nat>, first: nat, all: seq<seq<Option<nat>>>, search: Search,
        ldsoName: string, complete: bool) {
    first + |all| <= |order|
    && forall m :: 0 <= m < |all| ==>
      PlaceOk(nodes, order[first + m], all[m], search, ldsoName, complete || m < |all| - 1)
  }

  ghost predicate PlaceOk(nodes: seq<Dso>, p: nat, answers: seq<Option<nat>>, search: Search, ldsoName: string,
        complete: bool) {
    AnswersOk(nodes, p, answers, search, ldsoName) && (complete ==> |answers| == |nodes[p].needed|)
  }

  lemma WalkOkNext(was: seq<Dso>, wasOrder: seq<nat>, now: seq<Dso>, nowOrder: seq<nat>, vdso: bool, first: nat,
        all: seq<seq<Option<nat>>>, answers: seq<Option<nat>>, search: Search, ldsoName: string, complete: bool)
    requires Extends(was, wasOrder, now, nowOrder) && FilesOk(was, wasOrder, vdso)
    requires WalkOk(was, wasOrder, first, all, search, ldsoName, true) && first + |all| < |wasOrder|
    requires PlaceOk(now, wasOrder[first + |all|], answers, search, ldsoName, complete)
    ensures WalkOk(now, nowOrder, first, all + [answers], search, ldsoName, complete)
  {
    var longer := all + [answers];
    forall m | 0 <= m < |longer|
      ensures PlaceOk(now, nowOrder[first + m], longer[m], search, ldsoName, complete || m < |longer| - 1)
    {
      if m < |all| {
        var p := wasOrder[first + m];
        assert PlaceOk(was, p, all[m], search, ldsoName, true);
        AnswersOkKept(was, wasOrder, now, nowOrder, vdso, p, all[m], search, ldsoName);
        assert Keeps(was[p], now[p]);
      }
    }
  }

  lemma FlatNext(order: seq<nat>, all: seq<seq<Option<nat>>>, answers: seq<Option<nat>>, vdso: bool)
    ensures JoinAll(order, Flat(all + [answers]), vdso) == JoinAll(JoinAll(order, Flat(all), vdso), answers, vdso)
    ensures Values(Flat(all + [answers])) == Values(Flat(all)) + Values(answers)
  {
    assert (all + [answers])[..|all|] == all;
    AnswersJoin(order, Flat(all), answers, vdso);
  }

  ghost predicate ClosedUpTo(nodes: seq<Dso>, order: seq<nat>, first: nat, k: nat, search: Search, ldsoName: string)
    requires k <= |order|
  {
    forall j :: first <= j < k ==> Closed(nodes, order, order[j], search, ldsoName)
  }

  lemma ClosedNext(files: map<Ino, seq<string>>, vdso: bool, was: seq<Dso>, wasOrder: seq<nat>, now: seq<Dso>,
        nowOrder: seq<nat>, first: nat, k: nat, search: Search, ldsoName: string)
    requires FilesOk(was, wasOrder, vdso) && k < |wasOrder|
      && Served(files, vdso, was, wasOrder, now, nowOrder, wasOrder[k])
    requires ClosedUpTo(was, wasOrder, first, k, search, ldsoName)
      && Closed(now, nowOrder, wasOrder[k], search, ldsoName)
    ensures ClosedUpTo(now, nowOrder, first, k + 1, search, ldsoName)
  {
    forall j | first <= j < k + 1 ensures Closed(now, nowOrder, nowOrder[j], search, ldsoName) {
      if j < k {
        assert Closed(was, wasOrder, wasOrder[j], search, ldsoName);
        ClosedKept(was, wasOrder, now, nowOrder, wasOrder[j], search, ldsoName);
      }
    }
  }

  function Repeat(k: nat, n: nat): (r: seq<nat>)
    ensures |r| == n && forall i :: 0 <= i < n ==> r[i] == k
  {
    seq(n, _ => k)
  }

  // The libraries added while the walk stands at k.
  lemma BreadthNext(files: map<Ino, seq<string>>, vdso: bool, was: seq<Dso>, wasOrder: seq<nat>, now: seq<Dso>,
        nowOrder: seq<nat>, before: nat, first: nat, k: nat, from: seq<nat>)
    requires first <= k < |wasOrder| && before <= |wasOrder|
      && Served(files, vdso, was, wasOrder, now, nowOrder, wasOrder[k])
    requires BreadthFirst(was, wasOrder, vdso, before, first, k, from)
    requires forall i :: 0 <= i < |nowOrder| ==> nowOrder[i] < |now|
    ensures BreadthFirst(now, nowOrder, vdso, before, first, k, from + Repeat(k, |nowOrder| - |wasOrder|))
  {
    var longer := from + Repeat(k, |nowOrder| - |wasOrder|);
    forall i | 0 <= i < |from|
      ensures ServedFor(now, nowOrder, vdso, before, first, k, longer, i) && longer[i] == from[i] <= k
    {
      ServedForKept(was, wasOrder, now, nowOrder, vdso, before, first, k, from, longer, i);
    }
    forall i | |from| <= i < |longer|
      ensures ServedFor(now, nowOrder, vdso, before, first, k, longer, i) && longer[i] == k
    {
      ServedForNew(files, vdso, was, wasOrder, now, nowOrder, before, first, k, longer, i);
    }
    LongerRises(from, longer, k);
  }

  lemma LongerRises(from: seq<nat>, longer: seq<nat>, k: nat)
    requires |from| <= |longer| && (forall i, j :: 0 <= i <= j < |from| ==> from[i] <= from[j])
    requires forall i :: 0 <= i < |longer| ==> longer[i] == if i < |from| then from[i] else k
    requires forall i :: 0 <= i < |from| ==> from[i] <= k
    ensures forall i, j :: 0 <= i <= j < |longer| ==> longer[i] <= longer[j]
  {
  }

  lemma ServedForKept(was: seq<Dso>, wasOrder: seq<nat>, now: seq<Dso>, nowOrder: seq<nat>, vdso: bool,
        before: nat, first: nat, k: nat, from: seq<nat>, longer: seq<nat>, i: nat)
    requires before <= |wasOrder| && Extends(was, wasOrder, now, nowOrder)
      && BreadthFirst(was, wasOrder, vdso, before, first, k, from)
    requires |longer| == |nowOrder| - before && i < |from| && longer[i] == from[i]
    ensures ServedFor(now, nowOrder, vdso, before, first, k, longer, i) && from[i] <= k
  {
    assert ServedFor(was, wasOrder, vdso, before, first, k, from, i);
    var q := wasOrder[before + i];
    assert nowOrder[before + i] == q && nowOrder[from[i]] == wasOrder[from[i]];
    assert Keeps(was[q], now[q]);
  }

  lemma ServedForNew(files: map<Ino, seq<string>>, vdso: bool, was: seq<Dso>, wasOrder: seq<nat>,
        now: seq<Dso>, nowOrder: seq<nat>, before: nat, first: nat, k: nat, longer: seq<nat>, i: nat)
    requires first <= k < |wasOrder| && before <= |wasOrder|
      && Served(files, vdso, was, wasOrder, now, nowOrder, wasOrder[k])
    requires |longer| == |nowOrder| - before && |wasOrder| <= before + i < |nowOrder| && longer[i] == k
      && nowOrder[before + i] < |now|
    ensures ServedFor(now, nowOrder, vdso, before, first, k, longer, i)
  {
    hide Fresh;
    assert nowOrder[k] == wasOrder[k];
  }

  lemma BreadthWider(nodes: seq<Dso>, order: seq<nat>, vdso: bool, before: nat, first: nat, k: nat, last: nat,
        from: seq<nat>)
    requires before <= |order| && k <= last && BreadthFirst(nodes, order, vdso, before, first, k, from)
    ensures BreadthFirst(nodes, order, vdso, before, first, last, from)
  {
    forall i | 0 <= i < |from| ensures ServedFor(nodes, order, vdso, before, first, last, from, i) {
      assert ServedFor(nodes, order, vdso, before, first, k, from, i);
    }
  }

  lemma NextInList(l: Loader, k: nat)
    requires l.Valid() && k < |l.order|
    ensures l.order[k] < |l.nodes|
      && l.nodes[l.order[k]].next == if k + 1 < |l.order| then Some(l.order[k + 1]) else None
  {
    if k + 1 < |l.order| { assert Joined(l.nodes, l.order[k], l.order[k + 1]); }
  }

  lemma ValidParts(l: Loader)
    requires l.Valid()
    ensures FilesOk(l.nodes, l.order, l.vdso) && forall i :: 0 <= i < |l.order| ==> l.order[i] < |l.nodes|
  {
  }

  lemma ServedExtends(files: map<Ino, seq<string>>, vdso: bool, a: seq<Dso>, aOrder: seq<nat>, b: seq<Dso>,
        bOrder: seq<nat>, c: seq<Dso>, cOrder: seq<nat>, p: nat)
    requires Extends(a, aOrder, b, bOrder) && Served(files, vdso, b, bOrder, c, cOrder, p)
    ensures Extends(a, aOrder, c, cOrder) && bOrder <= cOrder
    ensures cOrder == bOrder || Fresh(files, vdso, c, cOrder) < Fresh(files, vdso, b, bOrder)
    ensures cOrder == bOrder ==> Fresh(files, vdso, c, cOrder) == Fresh(files, vdso, b, bOrder)
  {
    hide Fresh;
    ExtendsNext(a, aOrder, b, bOrder, c, cOrder);
  }

  /**
   load_deps, lines 707-733: the walk from library start along next while the list grows.  It ends, and
   the names needed from start on are answered by libraries of the list.  all has the answers, library
   by library along the list and for each in the order of its DT_NEEDED entries; the libraries answered
   join the list in this very order, and at run time deps is all of the answers.
   */
  method LoadDeps(l: Loader, start: nat, ghost first: nat)
    returns (ok: bool, deps: seq<nat>, ghost from: seq<nat>, ghost all: seq<seq<Option<nat>>>)
    requires l.Valid() && first < |l.order| && l.order[first] == start
    modifies l`nodes, l`tail, l`order, l`ldsoFail
    ensures l.Valid() && Extends(old(l.nodes), old(l.order), l.nodes, l.order)
    ensures !ok ==> l.runtime
    ensures ok && (l.runtime || !l.ldsoFail) ==> ClosedUpTo(l.nodes, l.order, first, |l.order|, l.search, l.ldsoName)
    ensures BreadthFirst(l.nodes, l.order, l.vdso, |old(l.order)|, first, |l.order|, from)
    ensures WalkOk(l.nodes, l.order, first, all, l.search, l.ldsoName, ok) && (ok ==> first + |all| == |l.order|)
    ensures l.order == JoinAll(old(l.order), Flat(all), l.vdso)
    ensures deps == if l.runtime then Values(Flat(all)) else []
    ensures forall d :: d in deps ==> d in l.order
  {
    hide ClosedUpTo, Served, Loader.Valid, Closed, Fresh, Walked, Values, Flat, FilesOk, PlaceOk, AnswersOk;
    ok, deps, from, all := true, [], [], [];
    ghost var was, wasOrder := l.nodes, l.order;
    WalkStart(was, wasOrder, l.vdso, first, l.search, l.ldsoName);
    ValidParts(l);
    var p := Some(start);
    ghost var k: nat := first;
    while p.Some?
      invariant l.Valid()
      invariant Walked(was, wasOrder, l.nodes, l.order, l.vdso, first, k, from, all, l.search, l.ldsoName, true)
      invariant first <= k <= |l.order| && p == if k < |l.order| then Some(l.order[k]) else None
      invariant first + |all| == k
      invariant l.runtime || !l.ldsoFail ==> ClosedUpTo(l.nodes, l.order, first, k, l.search, l.ldsoName)
      invariant deps == if l.runtime then Values(Flat(all)) else []
      invariant forall d :: d in deps ==> d in l.order
      decreases Fresh(l.files, l.vdso, l.nodes, l.order), |l.order| - k
    {
      ghost var mid, midOrder := l.nodes, l.order;
      ValidParts(l);
      var more;
      ghost var answers;
      ok, more, answers := LoadNeeded(l, p.value);
      ValidParts(l);
      ServedGrows(l.files, l.vdso, mid, midOrder, l.nodes, l.order, p.value);
      PlaceAnswered(l.nodes, p.value, answers, l.search, l.ldsoName, ok);
      WalkedNext(l.files, was, wasOrder, mid, midOrder, l.nodes, l.order, l.vdso, first, k, from, all, answers,
        l.search, l.ldsoName, ok);
      FlatValues(all, answers);
      DepsKept(deps, more, midOrder, l.order);
      from, all, deps := from + Repeat(k, |l.order| - |midOrder|), all + [answers], deps + more;
      if !ok {
        break;
      }
      if l.runtime || !l.ldsoFail {
        ClosedNext(l.files, l.vdso, mid, midOrder, l.nodes, l.order, first, k, l.search, l.ldsoName);
      }
      NextInList(l, k);
      p := l.nodes[p.value].next;
      k := k + 1;
    }
    WalkedMeaning(was, wasOrder, l.nodes, l.order, l.vdso, first, k, from, all, l.search, l.ldsoName, ok);
  }

  /** The walk up to place k of the list: what has grown, in which order, and for which answers. */
  ghost predicate Walked(was: seq<Dso>, wasOrder: seq<nat>, now: seq<Dso>, nowOrder: seq<nat>, vdso: bool, first: nat,
        k: nat, from: seq<nat>, all: seq<seq<Option<nat>>>, search: Search, ldsoName: string, ok: bool) {
    && Extends(was, wasOrder, now, nowOrder) && |wasOrder| <= |nowOrder|
    && BreadthFirst(now, nowOrder, vdso, |wasOrder|, first, k, from)
    && WalkOk(now, nowOrder, first, all, search, ldsoName, ok)
    && nowOrder == JoinAll(wasOrder, Flat(all), vdso)
  }

  lemma WalkedNext(files: map<Ino, seq<string>>, was: seq<Dso>, wasOrder: seq<nat>, mid: seq<Dso>, midOrder: seq<nat>,
        now: seq<Dso>, nowOrder: seq<nat>, vdso: bool, first: nat, k: nat, from: seq<nat>, all: seq<seq<Option<nat>>>,
        answers: seq<Option<nat>>, search: Search, ldsoName: string, ok: bool)
    requires Walked(was, wasOrder, mid, midOrder, vdso, first, k, from, all, search, ldsoName, true)
    requires first + |all| == k < |midOrder| && FilesOk(mid, midOrder, vdso)
    requires Served(files, vdso, mid, midOrder, now, nowOrder, midOrder[k]) && |midOrder| <= |nowOrder|
    requires forall i :: 0 <= i < |nowOrder| ==> nowOrder[i] < |now|
    requires PlaceOk(now, midOrder[k], answers, search, ldsoName, ok) && nowOrder == JoinAll(midOrder, answers, vdso)
    ensures Walked(was, wasOrder, now, nowOrder, vdso, first, if ok then k + 1 else |nowOrder|,
      from + Repeat(k, |nowOrder| - |midOrder|), all + [answers], search, ldsoName, ok)
  {
    hide BreadthFirst, WalkOk, JoinAll, Flat, Fresh, PlaceOk, Extends, FilesOk, Served;
    ServedKeeps(files, vdso, mid, midOrder, now, nowOrder, midOrder[k]);
    ServedExtends(files, vdso, was, wasOrder, mid, midOrder, now, nowOrder, midOrder[k]);
    BreadthNext(files, vdso, mid, midOrder, now, nowOrder, |wasOrder|, first, k, from);
    BreadthWider(now, nowOrder, vdso, |wasOrder|, first, k, if ok then k + 1 else |nowOrder|,
      from + Repeat(k, |nowOrder| - |midOrder|));
    WalkOkNext(mid, midOrder, now, nowOrder, vdso, first, all, answers, search, ldsoName, ok);
    FlatNext(wasOrder, all, answers, vdso);
  }

  // At the end, or where the program jumps out.
  lemma WalkedMeaning(was: seq<Dso>, wasOrder: seq<nat>, now: seq<Dso>, nowOrder: seq<nat>, vdso: bool, first: nat,
        k: nat, from: seq<nat>, all: seq<seq<Option<nat>>>, search: Search, ldsoName: string, ok: bool)
    requires Walked(was, wasOrder, now, nowOrder, vdso, first, if ok then k else |nowOrder|, from, all,
      search, ldsoName, ok)
    ensures Extends(was, wasOrder, now, nowOrder)
    ensures BreadthFirst(now, nowOrder, vdso, |wasOrder|, first, if ok then k else |nowOrder|, from)
    ensures WalkOk(now, nowOrder, first, all, search, ldsoName, ok) && nowOrder == JoinAll(wasOrder, Flat(all), vdso)
  {
  }

  lemma ServedGrows(files: map<Ino, seq<string>>, vdso: bool, was: seq<Dso>, wasOrder: seq<nat>, now: seq<Dso>,
        nowOrder: seq<nat>, p: nat)
    requires Served(files, vdso, was, wasOrder, now, nowOrder, p)
    ensures wasOrder <= nowOrder
    ensures nowOrder == wasOrder || Fresh(files, vdso, now, nowOrder) < Fresh(files, vdso, was, wasOrder)
    ensures nowOrder == wasOrder ==> Fresh(files, vdso, now, nowOrder) == Fresh(files, vdso, was, wasOrder)
  {
  }

  lemma PlaceAnswered(nodes: seq<Dso>, p: nat, answers: seq<Option<nat>>, search: Search, ldsoName: string, ok: bool)
    requires AnswersOk(nodes, p, answers, search, ldsoName) && p < |nodes| && (ok ==> |answers| == |nodes[p].needed|)
    ensures PlaceOk(nodes, p, answers, search, ldsoName, ok)
  {
  }

  lemma FlatValues(all: seq<seq<Option<nat>>>, answers: seq<Option<nat>>)
    ensures Values(Flat(all + [answers])) == Values(Flat(all)) + Values(answers)
  {
    FlatNext([], all, answers, false);
  }

  lemma DepsKept(deps: seq<nat>, more: seq<nat>, wasOrder: seq<nat>, nowOrder: seq<nat>)
    requires wasOrder <= nowOrder && forall d :: d in deps ==> d in wasOrder
    requires forall d :: d in more ==> d in nowOrder
    ensures forall d :: d in deps ==> d in nowOrder
    ensures forall d :: d in deps + more ==> d in nowOrder
  {
    assert wasOrder == nowOrder[..|wasOrder|];
  }

  lemma ServedKeeps(files: map<Ino, seq<string>>, vdso: bool, was: seq<Dso>, wasOrder: seq<nat>, now: seq<Dso>,
        nowOrder: seq<nat>, p: nat)
    requires Served(files, vdso, was, wasOrder, now, nowOrder, p)
    ensures Extends(was, wasOrder, now, nowOrder)
  {
  }

  lemma WalkStart(nodes: seq<Dso>, order: seq<nat>, vdso: bool, first: nat, search: Search, ldsoName: string)
    requires first <= |order|
    ensures Walked(nodes, order, nodes, order, vdso, first, first, [], [], search, ldsoName, true)
    ensures ClosedUpTo(nodes, order, first, first, search, ldsoName)
    ensures Values(Flat([])) == []
  {
  }

  /**
   What startup does with them (lines 1098-1140) when nothing is preloaded: the program alone in the list,
   then load_deps from it.
   Unless ldso_fail is set, every name that any library of the final list needs is answered in the list;
   all has the answers, name by name along the list, and the list is the program and these answers, each
   where the walk first meets it.
   */
  method Startup(files: map<Ino, seq<string>>, search: Search, app: string, appNeeds: seq<string>,
                 ldsoName: string, vdso: bool, vdsoName: string)
    returns (l: Loader, ghost from: seq<nat>, ghost all: seq<seq<Option<nat>>>)
    ensures fresh(l) && l.Valid() && l.vdso == vdso && l.nodes[HEAD].needed == appNeeds
    ensures !l.ldsoFail ==> ClosedUpTo(l.nodes, l.order, 0, |l.order|, search, ldsoName)
    ensures BreadthFirst(l.nodes, l.order, vdso, 1, 0, |l.order|, from)
    ensures WalkOk(l.nodes, l.order, 0, all, search, ldsoName, true) && |all| == |l.order|
    ensures l.order == JoinAll([HEAD], Flat(all), vdso)
  {
    hide ClosedUpTo, BreadthFirst, WalkOk, JoinAll, Flat;
    l := new Loader(files, search, app, appNeeds, ldsoName, vdso, vdsoName);
    ghost var was := l.nodes;
    var ok, deps;
    ok, deps, from, all := LoadDeps(l, HEAD, 0);
    assert Keeps(was[HEAD], l.nodes[HEAD]);
  }
}
