/**
 load_library and load_deps of dynlink.c, on the list that next and prev form.
 */
module Deps {
  import opened Wrappers
  import opened DepsModel

  /** Nothing that was known about a library changes, except its place, its count and a first short name. */
  ghost predicate Keeps(was: Dso, now: Dso) {
    now.name == was.name && now.ino == was.ino && now.needed == was.needed && now.neededBy == was.neededBy
    && (was.shortname.Some? ==> now.shortname == was.shortname)
  }

  ghost predicate Extends(was: seq<Dso>, wasOrder: seq<nat>, now: seq<Dso>, nowOrder: seq<nat>) {
    |was| <= |now| && wasOrder <= nowOrder && forall p :: 0 <= p < |was| ==> Keeps(was[p], now[p])
  }

  /** The list after a request for a library d: a new one joins at the end, the linker with what hangs on it. */
  ghost function Join(order: seq<nat>, d: nat, vdso: bool): seq<nat> {
    if d in order then order else if d == LDSO && vdso then order + [LDSO, VDSO] else order + [d]
  }

  lemma JoinListed(order: seq<nat>, d: nat, vdso: bool)
    requires |order| >= 1 && d in order[1..]
    ensures Join(order, d, vdso) == order
  {
  }

  lemma JoinNew(nodes: seq<Dso>, order: seq<nat>, tail: nat, vdso: bool)
    requires Linked(nodes, order, tail) && |nodes| > LDSO
    ensures Join(order, |nodes|, vdso) == order + [|nodes|]
  {
  }

  // ---------- how much can still be loaded ----------

  ghost function Inos(nodes: seq<Dso>, vdso: bool): set<Ino> {
    set p | FirstLoaded(vdso) <= p < |nodes| :: nodes[p].ino
  }

  /** Files not yet loaded, and the linker. */
  ghost function Fresh(files: map<Ino, seq<string>>, vdso: bool, nodes: seq<Dso>, order: seq<nat>): nat {
    |files.Keys - Inos(nodes, vdso)| + if LDSO in order then 0 else 1
  }

  /** What load_library may have done. */
  ghost predicate Loaded(files: map<Ino, seq<string>>, vdso: bool, was: seq<Dso>, wasOrder: seq<nat>,
        now: seq<Dso>, nowOrder: seq<nat>, neededBy: Option<nat>) {
    Extends(was, wasOrder, now, nowOrder)
    && (nowOrder == wasOrder || Fresh(files, vdso, now, nowOrder) < Fresh(files, vdso, was, wasOrder))
    && (nowOrder == wasOrder ==> Fresh(files, vdso, now, nowOrder) == Fresh(files, vdso, was, wasOrder))
    && (|now| == |was| || (|now| == |was| + 1 && nowOrder == wasOrder + [|was|] && now[|was|].neededBy == neededBy))
    && (|now| == |was| ==> forall i :: |wasOrder| <= i < |nowOrder| ==> nowOrder[i] < FirstLoaded(vdso))
  }

  lemma SameInos(was: seq<Dso>, now: seq<Dso>, vdso: bool)
    requires |now| == |was| && forall p :: 0 <= p < |was| ==> now[p].ino == was[p].ino
    ensures Inos(now, vdso) == Inos(was, vdso)
  {
    forall x | x in Inos(was, vdso) ensures x in Inos(now, vdso) {
      var p :| FirstLoaded(vdso) <= p < |was| && was[p].ino == x;
      assert now[p].ino == x;
    }
    forall x | x in Inos(now, vdso) ensures x in Inos(was, vdso) {
      var p :| FirstLoaded(vdso) <= p < |now| && now[p].ino == x;
      assert was[p].ino == x;
    }
  }

  lemma AttachFresh(files: map<Ino, seq<string>>, vdso: bool, was: seq<Dso>, now: seq<Dso>, wasOrder: seq<nat>,
        nowOrder: seq<nat>, neededBy: Option<nat>)
    requires Extends(was, wasOrder, now, nowOrder) && |now| == |was|
    requires nowOrder == wasOrder + if LDSO in wasOrder then [] else if vdso then [LDSO, VDSO] else [LDSO]
    ensures Loaded(files, vdso, was, wasOrder, now, nowOrder, neededBy)
    ensures nowOrder == Join(wasOrder, LDSO, vdso)
  {
    hide Fresh, Keeps, Join;
    AttachCounts(files, vdso, was, now, wasOrder, nowOrder);
  }

  lemma AttachCounts(files: map<Ino, seq<string>>, vdso: bool, was: seq<Dso>, now: seq<Dso>, wasOrder: seq<nat>,
        nowOrder: seq<nat>)
    requires |now| == |was| && forall p :: 0 <= p < |was| ==> Keeps(was[p], now[p])
    requires nowOrder == wasOrder + if LDSO in wasOrder then [] else if vdso then [LDSO, VDSO] else [LDSO]
    ensures nowOrder == Join(wasOrder, LDSO, vdso)
    ensures nowOrder == wasOrder || Fresh(files, vdso, now, nowOrder) < Fresh(files, vdso, was, wasOrder)
    ensures nowOrder == wasOrder ==> Fresh(files, vdso, now, nowOrder) == Fresh(files, vdso, was, wasOrder)
  {
    SameInos(was, now, vdso);
    hide Inos, Keeps;
    if LDSO !in wasOrder {
      assert nowOrder[|wasOrder|] == LDSO;
    }
  }

  lemma LdsoListed(wasOrder: seq<nat>, vdso: bool)
    requires |wasOrder| >= 1 && wasOrder[0] == HEAD
    ensures LDSO in Join(wasOrder, LDSO, vdso)[1..]
  {
    var nowOrder := Join(wasOrder, LDSO, vdso);
    if LDSO !in wasOrder {
      assert nowOrder[|wasOrder|] == LDSO;
    }
    var i :| 0 <= i < |nowOrder| && nowOrder[i] == LDSO;
    assert nowOrder[1..][i - 1] == LDSO;
  }

  lemma ReuseFresh(files: map<Ino, seq<string>>, vdso: bool, was: seq<Dso>, now: seq<Dso>, order: seq<nat>,
        neededBy: Option<nat>)
    requires Extends(was, order, now, order) && |now| == |was|
    ensures Loaded(files, vdso, was, order, now, order, neededBy)
  {
    SameInos(was, now, vdso);
  }

  lemma NothingLoaded(files: map<Ino, seq<string>>, vdso: bool, nodes: seq<Dso>, order: seq<nat>, neededBy: Option<nat>)
    ensures Loaded(files, vdso, nodes, order, nodes, order, neededBy)
  {
  }

  lemma AppendFresh(files: map<Ino, seq<string>>, vdso: bool, was: seq<Dso>, now: seq<Dso>, wasOrder: seq<nat>,
        nowOrder: seq<nat>)
    requires Extends(was, wasOrder, now, nowOrder) && |now| == |was| + 1 && nowOrder == wasOrder + [|was|]
      && |was| >= FirstLoaded(vdso)
    requires now[|was|].ino in files && FilesOk(now, nowOrder, vdso)
    ensures Loaded(files, vdso, was, wasOrder, now, nowOrder, now[|was|].neededBy)
  {
    var x := now[|was|].ino;
    InosGrown(was, now, vdso);
    assert x !in Inos(was, vdso);
    OneLess(files.Keys, Inos(was, vdso), x);
  }

  lemma InosGrown(was: seq<Dso>, now: seq<Dso>, vdso: bool)
    requires |now| == |was| + 1 && |was| >= FirstLoaded(vdso) && forall p :: 0 <= p < |was| ==> now[p].ino == was[p].ino
    ensures Inos(now, vdso) == Inos(was, vdso) + {now[|was|].ino}
  {
    forall y | y in Inos(was, vdso) ensures y in Inos(now, vdso) {
      var p :| FirstLoaded(vdso) <= p < |was| && was[p].ino == y;
      assert now[p].ino == y;
    }
    forall y | y in Inos(now, vdso) ensures y in Inos(was, vdso) || y == now[|was|].ino {
      var p :| FirstLoaded(vdso) <= p < |now| && now[p].ino == y;
      if p < |was| { assert was[p].ino == y; }
    }
  }

  lemma OneLess<T>(all: set<T>, some: set<T>, x: T)
    requires x in all && x !in some
    ensures |all - (some + {x})| == |all - some| - 1
  {
    assert all - some == (all - (some + {x})) + {x};
  }

  class Loader {
    // The files that can be mapped, with the names they need.
    const files: map<Ino, seq<string>>
    // What opening or searching a name finds, given the inodes whose search paths apply.
    const search: (string, seq<Ino>) -> Option<Found>
    const ldsoName: string
    const vdso: bool

    var nodes: seq<Dso>
    var tail: nat
    var noload: bool
    var runtime: bool
    var ldsoFail: bool
    ghost var order: seq<nat>

    ghost predicate Valid()
      reads `nodes, `tail, `order
    {
      Linked(nodes, order, tail) && SelfOk(nodes, order, vdso) && FilesOk(nodes, order, vdso)
    }

    /** Lines 1098-1125 of the startup code: the program alone, with the linker and the kernel's library beside it. */
    constructor (files: map<Ino, seq<string>>, search: (string, seq<Ino>) -> Option<Found>, app: string,
          appNeeds: seq<string>,
                 ldsoName: string, vdso: bool, vdsoName: string)
      ensures Valid() && order == [HEAD] && !runtime && !ldsoFail && |nodes| == FirstLoaded(vdso)
      ensures nodes[HEAD].needed == appNeeds
      ensures this.files == files && this.search == search && this.ldsoName == ldsoName && this.vdso == vdso
    {
      this.files, this.search, this.ldsoName, this.vdso := files, search, ldsoName, vdso;
      var none := Ino(0, 0);
      var program := Dso(app, None, none, appNeeds, None, None, None, 0);
      var linker := Dso(ldsoName, Some("libc.so"), none, [], None, if vdso then Some(VDSO) else None, None, 0);
      nodes := [program, linker] + if vdso then [Dso("", Some(vdsoName), none, [], None, None, Some(LDSO), 0)] else [];
      tail, noload, runtime, ldsoFail := HEAD, false, false, false;
      order := [HEAD];
    }

    function FindFile(name: string, neededBy: Option<nat>): Option<Found>
      reads this
    {
      search(name, Chain(nodes, neededBy))
    }

    /** Lines 565-571: the linker joins the list the first time it is asked for. */
    method AttachSelf()
      requires Valid()
      modifies this`nodes, this`tail, this`order
      ensures Valid() && Extends(old(nodes), old(order), nodes, order) && |nodes| == |old(nodes)|
      ensures order == old(order) + if LDSO in old(order) then [] else if vdso then [LDSO, VDSO] else [LDSO]
    {
      if nodes[LDSO].prev == None {
        AttachOk(nodes, order, tail, vdso);
        ghost var now := Attached(nodes, tail);
        nodes := nodes[tail := nodes[tail].(next := Some(LDSO))];
        nodes := nodes[LDSO := nodes[LDSO].(prev := Some(tail))];
        assert nodes == now;
        tail := if nodes[LDSO].next.Some? then nodes[LDSO].next.value else LDSO;
        order := order + if vdso then [LDSO, VDSO] else [LDSO];
      }
    }

    /** Lines 577-582 and 631-642: the first library after the head that has the short name, or the inode. */
    method FindShortName(name: string) returns (p: Option<nat>)
      requires Valid()
      ensures p.Some? ==> p.value in order[1..] && p.value < |nodes| && nodes[p.value].shortname == Some(name)
      ensures p == None ==> forall q :: q in order[1..] && q < |nodes| ==> nodes[q].shortname != Some(name)
    {
      p := nodes[HEAD].next;
      ghost var i := 1;
      while p.Some?
        invariant 1 <= i <= |order|
        invariant p == if i < |order| then Some(order[i]) else None
        invariant forall k :: 1 <= k < i ==> nodes[order[k]].shortname != Some(name)
        decreases |order| - i
      {
        if nodes[p.value].shortname == Some(name) {
          assert order[1..][i - 1] == p.value;
          return;
        }
        assert i < |order| - 1 ==> Joined(nodes, order[i], order[i + 1]);
        p := nodes[p.value].next;
        i := i + 1;
      }
    }

    method FindIno(ino: Ino) returns (p: Option<nat>)
      requires Valid()
      ensures p.Some? ==> p.value in order[1..] && p.value < |nodes| && nodes[p.value].ino == ino
      ensures p == None ==> forall q :: q in order[1..] && q < |nodes| ==> nodes[q].ino != ino
    {
      p := nodes[HEAD].next;
      ghost var i := 1;
      while p.Some?
        invariant 1 <= i <= |order|
        invariant p == if i < |order| then Some(order[i]) else None
        invariant forall k :: 1 <= k < i ==> nodes[order[k]].ino != ino
        decreases |order| - i
      {
        if nodes[p.value].ino == ino {
          assert order[1..][i - 1] == p.value;
          return;
        }
        assert i < |order| - 1 ==> Joined(nodes, order[i], order[i + 1]);
        p := nodes[p.value].next;
        i := i + 1;
      }
    }

    /** Lines 636-640: a library already loaded is used once more, and perhaps gets its short name. */
    method Reuse(p: nat, named: bool)
      requires Valid() && p < |nodes|
      modifies this`nodes
      ensures Valid() && Extends(old(nodes), order, nodes, order) && |nodes| == |old(nodes)|
      ensures forall q :: 0 <= q < |nodes| && q != p ==> nodes[q] == old(nodes[q])
      ensures nodes[p].refcnt == old(nodes[p]).refcnt + 1
      ensures nodes[p].shortname ==
        if named && old(nodes[p]).shortname == None then Some(BaseName(nodes[p].name)) else old(nodes[p]).shortname
    {
      var x := nodes[p];
      var short := if named && x.shortname == None then Some(BaseName(x.name)) else x.shortname;
      PointersKept(nodes, nodes[p := x.(refcnt := x.refcnt + 1, shortname := short)], order, tail, vdso);
      nodes := nodes[p := x.(refcnt := x.refcnt + 1, shortname := short)];
    }

    /** Lines 665-674 and 698-700: a new library goes to the end of the list. */
    method Append(path: string, named: bool, ino: Ino, neededBy: Option<nat>) returns (p: nat)
      requires Valid() && ino in files && (neededBy.Some? ==> neededBy.value < |nodes|)
      requires forall q :: q in order[1..] ==> q < |nodes| && nodes[q].ino != ino
      modifies this`nodes, this`tail, this`order
      ensures Valid() && Extends(old(nodes), old(order), nodes, order)
      ensures p == |old(nodes)| && |nodes| == p + 1 && order == old(order) + [p]
      ensures nodes[p].name == path && nodes[p].ino == ino && nodes[p].needed == files[ino]
      ensures nodes[p].neededBy == neededBy && nodes[p].refcnt == 1
      ensures nodes[p].shortname == if named then Some(BaseName(path)) else None
    {
      p := |nodes|;
      var x := Dso(path, if named then Some(BaseName(path)) else None, ino, files[ino], neededBy, None, Some(tail), 1);
      AppendOk(nodes, order, tail, vdso, x);
      nodes := nodes + [x];
      nodes := nodes[tail := nodes[tail].(next := Some(p))];
      tail := p;
      order := order + [p];
    }

    /** Why a name cannot be had. */
    ghost predicate Missing(name: string, neededBy: Option<nat>)
      requires Valid()
      reads this
    {
      !IsSelf(name, ldsoName)
      && (HasSlash(name) || forall q :: q in order[1..] && q < |nodes| ==> nodes[q].shortname != Some(name))
      && ((!HasSlash(name) && |name| > NAME_MAX) || NoFile(name, neededBy))
    }

    ghost predicate NoFile(name: string, neededBy: Option<nat>)
      requires Valid()
      reads this
    {
      var found := FindFile(name, neededBy);
      found == None
      || ((forall q :: q in order[1..] && q < |nodes| ==> nodes[q].ino != found.value.ino)
        && (noload || found.value.ino !in files))
    }

    /** Lines 585-704: the file that the name leads to, if it was not loaded before. */
    method LoadFile(name: string, neededBy: Option<nat>) returns (dep: Option<nat>)
      requires Valid() && (neededBy.Some? ==> neededBy.value < |nodes|)
      modifies this`nodes, this`tail, this`order
      ensures Valid() && Loaded(files, vdso, old(nodes), old(order), nodes, order, neededBy)
      ensures dep.Some? ==>
        dep.value in order[1..] && Answers(nodes, name, old(FindFile(name, neededBy)), ldsoName, dep.value)
      ensures dep.Some? ==> order == Join(old(order), dep.value, vdso)
      ensures dep == None ==> nodes == old(nodes) && order == old(order)
      ensures dep == None <==> old(NoFile(name, neededBy))
    {
      hide Join, Fresh, Loaded;
      ghost var was, wasOrder := nodes, order;
      var found := FindFile(name, neededBy);
      if found == None {
        NothingLoaded(files, vdso, nodes, order, neededBy);
        return None;
      }
      dep := FindIno(found.value.ino);
      if dep.Some? {
        JoinListed(order, dep.value, vdso);
        Reuse(dep.value, !HasSlash(name));
        ReuseFresh(files, vdso, was, nodes, order, neededBy);
        return;
      }
      if noload || found.value.ino !in files {
        NothingLoaded(files, vdso, nodes, order, neededBy);
        return None;
      }
      JoinNew(was, order, tail, vdso);
      var p := Append(if HasSlash(name) then name else found.value.path, !HasSlash(name), found.value.ino, neededBy);
      AppendFresh(files, vdso, was, nodes, wasOrder, order);
      assert order[1..][|order| - 2] == p;
      dep := Some(p);
    }

    /** load_library, lines 526-705. */
    method LoadLibrary(name: string, neededBy: Option<nat>) returns (dep: Option<nat>)
      requires Valid() && (neededBy.Some? ==> neededBy.value < |nodes|)
      modifies this`nodes, this`tail, this`order
      ensures Valid() && Loaded(files, vdso, old(nodes), old(order), nodes, order, neededBy)
      ensures dep.Some? ==>
        dep.value in order[1..] && Answers(nodes, name, old(FindFile(name, neededBy)), ldsoName, dep.value)
      ensures dep.Some? ==> order == Join(old(order), dep.value, vdso)
      ensures IsSelf(name, ldsoName) ==> dep == Some(LDSO) && |nodes| == |old(nodes)|
      ensures dep == None ==> nodes == old(nodes) && order == old(order)
      ensures dep == None <==> old(Missing(name, neededBy))
    {
      hide Join, Loaded, IsReserved, Extends;
      ghost var was, wasOrder := nodes, order;
      if IsSelf(name, ldsoName) {
        AttachSelf();
        AttachFresh(files, vdso, was, nodes, wasOrder, order, neededBy);
        LdsoListed(wasOrder, vdso);
        return Some(LDSO);
      }
      if !HasSlash(name) {
        dep := FindShortName(name);
        if dep.Some? {
          JoinListed(order, dep.value, vdso);
          Reuse(dep.value, false);
          ReuseFresh(files, vdso, was, nodes, order, neededBy);
          return;
        }
        if |name| > NAME_MAX {
          NothingLoaded(files, vdso, nodes, order, neededBy);
          return None;
        }
      }
      dep := LoadFile(name, neededBy);
    }
  }

  // ---------- what the list is ----------

  /** next and prev undo each other, and the list from the head to the tail visits nothing twice. */
  lemma ListConsistent(l: Loader, i: nat, j: nat)
    requires l.Valid() && i < |l.order| && j < |l.order|
    ensures l.order[i] < |l.nodes| && l.order[j] < |l.nodes|
    ensures l.nodes[l.order[i]].next == Some(l.order[j]) <==> j == i + 1
    ensures l.nodes[l.order[j]].prev == Some(l.order[i]) <==> j == i + 1
    ensures l.nodes[l.order[i]].next == None <==> l.order[i] == l.tail
  {
    if i + 1 < |l.order| { assert Joined(l.nodes, l.order[i], l.order[i + 1]); }
    if j > 0 { assert Joined(l.nodes, l.order[j - 1], l.order[j]); }
  }

  /** No file is loaded twice. */
  lemma NoFileTwice(l: Loader, p: nat, q: nat)
    requires l.Valid() && FirstLoaded(l.vdso) <= p < |l.nodes| && FirstLoaded(l.vdso) <= q < |l.nodes|
    requires l.nodes[p].ino == l.nodes[q].ino
    ensures p == q && p in l.order[1..]
  {
    LoadedListed(l.nodes, l.order, l.vdso, p);
  }

  // ---------- what the pointer updates keep ----------

  // Hanging a chain of nodes on the tail.
  lemma LinkedJoin(nodes: seq<Dso>, now: seq<Dso>, order: seq<nat>, tail: nat, more: seq<nat>)
    requires Linked(nodes, order, tail) && |more| >= 1 && |now| >= |nodes|
    requires forall i :: 0 <= i < |more| ==> more[i] < |now| && more[i] !in order
    requires forall i, j :: 0 <= i < j < |more| ==> more[i] != more[j]
    requires forall i :: 0 <= i < |more| - 1 ==> Joined(now, more[i], more[i + 1])
    requires now[more[|more| - 1]].next == None && Joined(now, tail, more[0])
    requires forall p :: p in order ==> now[p].prev == nodes[p].prev && (p != tail ==> now[p].next == nodes[p].next)
    ensures Linked(now, order + more, more[|more| - 1])
  {
    var all := order + more;
    forall i | 0 <= i < |all| - 1
      ensures Joined(now, all[i], all[i + 1])
    {
      if i < |order| - 1 {
        assert Joined(nodes, order[i], order[i + 1]) && order[i] in order && order[i + 1] in order;
        assert order[i] != order[|order| - 1];
      } else if i >= |order| {
        assert Joined(now, more[i - |order|], more[i - |order| + 1]);
      }
    }
    forall i, j | 0 <= i < j < |all| ensures all[i] != all[j] {
      if i < |order| && j >= |order| { assert order[i] in order && more[j - |order|] !in order; }
    }
    assert order[0] in order;
  }

  function Attached(nodes: seq<Dso>, tail: nat): seq<Dso>
    requires tail < |nodes| && LDSO < |nodes|
  {
    var linked := nodes[tail := nodes[tail].(next := Some(LDSO))];
    linked[LDSO := linked[LDSO].(prev := Some(tail))]
  }

  lemma SameFiles(nodes: seq<Dso>, now: seq<Dso>, order: seq<nat>, nowOrder: seq<nat>, vdso: bool)
    requires FilesOk(nodes, order, vdso) && |now| == |nodes| && order <= nowOrder
    requires forall p :: 0 <= p < |nodes| ==> now[p].ino == nodes[p].ino && now[p].neededBy == nodes[p].neededBy
    ensures FilesOk(now, nowOrder, vdso)
  {
    forall p | 0 <= p < |now| ensures NeededEarlier(now, p) { assert NeededEarlier(nodes, p); }
    forall p | FirstLoaded(vdso) <= p < |now| ensures p in nowOrder { assert p in order; }
  }

  lemma AttachOk(nodes: seq<Dso>, order: seq<nat>, tail: nat, vdso: bool)
    requires Linked(nodes, order, tail) && SelfOk(nodes, order, vdso) && FilesOk(nodes, order, vdso)
    requires nodes[LDSO].prev == None
    ensures var now := Attached(nodes, tail); var more := if vdso then [LDSO, VDSO] else [LDSO];
      Linked(now, order + more, more[|more| - 1]) && SelfOk(now, order + more, vdso) && FilesOk(now, order + more, vdso)
      && (now[LDSO].next == if vdso then Some(VDSO) else None)
      && forall p :: 0 <= p < |nodes| ==> Keeps(nodes[p], now[p])
  {
    var now := Attached(nodes, tail);
    var more := if vdso then [LDSO, VDSO] else [LDSO];
    assert order[|order| - 1] in order;
    LinkedJoin(nodes, now, order, tail, more);
    assert (order + more)[|order|] == LDSO;
    SameFiles(nodes, now, order, order + more, vdso);
  }

  lemma PointersKept(nodes: seq<Dso>, now: seq<Dso>, order: seq<nat>, tail: nat, vdso: bool)
    requires Linked(nodes, order, tail) && SelfOk(nodes, order, vdso) && FilesOk(nodes, order, vdso)
    requires |now| == |nodes| && forall p :: 0 <= p < |nodes| ==>
      Keeps(nodes[p], now[p]) && now[p].next == nodes[p].next && now[p].prev == nodes[p].prev
    ensures Linked(now, order, tail) && SelfOk(now, order, vdso) && FilesOk(now, order, vdso)
  {
    forall i | 0 <= i < |order| - 1
      ensures Joined(now, order[i], order[i + 1]) { assert Joined(nodes, order[i], order[i + 1]); }
    SameFiles(nodes, now, order, order, vdso);
  }

  lemma AppendOk(nodes: seq<Dso>, order: seq<nat>, tail: nat, vdso: bool, x: Dso)
    requires Linked(nodes, order, tail) && SelfOk(nodes, order, vdso) && FilesOk(nodes, order, vdso)
    requires x.next == None && x.prev == Some(tail) && (x.neededBy.Some? ==> x.neededBy.value < |nodes|)
    requires forall q :: q in order[1..] ==> q < |nodes| && nodes[q].ino != x.ino
    ensures var p := |nodes|; var longer := nodes + [x]; var now := longer[tail := longer[tail].(next := Some(p))];
      Linked(now, order + [p], p) && SelfOk(now, order + [p], vdso) && FilesOk(now, order + [p], vdso)
  {
    var p := |nodes|;
    var longer := nodes + [x];
    var now := longer[tail := longer[tail].(next := Some(p))];
    LinkedJoin(nodes, now, order, tail, [p]);
    AppendSelf(nodes, now, order, tail, vdso);
    AppendFiles(nodes, now, order, vdso);
  }

  lemma AppendSelf(nodes: seq<Dso>, now: seq<Dso>, order: seq<nat>, tail: nat, vdso: bool)
    requires Linked(nodes, order, tail) && SelfOk(nodes, order, vdso) && |now| == |nodes| + 1
    requires forall p :: 0 <= p < |nodes| ==>
      now[p].prev == nodes[p].prev && (p != tail ==> now[p].next == nodes[p].next)
    ensures SelfOk(now, order + [|nodes|], vdso)
  {
    assert order[|order| - 1] in order;
    assert LDSO in order + [|nodes|] <==> LDSO in order;
    assert VDSO < |nodes| ==> (VDSO in order + [|nodes|] <==> VDSO in order);
    if LDSO !in order && vdso { assert Joined(nodes, LDSO, VDSO); }
  }

  lemma AppendFiles(nodes: seq<Dso>, now: seq<Dso>, order: seq<nat>, vdso: bool)
    requires FilesOk(nodes, order, vdso) && |order| >= 1 && order[0] == HEAD && |now| == |nodes| + 1
    requires forall p :: 0 <= p < |nodes| ==> now[p].ino == nodes[p].ino && now[p].neededBy == nodes[p].neededBy
    requires now[|nodes|].neededBy.Some? ==> now[|nodes|].neededBy.value < |nodes|
    requires forall q :: q in order[1..] ==> q < |nodes| && nodes[q].ino != now[|nodes|].ino
    ensures FilesOk(now, order + [|nodes|], vdso)
  {
    forall p | 0 <= p < |now| ensures NeededEarlier(now, p) {
      if p < |nodes| { assert NeededEarlier(nodes, p); }
    }
    forall p | FirstLoaded(vdso) <= p < |now| ensures p in order + [|nodes|] {
      if p < |nodes| { assert p in order; } else { assert (order + [|nodes|])[|order|] == p; }
    }
    forall p, q | FirstLoaded(vdso) <= p < q < |now| ensures now[p].ino != now[q].ino {
      if q == |nodes| { LoadedListed(nodes, order, vdso, p); }
    }
  }

  // A library loaded from a file is in the list after the head.
  lemma LoadedListed(nodes: seq<Dso>, order: seq<nat>, vdso: bool, p: nat)
    requires FilesOk(nodes, order, vdso) && |order| >= 1 && order[0] == HEAD && FirstLoaded(vdso) <= p < |nodes|
    ensures p in order[1..]
  {
    assert p in order;
    var i :| 0 <= i < |order| && order[i] == p;
    assert order[1..][i - 1] == p;
  }
}
