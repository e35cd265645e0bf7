/**
 The exit-handler list of atexit.c: chunks of 32 slots, newest chunk first.  A handler that
 runs may register others, and these go into the list that is being scanned.
 */
module Atexit {
  import opened Wrappers

  /** A function and its argument. */
  datatype Handler = Handler(func: nat, arg: nat)

  const COUNT: nat := 32

  type Chunk = c: seq<Option<Handler>> | |c| == COUNT witness Empty()

  function Empty(): (c: seq<Option<Handler>>)
    ensures |c| == COUNT && forall i :: 0 <= i < COUNT ==> c[i] == None
  {
    seq(COUNT, _ => None)
  }

  /** The first n slots are in use and the others free. */
  ghost predicate Filled(c: Chunk, n: nat) {
    n <= COUNT && forall i :: 0 <= i < COUNT ==> (c[i].Some? <==> i < n)
  }

  /** The handlers in the first n slots. */
  function Handlers(c: Chunk, n: nat): seq<Handler>
    requires n <= COUNT
  {
    if n == 0 then [] else Handlers(c, n - 1) + if c[n - 1].Some? then [c[n - 1].value] else []
  }

  /** All handlers in the order of their registration: the oldest chunk is the last. */
  function All(chunks: seq<Chunk>): seq<Handler>
    decreases |chunks|
  {
    if chunks == [] then [] else All(chunks[1..]) + Handlers(chunks[0], COUNT)
  }

  /** Every chunk but the newest is full, and the newest up to slot n. */
  ghost predicate Packed(chunks: seq<Chunk>, n: nat) {
    if chunks == [] then n == 0
    else Filled(chunks[0], n) && forall k :: 1 <= k < |chunks| ==> Filled(chunks[k], COUNT)
  }

  // ---------- registration ----------

  /** The slot that __cxa_atexit picks. */
  function FirstFree(c: Chunk, i: nat): (f: nat)
    requires i <= COUNT
    ensures i <= f <= COUNT
    ensures forall j :: i <= j < f ==> c[j].Some?
    ensures f < COUNT ==> c[f] == None
    decreases COUNT - i
  {
    if i < COUNT && c[i].Some? then FirstFree(c, i + 1) else i
  }

  /** A list with one more handler: in the head, or in a new head when slot 31 is in use. */
  function Insert(chunks: seq<Chunk>, h: Handler): (r: seq<Chunk>)
    requires chunks != []
    ensures r != []
  {
    if chunks[0][COUNT - 1].Some? then [Empty()[0 := Some(h)]] + chunks
    else chunks[0 := chunks[0][FirstFree(chunks[0], 0) := Some(h)]]
  }

  function InsertAll(chunks: seq<Chunk>, hs: seq<Handler>): (r: seq<Chunk>)
    requires chunks != []
    ensures r != []
    decreases |hs|
  {
    if hs == [] then chunks else Insert(InsertAll(chunks, hs[..|hs| - 1]), hs[|hs| - 1])
  }

  /** The list as __cxa_atexit finds it: the first call makes the builtin chunk its head. */
  function Initialised(chunks: seq<Chunk>): (r: seq<Chunk>)
    ensures r != []
  {
    if chunks == [] then [Empty()] else chunks
  }

  // ---------- the run ----------

  /** The handlers that the k-th handler called registers, in order. */
  function RegisteredBy(regs: seq<seq<Handler>>, k: nat): (hs: seq<Handler>)
    ensures k >= |regs| ==> hs == []
  {
    if k < |regs| then regs[k] else []
  }

  function CallsLeft(regs: seq<seq<Handler>>, k: nat): nat {
    if k < |regs| then |regs| - k else 0
  }

  /** The list after the handler in slot i of the head was taken out and has registered hs. */
  function AfterCall(chunks: seq<Chunk>, i: nat, hs: seq<Handler>): (r: seq<Chunk>)
    requires chunks != [] && i < COUNT
    ensures r != []
  {
    InsertAll(chunks[0 := chunks[0][i := None]], hs)
  }

  /**
   The handlers called from a point of the scan on: the slots below i of whatever chunk is the
   head are still to be visited, and k handlers have been called before.
   */
  function Scan(chunks: seq<Chunk>, i: nat, k: nat, regs: seq<seq<Handler>>): seq<Handler>
    requires i <= COUNT
    decreases CallsLeft(regs, k), |chunks|, i
  {
    if chunks == [] then []
    else if i == 0 then Scan(chunks[1..], COUNT, k, regs)
    else if chunks[0][i - 1] == None then Scan(chunks, i - 1, k, regs)
    else [chunks[0][i - 1].value] + Scan(AfterCall(chunks, i - 1, RegisteredBy(regs, k)), i - 1, k + 1, regs)
  }

  /** The handlers still in the head when the scan moves on to the next chunk: nobody calls them. */
  function Lost(chunks: seq<Chunk>, i: nat, k: nat, regs: seq<seq<Handler>>): seq<Handler>
    requires i <= COUNT
    decreases CallsLeft(regs, k), |chunks|, i
  {
    if chunks == [] then []
    else if i == 0 then Handlers(chunks[0], COUNT) + Lost(chunks[1..], COUNT, k, regs)
    else if chunks[0][i - 1] == None then Lost(chunks, i - 1, k, regs)
    else Lost(AfterCall(chunks, i - 1, RegisteredBy(regs, k)), i - 1, k + 1, regs)
  }

  /** Some registration during the run needs a new chunk. */
  predicate Extends(chunks: seq<Chunk>, i: nat, k: nat, regs: seq<seq<Handler>>)
    requires i <= COUNT
    decreases CallsLeft(regs, k), |chunks|, i
  {
    if chunks == [] then false
    else if i == 0 then Extends(chunks[1..], COUNT, k, regs)
    else if chunks[0][i - 1] == None then Extends(chunks, i - 1, k, regs)
    else
      var next := AfterCall(chunks, i - 1, RegisteredBy(regs, k));
      |next| > |chunks| || Extends(next, i - 1, k + 1, regs)
  }

  /** The global list of the program; the head comes first. */
  class ExitList {
    var chunks: seq<Chunk>

    ghost predicate Valid()
      reads this
    {
      exists n: nat :: Packed(chunks, n)
    }

    constructor ()
      ensures Valid() && chunks == []
    {
      chunks := [];
      new;
      assert Packed(chunks, 0);
    }

    /** __cxa_atexit, lines 37-64; canAllocate is whether calloc would succeed. */
    method Register(h: Handler, canAllocate: bool) returns (ok: bool)
      modifies this
      ensures ok <==> canAllocate || Initialised(old(chunks))[0][COUNT - 1] == None
      ensures chunks == if ok then Insert(Initialised(old(chunks)), h) else old(chunks)
      ensures old(Valid()) ==> Valid() && All(chunks) == if ok then All(old(chunks)) + [h] else All(old(chunks))
    {
      if chunks == [] {
        chunks := [Empty()];
      }
      ghost var was := chunks;
      ok := true;
      if chunks[0][COUNT - 1].Some? {
        if !canAllocate {
          return false;
        }
        chunks := [Empty()] + chunks;
      }
      var i := 0;
      while i < COUNT && chunks[0][i].Some?
        invariant i <= COUNT && FirstFree(chunks[0], i) == FirstFree(chunks[0], 0)
      {
        i := i + 1;
      }
      chunks := chunks[0 := chunks[0][i := Some(h)]];
      assert chunks == Insert(was, h);
      if n: nat :| Packed(old(chunks), n) {
        var m := RegisterOne(old(chunks), n, h);
      }
    }

    /**
     __funcs_on_exit, lines 17-31; the k-th handler called registers regs[k].  A registration
     that fails leaves the list alone, so only those that succeed are in regs.
     */
    method RunAll(regs: seq<seq<Handler>>) returns (called: seq<Handler>)
      modifies this
      ensures called == Scan(old(chunks), COUNT, 0, regs)
      ensures chunks == [] && Valid()
    {
      hide Scan;
      called := [];
      var k := 0;
      while chunks != []
        invariant called + Scan(chunks, COUNT, k, regs) == Scan(old(chunks), COUNT, 0, regs)
        decreases CallsLeft(regs, k), |chunks|
      {
        var i: nat := COUNT;
        ghost var k0, length := k, |chunks|;
        while i > 0
          invariant i <= COUNT && chunks != []
          invariant called + Scan(chunks, i, k, regs) == Scan(old(chunks), COUNT, 0, regs)
          invariant CallsLeft(regs, k) < CallsLeft(regs, k0)
            || (CallsLeft(regs, k) == CallsLeft(regs, k0) && |chunks| == length)
        {
          i := i - 1;
          ScanFree(chunks, i, k, regs);
          if chunks[0][i].Some? {
            var h := chunks[0][i].value;
            TakeFirst(called, chunks, i, k, regs);
            chunks := chunks[0 := chunks[0][i := None]];
            CallHandler(RegisteredBy(regs, k));
            called := called + [h];
            k := k + 1;
          }
        }
        ScanNext(chunks, k, regs);
        chunks := chunks[1..];
      }
      ScanNext(chunks, k, regs);
      assert Packed(chunks, 0);
    }

    // What func(arg) on line 27 does to the list.
    method CallHandler(hs: seq<Handler>)
      requires chunks != []
      modifies this
      ensures chunks == InsertAll(old(chunks), hs)
    {
      assert hs[..0] == [];
      for j := 0 to |hs|
        invariant chunks == InsertAll(old(chunks), hs[..j])
      {
        assert hs[..j + 1][..j] == hs[..j];
        var ok := Register(hs[j], true);
      }
      assert hs[..|hs|] == hs;
    }
  }

  lemma ScanNext(chunks: seq<Chunk>, k: nat, regs: seq<seq<Handler>>)
    ensures if chunks == [] then Scan(chunks, COUNT, k, regs) == []
            else Scan(chunks, 0, k, regs) == Scan(chunks[1..], COUNT, k, regs)
  {
  }

  lemma ScanFree(chunks: seq<Chunk>, i: nat, k: nat, regs: seq<seq<Handler>>)
    requires i < COUNT && chunks != []
    ensures chunks[0][i] == None ==> Scan(chunks, i + 1, k, regs) == Scan(chunks, i, k, regs)
  {
  }

  lemma NothingRegistered(chunks: seq<Chunk>, i: nat)
    requires i < COUNT && chunks != []
    ensures AfterCall(chunks, i, []) == chunks[0 := chunks[0][i := None]]
  {
  }

  lemma TakeFirst(called: seq<Handler>, chunks: seq<Chunk>, i: nat, k: nat, regs: seq<seq<Handler>>)
    requires i < COUNT && chunks != [] && chunks[0][i].Some?
    ensures called + [chunks[0][i].value] + Scan(AfterCall(chunks, i, RegisteredBy(regs, k)), i, k + 1, regs)
         == called + Scan(chunks, i + 1, k, regs)
  {
  }

  // ---------- what registration does to a packed list ----------

  lemma {:induction false} HandlersCut(c: Chunk, n: nat, k: nat)
    requires Filled(c, n) && n <= k <= COUNT
    ensures Handlers(c, k) == Handlers(c, n)
  {
    if n < k { HandlersCut(c, n, k - 1); }
  }

  lemma {:induction false} HandlersSame(c: Chunk, d: Chunk, n: nat)
    requires n <= COUNT && forall i :: 0 <= i < n ==> c[i] == d[i]
    ensures Handlers(c, n) == Handlers(d, n)
  {
    if n > 0 { HandlersSame(c, d, n - 1); }
  }

  // Putting a handler into the first free slot.
  lemma PutAppends(c: Chunk, n: nat, h: Handler)
    requires n < COUNT && Filled(c, n)
    ensures FirstFree(c, 0) == n && Filled(c[n := Some(h)], n + 1)
    ensures Handlers(c[n := Some(h)], COUNT) == Handlers(c, COUNT) + [h]
  {
    assert c[n] == None && forall j :: 0 <= j < n ==> c[j].Some?;
    HandlersCut(c, n, COUNT);
    HandlersCut(c[n := Some(h)], n + 1, COUNT);
    HandlersSame(c, c[n := Some(h)], n);
  }

  lemma RegisterOne(chunks: seq<Chunk>, n: nat, h: Handler) returns (m: nat)
    requires Packed(chunks, n)
    ensures Packed(Insert(Initialised(chunks), h), m) && All(Insert(Initialised(chunks), h)) == All(chunks) + [h]
    ensures m == if n == COUNT then 1 else n + 1
  {
    hide Handlers;
    var was := Initialised(chunks);
    EmptyNone();
    if n == COUNT {
      m := 1;
      PutAppends(Empty(), 0, h);
      assert Insert(was, h)[1..] == chunks;
    } else {
      m := n + 1;
      PutAppends(was[0], n, h);
      assert Insert(was, h)[1..] == was[1..];
      assert chunks == [] ==> All(was[1..]) == [];
    }
  }

  lemma EmptyNone()
    ensures Handlers(Empty(), COUNT) == []
  {
    HandlersCut(Empty(), 0, COUNT);
  }

  /** How much of the newest chunk is in use when t handlers stand in it and in later ones. */
  function Used(t: nat): nat {
    if t == 0 then 0 else (t - 1) % COUNT + 1
  }

  lemma {:induction false} InsertAllPacked(chunks: seq<Chunk>, n: nat, hs: seq<Handler>)
    requires chunks != [] && Packed(chunks, n)
    ensures Packed(InsertAll(chunks, hs), Used(n + |hs|)) && All(InsertAll(chunks, hs)) == All(chunks) + hs
    decreases |hs|
  {
    hide All, Handlers, Insert, Used, Packed;
    UsedFew(n);
    PackedBound(chunks, n);
    if hs != [] {
      var rest, last := hs[..|hs| - 1], hs[|hs| - 1];
      InsertAllPacked(chunks, n, rest);
      UsedStep(n + |rest|);
      var m := RegisterOne(InsertAll(chunks, rest), Used(n + |rest|), last);
      assert rest + [last] == hs;
      assert All(chunks) + rest + [last] == All(chunks) + hs;
    }
  }

  lemma UsedFew(n: nat)
    ensures n <= COUNT ==> Used(n) == n
  {
  }

  lemma UsedStep(t: nat)
    ensures Used(t) <= COUNT && Used(t + 1) == if Used(t) == COUNT then 1 else Used(t) + 1
  {
  }

  // ---------- nothing registered, or nothing that needs a chunk ----------

  lemma ReversedJoin(a: seq<Handler>, b: seq<Handler>)
    ensures Reversed(a + b) == Reversed(b) + Reversed(a)
  {
  }

  /** With no registrations to come, what is below the scan and in the older chunks is called in reverse. */
  lemma {:induction false} QuietScan(chunks: seq<Chunk>, i: nat, k: nat, regs: seq<seq<Handler>>)
    requires i <= COUNT && chunks != [] && k >= |regs|
    ensures Scan(chunks, i, k, regs) == Reversed(All(chunks[1..]) + Handlers(chunks[0], i))
    decreases |chunks|, i, 1
  {
    hide All, Handlers, Reversed;
    if i > 0 {
      ScanFree(chunks, i - 1, k, regs);
      HandlersStep(All(chunks[1..]), chunks[0], i - 1);
      if chunks[0][i - 1].Some? {
        var next := chunks[0 := chunks[0][i - 1 := None]];
        assert AfterCall(chunks, i - 1, RegisteredBy(regs, k)) == next && next[1..] == chunks[1..];
        QuietScan(next, i - 1, k + 1, regs);
        HandlersSame(next[0], chunks[0], i - 1);
      } else {
        QuietScan(chunks, i - 1, k, regs);
      }
    } else {
      QuietScanNext(chunks, k, regs);
    }
  }

  lemma {:induction false} QuietScanNext(chunks: seq<Chunk>, k: nat, regs: seq<seq<Handler>>)
    requires chunks != [] && k >= |regs|
    ensures Scan(chunks, 0, k, regs) == Reversed(All(chunks[1..]) + Handlers(chunks[0], 0))
    decreases |chunks|, 0, 0
  {
    var rest := chunks[1..];
    assert All(rest) + [] == All(rest);
    if |chunks| > 1 {
      QuietScan(rest, COUNT, k, regs);
      assert All(rest) == All(rest[1..]) + Handlers(rest[0], COUNT);
    }
  }

  lemma HandlersUnfold(c: Chunk, i: nat)
    requires i < COUNT
    ensures Handlers(c, i + 1) == Handlers(c, i) + if c[i].Some? then [c[i].value] else []
  {
  }

  // The handler in slot i comes first in the reverse order.
  lemma HandlersStep(older: seq<Handler>, c: Chunk, i: nat)
    requires i < COUNT
    ensures Reversed(older + Handlers(c, i + 1))
         == (if c[i].Some? then [c[i].value] else []) + Reversed(older + Handlers(c, i))
    ensures |Handlers(c, i + 1)| == |Handlers(c, i)| + if c[i].Some? then 1 else 0
  {
    hide Reversed, Handlers;
    HandlersUnfold(c, i);
    if c[i].Some? {
      ReversedJoin(older + Handlers(c, i), [c[i].value]);
      assert older + (Handlers(c, i) + [c[i].value]) == older + Handlers(c, i) + [c[i].value];
      assert Reversed([c[i].value]) == [c[i].value];
    } else {
      assert older + (Handlers(c, i) + []) == older + Handlers(c, i);
    }
  }

  /** When no handler registers another, all run in reverse order of registration. */
  lemma ReverseOrder(chunks: seq<Chunk>)
    ensures Scan(chunks, COUNT, 0, []) == Reversed(All(chunks))
  {
    if chunks != [] {
      QuietScan(chunks, COUNT, 0, []);
    }
  }

  /** Below i the slots in use come first, and nothing stands behind a free one. */
  ghost predicate Ready(c: Chunk, i: nat) {
    i <= COUNT && forall j, l :: 0 <= j < i && j <= l < COUNT && c[j] == None ==> c[l] == None
  }

  /** d has every handler of c in its slot. */
  ghost predicate Covers(d: Chunk, c: Chunk) {
    forall j :: 0 <= j < COUNT && c[j].Some? ==> d[j] == c[j]
  }

  lemma {:induction false} CoversCount(d: Chunk, c: Chunk, i: nat)
    requires i <= COUNT && Covers(d, c)
    ensures |Handlers(d, i)| >= |Handlers(c, i)|
  {
    if i > 0 { CoversCount(d, c, i - 1); }
  }

  lemma {:induction false} CountBelow(c: Chunk, i: nat, n: nat)
    requires i <= n <= COUNT
    ensures |Handlers(c, i)| + (if i < n && c[n - 1].Some? then 1 else 0) <= |Handlers(c, n)|
  {
    if i < n { CountBelow(c, i, n - 1); }
  }

  /**
   Registrations leave the older chunks alone and the old head in place; if it is no longer
   the head, its slot 31 is in use.
   */
  lemma {:induction false} InsertAllShape(chunks: seq<Chunk>, hs: seq<Handler>)
    requires chunks != []
    ensures var r := InsertAll(chunks, hs);
      var g := |r| - |chunks|;
      && g >= 0 && r[g + 1..] == chunks[1..] && Covers(r[g], chunks[0])
      && (g > 0 ==> r[g][COUNT - 1].Some?)
    decreases |hs|
  {
    if hs != [] {
      InsertAllShape(chunks, hs[..|hs| - 1]);
      InsertShape(InsertAll(chunks, hs[..|hs| - 1]), hs[|hs| - 1], |InsertAll(chunks, hs[..|hs| - 1])| - |chunks|);
    }
  }

  lemma InsertShape(s: seq<Chunk>, h: Handler, g: nat)
    requires g < |s|
    ensures var r := Insert(s, h);
      if |r| == |s| then r[g + 1..] == s[g + 1..] && Covers(r[g], s[g]) && (g > 0 ==> r[g] == s[g])
      else |r| == |s| + 1 && r[g + 2..] == s[g + 1..] && r[g + 1] == s[g] && (g == 0 ==> s[g][COUNT - 1].Some?)
  {
  }

  lemma {:induction false} AllSuffix(s: seq<Chunk>, a: nat)
    requires a <= |s|
    ensures |All(s)| >= |All(s[a..])|
    decreases a
  {
    if a > 0 {
      AllSuffix(s[1..], a - 1);
      assert s[1..][a - 1..] == s[a..];
    } else {
      assert s[0..] == s;
    }
  }

  // What is certain to be called after a registration that pushed g chunks.
  lemma PushedCount(s: seq<Chunk>, g: nat)
    requires 0 < g < |s|
    ensures |All(s[1..])| >= |All(s[g + 1..])| + |Handlers(s[g], COUNT)|
  {
    AllSuffix(s[1..], g - 1);
    assert s[1..][g - 1..] == s[g..];
    assert s[g..][1..] == s[g + 1..];
  }

  // The list after a call: what it holds below slot i of the head, and in the chunks behind.
  lemma AfterCallCount(chunks: seq<Chunk>, i: nat, hs: seq<Handler>)
    requires chunks != [] && i < COUNT && chunks[0][i].Some?
    ensures var next := AfterCall(chunks, i, hs);
      var least := |Handlers(chunks[0], i)| + |All(chunks[1..])|;
      if |next| > |chunks| then |All(next[1..])| > least
      else |Handlers(next[0], i)| + |All(next[1..])| >= least
  {
    var c := chunks[0][i := None];
    var next := AfterCall(chunks, i, hs);
    var g := |next| - |chunks|;
    InsertAllShape(chunks[0 := c], hs);
    assert chunks[0 := c][1..] == chunks[1..];
    CoversCount(next[g], c, i);
    HandlersSame(c, chunks[0], i);
    if g > 0 {
      PushedCount(next, g);
      CountBelow(next[g], i, COUNT);
    }
  }

  /** Whatever is registered, no handler below the scan or in an older chunk is forgotten. */
  lemma {:induction false} ScanAtLeast(chunks: seq<Chunk>, i: nat, k: nat, regs: seq<seq<Handler>>)
    requires i <= COUNT && chunks != []
    ensures |Scan(chunks, i, k, regs)| >= |Handlers(chunks[0], i)| + |All(chunks[1..])|
    decreases CallsLeft(regs, k), |chunks|, i
  {
    if i > 0 {
      if chunks[0][i - 1].Some? {
        AfterCallCount(chunks, i - 1, RegisteredBy(regs, k));
        ScanAtLeast(AfterCall(chunks, i - 1, RegisteredBy(regs, k)), i - 1, k + 1, regs);
      } else {
        ScanAtLeast(chunks, i - 1, k, regs);
      }
    } else if |chunks| > 1 {
      ScanAtLeast(chunks[1..], COUNT, k, regs);
    }
  }

  // A call that needs no new chunk leaves what is below the scan, and the chunks behind.
  lemma SameChunks(chunks: seq<Chunk>, i: nat, hs: seq<Handler>)
    requires chunks != [] && i < COUNT && Ready(chunks[0], i + 1) && chunks[0][i].Some?
    requires |AfterCall(chunks, i, hs)| == |chunks|
    ensures var next := AfterCall(chunks, i, hs);
      next[1..] == chunks[1..] && Ready(next[0], i) && Handlers(next[0], i) == Handlers(chunks[0], i)
  {
    var c := chunks[0][i := None];
    InsertAllShape(chunks[0 := c], hs);
    var next := AfterCall(chunks, i, hs);
    assert forall j :: 0 <= j < i ==> c[j].Some? && next[0][j] == c[j];
    HandlersSame(next[0], chunks[0], i);
  }

  lemma {:induction false} ScanIff(chunks: seq<Chunk>, i: nat, k: nat, regs: seq<seq<Handler>>)
    requires i <= COUNT && chunks != [] && Ready(chunks[0], i)
    requires forall j :: 1 <= j < |chunks| ==> Filled(chunks[j], COUNT)
    ensures !Extends(chunks, i, k, regs) ==>
      Scan(chunks, i, k, regs) == Reversed(All(chunks[1..]) + Handlers(chunks[0], i))
    ensures Extends(chunks, i, k, regs) ==>
      |Scan(chunks, i, k, regs)| > |All(chunks[1..])| + |Handlers(chunks[0], i)|
    decreases CallsLeft(regs, k), |chunks|, i, 1
  {
    hide All, Handlers, Reversed, AfterCall;
    if i == 0 {
      ScanIffNext(chunks, k, regs);
    } else if chunks[0][i - 1] == None {
      HandlersStep(All(chunks[1..]), chunks[0], i - 1);
      ScanIff(chunks, i - 1, k, regs);
    } else {
      var next := AfterCall(chunks, i - 1, RegisteredBy(regs, k));
      HandlersStep(All(chunks[1..]), chunks[0], i - 1);
      AfterCallCount(chunks, i - 1, RegisteredBy(regs, k));
      if |next| > |chunks| {
        ScanAtLeast(next, i - 1, k + 1, regs);
      } else {
        AfterCallGrows(chunks, i - 1, RegisteredBy(regs, k));
        SameChunks(chunks, i - 1, RegisteredBy(regs, k));
        assert forall j :: 1 <= j < |chunks| ==> next[j] == next[1..][j - 1];
        ScanIff(next, i - 1, k + 1, regs);
      }
    }
  }

  lemma AfterCallGrows(chunks: seq<Chunk>, i: nat, hs: seq<Handler>)
    requires chunks != [] && i < COUNT
    ensures |AfterCall(chunks, i, hs)| >= |chunks|
  {
    InsertAllShape(chunks[0 := chunks[0][i := None]], hs);
  }

  lemma {:induction false} ScanIffNext(chunks: seq<Chunk>, k: nat, regs: seq<seq<Handler>>)
    requires chunks != [] && forall j :: 1 <= j < |chunks| ==> Filled(chunks[j], COUNT)
    ensures !Extends(chunks, 0, k, regs) ==>
      Scan(chunks, 0, k, regs) == Reversed(All(chunks[1..]) + Handlers(chunks[0], 0))
    ensures Extends(chunks, 0, k, regs) ==> |Scan(chunks, 0, k, regs)| > |All(chunks[1..])| + |Handlers(chunks[0], 0)|
    decreases CallsLeft(regs, k), |chunks|, 0, 0
  {
    var rest := chunks[1..];
    assert All(rest) + [] == All(rest);
    if |chunks| > 1 {
      assert forall j :: 1 <= j < |rest| ==> rest[j] == chunks[j + 1];
      ScanIff(rest, COUNT, k, regs);
      assert Extends(chunks, 0, k, regs) == Extends(rest, COUNT, k, regs);
      assert Scan(chunks, 0, k, regs) == Scan(rest, COUNT, k, regs);
      assert All(rest) == All(rest[1..]) + Handlers(rest[0], COUNT);
    } else {
      assert rest == [] && !Extends([], COUNT, k, regs);
    }
  }

  /**
   At exit the handlers registered before run in reverse order and nothing else runs, if and
   only if no registration made by a running handler needs a new chunk: otherwise a handler
   registered during the run is called as well.
   */
  lemma OnlyReversedIff(chunks: seq<Chunk>, n: nat, regs: seq<seq<Handler>>)
    requires Packed(chunks, n)
    ensures Scan(chunks, COUNT, 0, regs) == Reversed(All(chunks)) <==> !Extends(chunks, COUNT, 0, regs)
  {
    if chunks != [] {
      ScanIff(chunks, COUNT, 0, regs);
    }
  }

  // ---------- nothing is called twice ----------

  /** The handlers that the calls from the k-th to before the n-th register. */
  function Nested(regs: seq<seq<Handler>>, k: nat, n: nat): seq<Handler>
    decreases n - k
  {
    if k >= n then [] else RegisteredBy(regs, k) + Nested(regs, k + 1, n)
  }

  /** How often h occurs in s. */
  function Times(s: seq<Handler>, h: Handler): nat {
    multiset(s)[h]
  }

  lemma TimesJoin(a: seq<Handler>, b: seq<Handler>, h: Handler)
    ensures Times(a + b, h) == Times(a, h) + Times(b, h)
  {
  }

  lemma TimesNone(h: Handler)
    ensures Times([], h) == 0
  {
  }

  lemma {:induction false} HandlersSet(c: Chunk, i: nat, g: Handler, n: nat, h: Handler)
    requires i < n <= COUNT && c[i] == None
    ensures Times(Handlers(c[i := Some(g)], n), h) == Times(Handlers(c, n), h) + Times([g], h)
    decreases n
  {
    hide Times;
    var d := c[i := Some(g)];
    if i < n - 1 {
      HandlersSet(c, i, g, n - 1, h);
      if c[n - 1].Some? {
        TimesJoin(Handlers(c, n - 1), [c[n - 1].value], h);
        TimesJoin(Handlers(d, n - 1), [c[n - 1].value], h);
      } else {
        assert Handlers(c, n - 1) + [] == Handlers(c, n - 1) && Handlers(d, n - 1) + [] == Handlers(d, n - 1);
      }
    } else {
      HandlersSame(c, d, i);
      TimesJoin(Handlers(d, i), [g], h);
      assert Handlers(c, i) + [] == Handlers(c, i);
    }
  }

  lemma AllHead(chunks: seq<Chunk>, c: Chunk, h: Handler)
    requires chunks != []
    ensures Times(All(chunks[0 := c]), h) == Times(All(chunks[1..]), h) + Times(Handlers(c, COUNT), h)
  {
    assert chunks[0 := c][1..] == chunks[1..];
  }

  lemma InsertTimes(chunks: seq<Chunk>, g: Handler, h: Handler)
    requires chunks != []
    ensures Times(All(Insert(chunks, g)), h) == Times(All(chunks), h) + Times([g], h)
  {
    hide Handlers, Times;
    var c := chunks[0];
    assert chunks[0 := c] == chunks;
    AllHead(chunks, c, h);
    if c[COUNT - 1].Some? {
      EmptyNone();
      HandlersSet(Empty(), 0, g, COUNT, h);
      var d := Empty()[0 := Some(g)];
      assert Insert(chunks, g)[1..] == chunks;
      TimesJoin(All(chunks), Handlers(d, COUNT), h);
      TimesNone(h);
    } else {
      var f := FirstFree(c, 0);
      HandlersSet(c, f, g, COUNT, h);
      AllHead(chunks, c[f := Some(g)], h);
    }
  }

  lemma {:induction false} InsertAllTimes(chunks: seq<Chunk>, hs: seq<Handler>, h: Handler)
    requires chunks != []
    ensures Times(All(InsertAll(chunks, hs)), h) == Times(All(chunks), h) + Times(hs, h)
    decreases |hs|
  {
    hide All, Times;
    if hs == [] {
      TimesNone(h);
    } else {
      var rest, last := hs[..|hs| - 1], hs[|hs| - 1];
      InsertAllTimes(chunks, rest, h);
      InsertTimes(InsertAll(chunks, rest), last, h);
      TimesJoin(rest, [last], h);
      assert rest + [last] == hs;
    }
  }

  lemma AfterCallTimes(chunks: seq<Chunk>, i: nat, hs: seq<Handler>, h: Handler)
    requires chunks != [] && i < COUNT && chunks[0][i].Some?
    ensures Times(All(AfterCall(chunks, i, hs)), h) + Times([chunks[0][i].value], h)
         == Times(All(chunks), h) + Times(hs, h)
  {
    hide Handlers, Times;
    var c := chunks[0][i := None];
    HandlersSet(c, i, chunks[0][i].value, COUNT, h);
    assert c[i := chunks[0][i]] == chunks[0] && chunks[0 := chunks[0]] == chunks;
    AllHead(chunks, c, h);
    AllHead(chunks, chunks[0], h);
    InsertAllTimes(chunks[0 := c], hs, h);
  }

  lemma NestedStep(regs: seq<seq<Handler>>, k: nat, n: nat)
    ensures k < n ==> Nested(regs, k, n) == RegisteredBy(regs, k) + Nested(regs, k + 1, n)
    ensures k >= n ==> Nested(regs, k, n) == []
  {
  }

  /** From this point of the scan on, h is called or lost as often as it stands in the list or is still registered. */
  ghost predicate Balanced(chunks: seq<Chunk>, i: nat, k: nat, regs: seq<seq<Handler>>, h: Handler)
    requires i <= COUNT
  {
    var called := Scan(chunks, i, k, regs);
    Times(called, h) + Times(Lost(chunks, i, k, regs), h)
      == Times(All(chunks), h) + Times(Nested(regs, k, k + |called|), h)
  }

  // One step of the scan, on what is called and what is lost.
  lemma ScanStep(chunks: seq<Chunk>, i: nat, k: nat, regs: seq<seq<Handler>>)
    requires i <= COUNT
    ensures chunks == [] ==> Scan(chunks, i, k, regs) == [] == Lost(chunks, i, k, regs)
    ensures chunks != [] && i == 0 ==>
      && Scan(chunks, i, k, regs) == Scan(chunks[1..], COUNT, k, regs)
      && Lost(chunks, i, k, regs) == Handlers(chunks[0], COUNT) + Lost(chunks[1..], COUNT, k, regs)
    ensures chunks != [] && i > 0 && chunks[0][i - 1] == None ==>
      && Scan(chunks, i, k, regs) == Scan(chunks, i - 1, k, regs)
      && Lost(chunks, i, k, regs) == Lost(chunks, i - 1, k, regs)
    ensures chunks != [] && i > 0 && chunks[0][i - 1].Some? ==>
      var next := AfterCall(chunks, i - 1, RegisteredBy(regs, k));
      && Scan(chunks, i, k, regs) == [chunks[0][i - 1].value] + Scan(next, i - 1, k + 1, regs)
      && Lost(chunks, i, k, regs) == Lost(next, i - 1, k + 1, regs)
  {
    hide Handlers, AfterCall, RegisteredBy;
  }

  /** Whatever the handlers register: each handler of either kind is called once or lost once. */
  lemma {:induction false} CalledOrLost(chunks: seq<Chunk>, i: nat, k: nat, regs: seq<seq<Handler>>, h: Handler)
    requires i <= COUNT
    ensures Balanced(chunks, i, k, regs, h)
    decreases CallsLeft(regs, k), |chunks|, i
  {
    hide All, Handlers, AfterCall, Nested, Times, Scan, Lost, RegisteredBy, Balanced;
    if chunks == [] {
      BalancedEmpty(i, k, regs, h);
    } else if i == 0 {
      CalledOrLost(chunks[1..], COUNT, k, regs, h);
      BalancedNext(chunks, k, regs, h);
    } else if chunks[0][i - 1] == None {
      CalledOrLost(chunks, i - 1, k, regs, h);
      BalancedFree(chunks, i - 1, k, regs, h);
    } else {
      NothingRegistered(chunks, i - 1);
      CalledOrLost(AfterCall(chunks, i - 1, RegisteredBy(regs, k)), i - 1, k + 1, regs, h);
      BalancedCall(chunks, i - 1, k, regs, h);
    }
  }

  lemma BalancedEmpty(i: nat, k: nat, regs: seq<seq<Handler>>, h: Handler)
    requires i <= COUNT
    ensures Balanced([], i, k, regs, h)
  {
  }

  lemma BalancedNext(chunks: seq<Chunk>, k: nat, regs: seq<seq<Handler>>, h: Handler)
    requires chunks != [] && Balanced(chunks[1..], COUNT, k, regs, h)
    ensures Balanced(chunks, 0, k, regs, h)
  {
    hide All, Handlers, AfterCall, Nested, Times, Scan, Lost, RegisteredBy;
    ScanStep(chunks, 0, k, regs);
    AllSplit(chunks, h);
    TimesJoin(Handlers(chunks[0], COUNT), Lost(chunks[1..], COUNT, k, regs), h);
  }

  lemma BalancedFree(chunks: seq<Chunk>, i: nat, k: nat, regs: seq<seq<Handler>>, h: Handler)
    requires i < COUNT && chunks != [] && chunks[0][i] == None && Balanced(chunks, i, k, regs, h)
    ensures Balanced(chunks, i + 1, k, regs, h)
  {
    hide All, Handlers, AfterCall, Nested, Times, Scan, Lost, RegisteredBy;
    ScanStep(chunks, i + 1, k, regs);
  }

  lemma BalancedCall(chunks: seq<Chunk>, i: nat, k: nat, regs: seq<seq<Handler>>, h: Handler)
    requires i < COUNT && chunks != [] && chunks[0][i].Some?
    requires Balanced(AfterCall(chunks, i, RegisteredBy(regs, k)), i, k + 1, regs, h)
    ensures Balanced(chunks, i + 1, k, regs, h)
  {
    hide All, Handlers, AfterCall, Nested, Times, Scan, Lost, RegisteredBy;
    var hs := RegisteredBy(regs, k);
    ScanStep(chunks, i + 1, k, regs);
    AfterCallTimes(chunks, i, hs, h);
    JoinTimes(chunks[0][i].value, Scan(AfterCall(chunks, i, hs), i, k + 1, regs), regs, k, h);
  }

  lemma AllSplit(chunks: seq<Chunk>, h: Handler)
    requires chunks != []
    ensures Times(All(chunks), h) == Times(All(chunks[1..]), h) + Times(Handlers(chunks[0], COUNT), h)
  {
  }

  lemma JoinTimes(g: Handler, called: seq<Handler>, regs: seq<seq<Handler>>, k: nat, h: Handler)
    ensures Times([g] + called, h) == Times([g], h) + Times(called, h)
    ensures Times(Nested(regs, k, k + |[g] + called|), h)
         == Times(RegisteredBy(regs, k), h) + Times(Nested(regs, k + 1, k + 1 + |called|), h)
  {
    hide *;
    assert |[g] + called| == 1 + |called|;
    NestedStep(regs, k, k + 1 + |called|);
    TimesJoin([g], called, h);
    TimesJoin(RegisteredBy(regs, k), Nested(regs, k + 1, k + 1 + |called|), h);
  }

  // ---------- one handler registers others ----------

  /** How many of r handlers registered by the one in slot i are not called. */
  function LostOf(i: nat, r: nat): (l: nat)
    ensures l <= r
  {
    if Used(i + r) > i then Used(i + r) - i else 0
  }

  lemma {:induction false} PackedHandlers(c: Chunk, n: nat, i: nat)
    requires Filled(c, n) && i <= COUNT
    ensures |Handlers(c, i)| == (if i < n then i else n) <= |Handlers(c, COUNT)| == n
    ensures Handlers(c, i) == Handlers(c, COUNT)[..|Handlers(c, i)|]
    decreases i
  {
    HandlersCut(c, n, COUNT);
    if i > n {
      HandlersCut(c, n, i);
      PackedHandlers(c, n, n);
      assert Handlers(c, n)[..n] == Handlers(c, n);
    } else {
      HandlersUpTo(c, i, n);
    }
  }

  lemma {:induction false} HandlersUpTo(c: Chunk, i: nat, n: nat)
    requires i <= n <= COUNT && forall j :: 0 <= j < n ==> c[j].Some?
    ensures |Handlers(c, n)| == n && |Handlers(c, i)| == i && Handlers(c, i) == Handlers(c, n)[..i]
    decreases n
  {
    if i < n {
      HandlersUpTo(c, i, n - 1);
    } else if n > 0 {
      HandlersUpTo(c, n - 1, n - 1);
    }
  }

  // The handler in the last used slot of the head is about to be called, and registers hs.
  lemma OneCall(chunks: seq<Chunk>, m: nat, k: nat, regs: seq<seq<Handler>>)
    requires chunks != [] && Packed(chunks, m) && m >= 1 && |regs| == k + 1
    ensures var (all, hs) := (All(chunks), regs[k]);
      && all != [] && |hs| >= LostOf(m - 1, |hs|)
      && Scan(chunks, m, k, regs)
           == [all[|all| - 1]] + Reversed(all[..|all| - 1] + hs[..|hs| - LostOf(m - 1, |hs|)])
  {
    hide All, Handlers, Scan, InsertAll, Reversed, LostOf;
    var all, hs := All(chunks), regs[k];
    var popped := Popped(chunks, m);
    var next := InsertAll(popped, hs);
    QuietScan(next, m - 1, k + 1, regs);
    SpilledBelow(popped, m - 1, hs);
    TakeFirst([], chunks, m - 1, k, regs);
    assert [] + Scan(chunks, m, k, regs) == Scan(chunks, m, k, regs);
    assert [] + [chunks[0][m - 1].value] == [chunks[0][m - 1].value];
  }

  // What the scan still finds when hs went into a list of which i slots of the head are in use.
  lemma SpilledBelow(chunks: seq<Chunk>, i: nat, hs: seq<Handler>)
    requires chunks != [] && Packed(chunks, i) && i < COUNT
    ensures var next := InsertAll(chunks, hs);
      All(next[1..]) + Handlers(next[0], i) == All(chunks) + hs[..|hs| - LostOf(i, |hs|)]
  {
    hide All, Handlers, InsertAll, Used, Packed;
    var next, lost := InsertAll(chunks, hs), LostOf(i, |hs|);
    InsertAllPacked(chunks, i, hs);
    PrefixBelow(next, Used(i + |hs|), i);
    CutLast(All(chunks), hs, lost);
  }

  lemma CutLast(a: seq<Handler>, b: seq<Handler>, lost: nat)
    requires lost <= |b|
    ensures (a + b)[..|a + b| - lost] == a + b[..|b| - lost]
  {
  }

  lemma Popped(chunks: seq<Chunk>, m: nat) returns (p: seq<Chunk>)
    requires chunks != [] && Packed(chunks, m) && m >= 1
    ensures p == chunks[0 := chunks[0][m - 1 := None]] && Packed(p, m - 1)
    ensures All(chunks) == All(p) + [chunks[0][m - 1].value]
  {
    hide Handlers;
    var c, h := chunks[0][m - 1 := None], chunks[0][m - 1].value;
    p := chunks[0 := c];
    PutAppends(c, m - 1, h);
    assert c[m - 1 := Some(h)] == chunks[0] && p[1..] == chunks[1..];
    assert All(p) + [h] == All(chunks[1..]) + (Handlers(c, COUNT) + [h]);
  }

  // What a scan from slot i of the head finds in a packed list.
  lemma PrefixBelow(chunks: seq<Chunk>, n: nat, i: nat)
    requires chunks != [] && Packed(chunks, n) && i <= COUNT
    ensures var (all, lost) := (All(chunks), if n > i then n - i else 0);
      lost <= |all| && All(chunks[1..]) + Handlers(chunks[0], i) == all[..|all| - lost]
  {
    hide Handlers;
    PackedHandlers(chunks[0], n, i);
    var older, hs := All(chunks[1..]), Handlers(chunks[0], COUNT);
    assert All(chunks) == older + hs;
    assert older + hs[..|Handlers(chunks[0], i)|] == (older + hs)[..|older| + |Handlers(chunks[0], i)|];
  }

  // q handlers run that register nothing.
  lemma {:induction false} QuietCalls(chunks: seq<Chunk>, n: nat, i: nat, k: nat, q: nat, regs: seq<seq<Handler>>)
    returns (p: seq<Chunk>, m: nat)
    requires Packed(chunks, n) && n <= i <= COUNT && q < |All(chunks)|
    requires forall x :: k <= x < k + q ==> RegisteredBy(regs, x) == []
    ensures p != [] && Packed(p, m) && m >= 1 && All(p) == All(chunks)[..|All(chunks)| - q]
    ensures Scan(chunks, i, k, regs) == Reversed(All(chunks)[|All(chunks)| - q..]) + Scan(p, m, k + q, regs)
    decreases |chunks|, i
  {
    hide All, Handlers, Scan, Reversed, RegisteredBy;
    var all := All(chunks);
    SomeChunk(chunks);
    if i == 0 {
      EmptyHead(chunks);
      ScanNext(chunks, k, regs);
      p, m := QuietCalls(chunks[1..], if |chunks| == 1 then 0 else COUNT, COUNT, k, q, regs);
    } else if n < i {
      ScanFree(chunks, i - 1, k, regs);
      p, m := QuietCalls(chunks, n, i - 1, k, q, regs);
    } else if q == 0 {
      p, m := chunks, n;
      assert all[..|all|] == all && all[|all|..] == [];
      assert Reversed<Handler>([]) == [];
      assert [] + Scan(chunks, i, k, regs) == Scan(chunks, i, k, regs);
    } else {
      var popped := Popped(chunks, n);
      var h := chunks[0][n - 1].value;
      p, m := QuietCalls(popped, n - 1, n - 1, k + 1, q - 1, regs);
      QuietCall(chunks, n, k, regs);
      OneMore(All(popped), h, q);
    }
  }

  lemma QuietCall(chunks: seq<Chunk>, n: nat, k: nat, regs: seq<seq<Handler>>)
    requires chunks != [] && 0 < n <= COUNT && chunks[0][n - 1].Some? && RegisteredBy(regs, k) == []
    ensures Scan(chunks, n, k, regs)
         == [chunks[0][n - 1].value] + Scan(chunks[0 := chunks[0][n - 1 := None]], n - 1, k + 1, regs)
  {
    hide Scan;
    ScanStep(chunks, n, k, regs);
    NothingRegistered(chunks, n - 1);
  }

  lemma OneMore(older: seq<Handler>, h: Handler, q: nat)
    requires 0 < q <= |older| + 1
    ensures var all := older + [h];
      Reversed(all[|all| - q..]) == [h] + Reversed(older[|all| - q..]) && all[..|all| - q] == older[..|all| - q]
  {
    var all := older + [h];
    assert all[|all| - q..] == older[|all| - q..] + [h];
  }

  lemma SomeChunk(chunks: seq<Chunk>)
    requires |All(chunks)| > 0
    ensures chunks != []
  {
  }

  lemma EmptyHead(chunks: seq<Chunk>)
    requires chunks != [] && Filled(chunks[0], 0)
    ensures All(chunks) == All(chunks[1..])
  {
    HandlersCut(chunks[0], 0, COUNT);
  }

  /**
   Only the handler all[t] registers others, hs in this order.  The handlers behind t run in
   reverse order, then all[t]; then the list of those before t with the first of hs behind
   them, LostOf(t % 32, |hs|) fewer than there are, runs in reverse order.
   */
  lemma NestedCalled(chunks: seq<Chunk>, n: nat, t: nat, hs: seq<Handler>, regs: seq<seq<Handler>>)
    requires Packed(chunks, n) && t < |All(chunks)|
    requires |regs| == |All(chunks)| - t && regs[|regs| - 1] == hs
    requires forall x :: 0 <= x < |regs| - 1 ==> regs[x] == []
    ensures var all := All(chunks);
      Scan(chunks, COUNT, 0, regs) ==
        Reversed(all[t + 1..]) + [all[t]] + Reversed(all[..t] + hs[..|hs| - LostOf(t % COUNT, |hs|)])
  {
    hide *;
    var all, q := All(chunks), |regs| - 1;
    NoneRegistered(regs, q);
    PackedBound(chunks, n);
    var p, m := QuietCalls(chunks, n, COUNT, 0, q, regs);
    PackedBound(p, m);
    OneCall(p, m, q, regs);
    SlotOf(p, m, t);
    JoinCalls(all, t, Reversed(all[t + 1..]), hs[..|hs| - LostOf(t % COUNT, |hs|)]);
  }

  lemma NoneRegistered(regs: seq<seq<Handler>>, q: nat)
    requires q <= |regs| && forall x :: 0 <= x < q ==> regs[x] == []
    ensures forall x :: 0 <= x < q ==> RegisteredBy(regs, x) == []
  {
  }

  lemma PackedBound(chunks: seq<Chunk>, n: nat)
    requires Packed(chunks, n)
    ensures n <= COUNT
  {
  }

  lemma SlotOf(p: seq<Chunk>, m: nat, t: nat)
    requires p != [] && Packed(p, m) && 1 <= m <= COUNT && |All(p)| == t + 1
    ensures m - 1 == t % COUNT
  {
    AllCount(p, m);
    hide All, Packed;
  }

  lemma JoinCalls(all: seq<Handler>, t: nat, first: seq<Handler>, some: seq<Handler>)
    requires t < |all|
    ensures all[..t + 1][..t] == all[..t] && all[..t + 1][t] == all[t]
    ensures first + ([all[t]] + Reversed(all[..t] + some)) == first + [all[t]] + Reversed(all[..t] + some)
  {
  }

  /** So a handler that stands in hs only, at place j, is called if and only if j is small enough. */
  lemma NestedCalledIff(chunks: seq<Chunk>, n: nat, t: nat, hs: seq<Handler>, regs: seq<seq<Handler>>, j: nat)
    requires Packed(chunks, n) && t < |All(chunks)|
    requires |regs| == |All(chunks)| - t && regs[|regs| - 1] == hs
    requires forall x :: 0 <= x < |regs| - 1 ==> regs[x] == []
    requires j < |hs| && hs[j] !in All(chunks) && forall l :: 0 <= l < |hs| && l != j ==> hs[l] != hs[j]
    ensures hs[j] in Scan(chunks, COUNT, 0, regs) <==> j < |hs| - LostOf(t % COUNT, |hs|)
  {
    hide All, Scan, LostOf, Packed;
    NestedCalled(chunks, n, t, hs, regs);
    var all, some := All(chunks), hs[..|hs| - LostOf(t % COUNT, |hs|)];
    ReversedHas(all[t + 1..], hs[j]);
    ReversedHas(all[..t] + some, hs[j]);
    assert hs[j] in some <==> j < |some|;
  }

  lemma ReversedHas(s: seq<Handler>, h: Handler)
    ensures h in Reversed(s) <==> h in s
  {
    if h in s {
      var i :| 0 <= i < |s| && s[i] == h;
      assert Reversed(s)[|s| - 1 - i] == h;
    }
  }

  // How many handlers there are.
  lemma {:induction false} AllCount(chunks: seq<Chunk>, n: nat)
    requires chunks != [] && Packed(chunks, n)
    ensures |All(chunks)| == (|chunks| - 1) * COUNT + n
    decreases |chunks|
  {
    hide Handlers;
    PackedHandlers(chunks[0], n, COUNT);
    if |chunks| > 1 { AllCount(chunks[1..], COUNT); }
  }

  /** A single handler registered during the run is never called. */
  lemma OneNestedNever(chunks: seq<Chunk>, n: nat, t: nat, g: Handler, regs: seq<seq<Handler>>)
    requires Packed(chunks, n) && t < |All(chunks)| && g !in All(chunks)
    requires |regs| == |All(chunks)| - t && regs[|regs| - 1] == [g]
    requires forall x :: 0 <= x < |regs| - 1 ==> regs[x] == []
    ensures g !in Scan(chunks, COUNT, 0, regs)
  {
    hide All, Scan, Packed;
    NestedCalledIff(chunks, n, t, [g], regs, 0);
  }

  /** Of two that one handler registers both are called if it stood in the last slot of a chunk, and else none. */
  lemma TwoNestedIff(chunks: seq<Chunk>, n: nat, t: nat, g: Handler, h: Handler, regs: seq<seq<Handler>>)
    requires Packed(chunks, n) && t < |All(chunks)| && g !in All(chunks) && h !in All(chunks) && g != h
    requires |regs| == |All(chunks)| - t && regs[|regs| - 1] == [g, h]
    requires forall x :: 0 <= x < |regs| - 1 ==> regs[x] == []
    ensures g in Scan(chunks, COUNT, 0, regs) <==> t % COUNT == COUNT - 1
    ensures h in Scan(chunks, COUNT, 0, regs) <==> t % COUNT == COUNT - 1
  {
    hide All, Scan, Packed;
    NestedCalledIff(chunks, n, t, [g, h], regs, 0);
    NestedCalledIff(chunks, n, t, [g, h], regs, 1);
  }

  // ---------- any handlers register any others ----------

  /** Before the scan leaves the present head some registration needs a new chunk. */
  predicate Pushes(chunks: seq<Chunk>, i: nat, k: nat, regs: seq<seq<Handler>>)
    requires i <= COUNT
    decreases CallsLeft(regs, k), |chunks|, i
  {
    if chunks == [] || i == 0 then false
    else if chunks[0][i - 1] == None then Pushes(chunks, i - 1, k, regs)
    else
      var next := AfterCall(chunks, i - 1, RegisteredBy(regs, k));
      |next| > |chunks| || Pushes(next, i - 1, k + 1, regs)
  }

  lemma PushesStep(chunks: seq<Chunk>, i: nat, k: nat, regs: seq<seq<Handler>>)
    requires i <= COUNT && chunks != []
    ensures i == 0 ==> !Pushes(chunks, i, k, regs)
    ensures i > 0 && chunks[0][i - 1] == None ==> Pushes(chunks, i, k, regs) == Pushes(chunks, i - 1, k, regs)
    ensures i > 0 && chunks[0][i - 1].Some? ==>
      var next := AfterCall(chunks, i - 1, RegisteredBy(regs, k));
      Pushes(chunks, i, k, regs) == (|next| > |chunks| || Pushes(next, i - 1, k + 1, regs))
  {
    hide AfterCall, RegisteredBy;
  }

  // Why a run ends.
  lemma CallCounts(chunks: seq<Chunk>, i: nat, k: nat, regs: seq<seq<Handler>>)
    requires i < COUNT && chunks != []
    ensures var next := AfterCall(chunks, i, RegisteredBy(regs, k));
      && |next| >= |chunks| && CallsLeft(regs, k + 1) <= CallsLeft(regs, k)
      && (CallsLeft(regs, k + 1) == CallsLeft(regs, k) ==> |next| == |chunks|)
  {
    AfterCallGrows(chunks, i, RegisteredBy(regs, k));
    NothingRegistered(chunks, i);
    hide AfterCall;
  }

  /** h stands in a slot of the head that the scan has passed. */
  predicate Passed(c: Chunk, i: nat, h: Handler) {
    exists j :: i <= j < COUNT && c[j] == Some(h)
  }

  /** h stands where the scan is still to come. */
  ghost predicate Ahead(chunks: seq<Chunk>, i: nat, h: Handler)
    requires i <= COUNT && chunks != []
  {
    h in Handlers(chunks[0], i) || h in All(chunks[1..])
  }

  lemma {:induction false} HandlersHave(c: Chunk, n: nat, h: Handler)
    requires n <= COUNT
    ensures h in Handlers(c, n) <==> exists j :: 0 <= j < n && c[j] == Some(h)
  {
    if n > 0 { HandlersHave(c, n - 1, h); }
  }

  lemma {:induction false} HandlersUpToHave(c: Chunk, i: nat, n: nat, h: Handler)
    requires i <= n <= COUNT && h in Handlers(c, i)
    ensures h in Handlers(c, n)
  {
    HandlersHave(c, i, h);
    HandlersHave(c, n, h);
  }

  lemma {:induction false} SuffixHas(s: seq<Chunk>, a: nat, h: Handler)
    requires a <= |s| && h in All(s[a..])
    ensures h in All(s)
    decreases a
  {
    if a > 0 {
      assert s[1..][a - 1..] == s[a..];
      SuffixHas(s[1..], a - 1, h);
    } else {
      assert s[0..] == s;
    }
  }

  // After a registration that pushed g chunks, the former head is not the head and is whole.
  lemma PushedHas(s: seq<Chunk>, g: nat, h: Handler)
    requires 0 < g < |s| && (h in Handlers(s[g], COUNT) || h in All(s[g + 1..]))
    ensures h in All(s[1..])
  {
    hide Handlers;
    assert s[g..][1..] == s[g + 1..];
    assert s[1..][g - 1..] == s[g..];
    SuffixHas(s[1..], g - 1, h);
  }

  // What a registration does to a handler that is listed: a new chunk makes all of the old head come again.
  lemma StillAhead(chunks: seq<Chunk>, i: nat, hs: seq<Handler>, h: Handler)
    requires chunks != [] && i < COUNT && chunks[0][i].Some? && chunks[0][i].value != h
    ensures var next := AfterCall(chunks, i, hs);
      && (Ahead(chunks, i + 1, h) ==> Ahead(next, i, h))
      && (Passed(chunks[0], i + 1, h) && |next| > |chunks| ==> Ahead(next, i, h))
      && (Passed(chunks[0], i + 1, h) && |next| == |chunks| ==> Passed(next[0], i, h))
  {
    hide Handlers, All;
    var c, next := chunks[0][i := None], AfterCall(chunks, i, hs);
    var g := |next| - |chunks|;
    InsertAllShape(chunks[0 := c], hs);
    assert chunks[0 := c][1..] == chunks[1..];
    HandlersHave(chunks[0], i + 1, h);
    HandlersHave(next[g], i, h);
    HandlersHave(next[g], COUNT, h);
    if Passed(chunks[0], i + 1, h) {
      var j :| i + 1 <= j < COUNT && chunks[0][j] == Some(h);
      assert c[j] == Some(h) && next[g][j] == Some(h);
    }
    if h in Handlers(chunks[0], i + 1) {
      var j :| 0 <= j < i + 1 && chunks[0][j] == Some(h);
      assert c[j] == Some(h) && next[g][j] == Some(h);
    }
    if g > 0 && (h in Handlers(next[g], COUNT) || h in All(next[g + 1..])) { PushedHas(next, g, h); }
  }

  /** A handler ahead of the scan is called, and one that was passed too if a chunk is pushed in time. */
  lemma {:induction false} SurelyCalled(chunks: seq<Chunk>, i: nat, k: nat, regs: seq<seq<Handler>>, h: Handler)
    requires i <= COUNT && chunks != []
    requires Ahead(chunks, i, h) || (Passed(chunks[0], i, h) && Pushes(chunks, i, k, regs))
    ensures h in Scan(chunks, i, k, regs)
    decreases CallsLeft(regs, k), |chunks|, i
  {
    hide *;
    ScanStep(chunks, i, k, regs);
    PushesStep(chunks, i, k, regs);
    if i == 0 {
      AheadNext(chunks, h);
      SurelyCalled(chunks[1..], COUNT, k, regs, h);
    } else if chunks[0][i - 1] == None {
      FreeSlot(chunks, i - 1, h);
      SurelyCalled(chunks, i - 1, k, regs, h);
    } else if chunks[0][i - 1].value != h {
      StillAhead(chunks, i - 1, RegisteredBy(regs, k), h);
      CallCounts(chunks, i - 1, k, regs);
      SurelyCalled(AfterCall(chunks, i - 1, RegisteredBy(regs, k)), i - 1, k + 1, regs, h);
    }
  }

  lemma AheadNext(chunks: seq<Chunk>, h: Handler)
    requires chunks != [] && Ahead(chunks, 0, h)
    ensures |chunks| > 1 && Ahead(chunks[1..], COUNT, h)
  {
    var rest := chunks[1..];
    assert All(rest) == if rest == [] then [] else All(rest[1..]) + Handlers(rest[0], COUNT);
  }

  lemma FreeSlot(chunks: seq<Chunk>, i: nat, h: Handler)
    requires chunks != [] && i < COUNT && chunks[0][i] == None
    ensures Ahead(chunks, i + 1, h) <==> Ahead(chunks, i, h)
    ensures Passed(chunks[0], i + 1, h) <==> Passed(chunks[0], i, h)
  {
    HandlersHave(chunks[0], i + 1, h);
    HandlersHave(chunks[0], i, h);
    assert Passed(chunks[0], i, h) ==> Passed(chunks[0], i + 1, h) by {
      if Passed(chunks[0], i, h) {
        var j :| i <= j < COUNT && chunks[0][j] == Some(h);
        assert j != i;
      }
    }
  }

  /** h is not registered any more. */
  predicate NotLater(regs: seq<seq<Handler>>, k: nat, h: Handler) {
    forall x :: k <= x < |regs| ==> h !in regs[x]
  }

  lemma {:induction false} NotNested(regs: seq<seq<Handler>>, k: nat, n: nat, h: Handler)
    requires NotLater(regs, k, h)
    ensures h !in Nested(regs, k, n)
    decreases n - k
  {
    if k < n { NotNested(regs, k + 1, n, h); }
  }

  lemma NeverCalled(chunks: seq<Chunk>, i: nat, k: nat, regs: seq<seq<Handler>>, h: Handler)
    requires i <= COUNT && h !in All(chunks) && NotLater(regs, k, h)
    ensures h !in Scan(chunks, i, k, regs)
  {
    hide All, Nested, Scan, Lost, NotLater;
    CalledOrLost(chunks, i, k, regs, h);
    NotNested(regs, k, k + |Scan(chunks, i, k, regs)|, h);
  }

  lemma {:induction false} InsertAllFrom(chunks: seq<Chunk>, hs: seq<Handler>, j: nat, h: Handler)
    requires chunks != [] && j < COUNT && |InsertAll(chunks, hs)| == |chunks| && h !in hs
    ensures InsertAll(chunks, hs)[0][j] == Some(h) ==> chunks[0][j] == Some(h)
    decreases |hs|
  {
    if hs != [] {
      InsertAllShape(chunks, hs[..|hs| - 1]);
      InsertShape(InsertAll(chunks, hs[..|hs| - 1]), hs[|hs| - 1], 0);
      InsertAllFrom(chunks, hs[..|hs| - 1], j, h);
    }
  }

  // A handler that is not ahead does not get ahead without a new chunk.
  lemma NotAheadStep(chunks: seq<Chunk>, i: nat, hs: seq<Handler>, h: Handler)
    requires chunks != [] && i < COUNT && chunks[0][i].Some? && h !in hs
    requires !Ahead(chunks, i + 1, h) && |AfterCall(chunks, i, hs)| == |chunks|
    ensures chunks[0][i].value != h && !Ahead(AfterCall(chunks, i, hs), i, h)
  {
    hide Handlers, All;
    var popped, next := chunks[0 := chunks[0][i := None]], AfterCall(chunks, i, hs);
    InsertAllShape(popped, hs);
    assert popped[1..] == chunks[1..];
    HandlersHave(chunks[0], i + 1, h);
    HandlersHave(next[0], i, h);
    if h in Handlers(next[0], i) {
      var j :| 0 <= j < i && next[0][j] == Some(h);
      InsertAllFrom(popped, hs, j, h);
    }
  }

  lemma {:induction false} SurelyLost(chunks: seq<Chunk>, i: nat, k: nat, regs: seq<seq<Handler>>, h: Handler)
    requires i <= COUNT && chunks != [] && !Ahead(chunks, i, h) && !Pushes(chunks, i, k, regs) && NotLater(regs, k, h)
    ensures h !in Scan(chunks, i, k, regs)
    decreases CallsLeft(regs, k), |chunks|, i
  {
    hide *;
    ScanStep(chunks, i, k, regs);
    PushesStep(chunks, i, k, regs);
    if i == 0 {
      NotAheadNext(chunks, h);
      NeverCalled(chunks[1..], COUNT, k, regs, h);
    } else if chunks[0][i - 1] == None {
      FreeSlot(chunks, i - 1, h);
      SurelyLost(chunks, i - 1, k, regs, h);
    } else {
      CallCounts(chunks, i - 1, k, regs);
      NotLaterStep(regs, k, h);
      NotAheadStep(chunks, i - 1, RegisteredBy(regs, k), h);
      SurelyLost(AfterCall(chunks, i - 1, RegisteredBy(regs, k)), i - 1, k + 1, regs, h);
    }
  }

  lemma NotAheadNext(chunks: seq<Chunk>, h: Handler)
    requires chunks != [] && !Ahead(chunks, 0, h)
    ensures h !in All(chunks[1..])
  {
  }

  lemma NotLaterStep(regs: seq<seq<Handler>>, k: nat, h: Handler)
    requires NotLater(regs, k, h)
    ensures NotLater(regs, k + 1, h) && h !in RegisteredBy(regs, k)
  {
  }

  lemma TimesNext(c: Chunk, n: nat, h: Handler)
    requires n < COUNT
    ensures Times(Handlers(c, n + 1), h) == Times(Handlers(c, n), h) + if c[n] == Some(h) then 1 else 0
  {
    HandlersUnfold(c, n);
    hide Handlers;
    TimesJoin(Handlers(c, n), if c[n].Some? then [c[n].value] else [], h);
  }

  lemma {:induction false} TwiceListed(c: Chunk, i: nat, n: nat, h: Handler)
    requires i <= n <= COUNT
    ensures Times(Handlers(c, n), h) >= Times(Handlers(c, i), h)
    ensures (exists j :: i <= j < n && c[j] == Some(h)) ==> Times(Handlers(c, n), h) > Times(Handlers(c, i), h)
    decreases n
  {
    hide Handlers, Times;
    if i < n {
      TwiceListed(c, i, n - 1, h);
      TimesNext(c, n - 1, h);
    }
  }

  // A handler listed once is either ahead or passed.
  lemma OnePlace(chunks: seq<Chunk>, i: nat, h: Handler)
    requires i <= COUNT && chunks != [] && Times(All(chunks), h) == 1
    ensures Passed(chunks[0], i, h) <==> !Ahead(chunks, i, h)
  {
    hide Handlers;
    AllSplit(chunks, h);
    TwiceListed(chunks[0], i, COUNT, h);
    HandlersHave(chunks[0], i, h);
    HandlersHave(chunks[0], COUNT, h);
  }

  /**
   At any point of any run, whatever the handlers register: a handler that stands in the list once
   and is not registered again is called if and only if the scan has not passed its slot in the
   head, or a registration before the scan leaves this head needs a new chunk.
   */
  lemma CalledIff(chunks: seq<Chunk>, i: nat, k: nat, regs: seq<seq<Handler>>, h: Handler)
    requires i <= COUNT && chunks != [] && Times(All(chunks), h) == 1 && NotLater(regs, k, h)
    ensures h in Scan(chunks, i, k, regs) <==> !Passed(chunks[0], i, h) || Pushes(chunks, i, k, regs)
  {
    hide All, Scan, Pushes, Passed, NotLater;
    OnePlace(chunks, i, h);
    if !Passed(chunks[0], i, h) || Pushes(chunks, i, k, regs) {
      SurelyCalled(chunks, i, k, regs, h);
    } else {
      SurelyLost(chunks, i, k, regs, h);
    }
  }

  /** No handler stands in a slot that the scan has passed. */
  ghost predicate NonePassed(c: Chunk, i: nat) {
    forall j :: i <= j < COUNT ==> c[j] == None
  }

  /** After every call of the run, nothing stands in a passed slot of the head or a chunk is pushed in time. */
  ghost predicate Rescued(chunks: seq<Chunk>, i: nat, k: nat, regs: seq<seq<Handler>>)
    requires i <= COUNT
    decreases CallsLeft(regs, k), |chunks|, i
  {
    if chunks == [] then true
    else if i == 0 then Rescued(chunks[1..], COUNT, k, regs)
    else if chunks[0][i - 1] == None then Rescued(chunks, i - 1, k, regs)
    else
      var next := AfterCall(chunks, i - 1, RegisteredBy(regs, k));
      (NonePassed(next[0], i - 1) || Pushes(next, i - 1, k + 1, regs)) && Rescued(next, i - 1, k + 1, regs)
  }

  lemma {:induction false} NoneIn(c: Chunk, n: nat)
    requires n <= COUNT
    ensures Handlers(c, n) == [] <==> forall j :: 0 <= j < n ==> c[j] == None
  {
    if n > 0 { NoneIn(c, n - 1); }
  }

  // What was passed stays when no chunk is pushed.
  lemma {:induction false} StuckLost(chunks: seq<Chunk>, i: nat, k: nat, regs: seq<seq<Handler>>, h: Handler)
    requires i <= COUNT && chunks != [] && Passed(chunks[0], i, h) && !Pushes(chunks, i, k, regs)
    ensures Lost(chunks, i, k, regs) != []
    decreases CallsLeft(regs, k), |chunks|, i
  {
    hide *;
    ScanStep(chunks, i, k, regs);
    PushesStep(chunks, i, k, regs);
    if i == 0 {
      PassedSome(chunks[0], h);
    } else if chunks[0][i - 1] == None {
      FreeSlot(chunks, i - 1, h);
      StuckLost(chunks, i - 1, k, regs, h);
    } else {
      CallCounts(chunks, i - 1, k, regs);
      PassedStays(chunks, i - 1, RegisteredBy(regs, k), h);
      StuckLost(AfterCall(chunks, i - 1, RegisteredBy(regs, k)), i - 1, k + 1, regs, h);
    }
  }

  lemma PassedSome(c: Chunk, h: Handler)
    requires Passed(c, 0, h)
    ensures Handlers(c, COUNT) != []
  {
    hide Handlers;
    NoneIn(c, COUNT);
  }

  lemma PassedStays(chunks: seq<Chunk>, i: nat, hs: seq<Handler>, h: Handler)
    requires chunks != [] && i < COUNT && Passed(chunks[0], i + 1, h) && |AfterCall(chunks, i, hs)| == |chunks|
    ensures Passed(AfterCall(chunks, i, hs)[0], i, h)
  {
    var c := chunks[0][i := None];
    InsertAllShape(chunks[0 := c], hs);
    var j :| i + 1 <= j < COUNT && chunks[0][j] == Some(h);
    assert c[j] == Some(h) && AfterCall(chunks, i, hs)[0][j] == Some(h);
  }

  /** Whatever the handlers register, all handlers of either kind are called exactly under that condition. */
  lemma {:induction false} NothingLostIff(chunks: seq<Chunk>, i: nat, k: nat, regs: seq<seq<Handler>>)
    requires i <= COUNT && (chunks != [] ==> NonePassed(chunks[0], i) || Pushes(chunks, i, k, regs))
    ensures Lost(chunks, i, k, regs) == [] <==> Rescued(chunks, i, k, regs)
    decreases CallsLeft(regs, k), |chunks|, i
  {
    hide *;
    ScanStep(chunks, i, k, regs);
    RescuedStep(chunks, i, k, regs);
    if chunks != [] {
      PushesStep(chunks, i, k, regs);
      NonePassedStep(chunks[0], i);
    }
    if chunks != [] && i == 0 {
      FullNonePassed(chunks[1..]);
      NothingLostIff(chunks[1..], COUNT, k, regs);
    } else if chunks != [] && chunks[0][i - 1] == None {
      NothingLostIff(chunks, i - 1, k, regs);
    } else if chunks != [] {
      var next := AfterCall(chunks, i - 1, RegisteredBy(regs, k));
      CallCounts(chunks, i - 1, k, regs);
      if NonePassed(next[0], i - 1) || Pushes(next, i - 1, k + 1, regs) {
        NothingLostIff(next, i - 1, k + 1, regs);
      } else {
        var h := SomePassed(next[0], i - 1);
        StuckLost(next, i - 1, k + 1, regs, h);
      }
    }
  }

  lemma SomePassed(c: Chunk, i: nat) returns (h: Handler)
    requires !NonePassed(c, i)
    ensures Passed(c, i, h)
  {
    var j :| i <= j < COUNT && c[j] != None;
    h := c[j].value;
    assert c[j] == Some(h);
  }

  lemma NonePassedStep(c: Chunk, i: nat)
    requires i <= COUNT
    ensures i > 0 && c[i - 1] == None && NonePassed(c, i) ==> NonePassed(c, i - 1)
    ensures i == 0 && NonePassed(c, i) ==> Handlers(c, COUNT) == []
  {
    NoneIn(c, COUNT);
    hide Handlers;
  }

  lemma FullNonePassed(chunks: seq<Chunk>)
    ensures chunks != [] ==> NonePassed(chunks[0], COUNT)
  {
  }

  lemma RescuedStep(chunks: seq<Chunk>, i: nat, k: nat, regs: seq<seq<Handler>>)
    requires i <= COUNT
    ensures chunks == [] ==> Rescued(chunks, i, k, regs)
    ensures chunks != [] && i == 0 ==> Rescued(chunks, i, k, regs) == Rescued(chunks[1..], COUNT, k, regs)
    ensures chunks != [] && i > 0 && chunks[0][i - 1] == None ==>
      Rescued(chunks, i, k, regs) == Rescued(chunks, i - 1, k, regs)
    ensures chunks != [] && i > 0 && chunks[0][i - 1].Some? ==>
      var next := AfterCall(chunks, i - 1, RegisteredBy(regs, k));
      Rescued(chunks, i, k, regs) ==
        ((NonePassed(next[0], i - 1) || Pushes(next, i - 1, k + 1, regs)) && Rescued(next, i - 1, k + 1, regs))
  {
    hide AfterCall, RegisteredBy, Pushes, NonePassed;
  }

  /** In particular the whole run loses nothing exactly then. */
  lemma RunLosesNothingIff(chunks: seq<Chunk>, regs: seq<seq<Handler>>)
    ensures Lost(chunks, COUNT, 0, regs) == [] <==> Rescued(chunks, COUNT, 0, regs)
  {
    hide Lost, Rescued;
    NothingLostIff(chunks, COUNT, 0, regs);
  }
}
