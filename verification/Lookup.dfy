/**
 Symbol lookup in dynlink.c: the two hash functions and the two hash tables over one symbol table.
 */
module Lookup {
  import opened Wrappers

  /** The bytes of a C string, without the zero at its end. */
  type Name = seq<bv8>

  // ---------- the hash of the System V ABI ----------

  /** One character of the ABI's function: the top four bits are folded in and then cleared. */
  function AbiStep(h: bv32, c: bv8): bv32 {
    AbiFold(AbiSum(h, c))
  }

  function AbiSum(h: bv32, c: bv8): bv32 {
    AddChar(h << 4, c)
  }

  function AddChar(x: bv32, c: bv8): bv32 {
    x + (c as bv32)
  }

  function AbiFold(sum: bv32): bv32 {
    var g := Top4(sum);
    Cleared(if g != 0 then FoldedIn(sum, g) else sum, g)
  }

  function Top4(sum: bv32): bv32 {
    sum & 0xf000_0000
  }

  function FoldedIn(sum: bv32, g: bv32): bv32 {
    sum ^ (g >> 24)
  }

  function Cleared(sum: bv32, g: bv32): bv32 {
    sum & !g
  }

  function AbiHash(s: Name): bv32 {
    if s == [] then 0 else AbiStep(AbiHash(s[..|s| - 1]), s[|s| - 1])
  }

  /** Line 139. */
  function Sum(h: bv32, c: bv8): bv32 {
    AddChar(16 * h, c)
  }

  /** Line 140: the top bits are folded in and left alone. */
  function Fold(sum: bv32): bv32 {
    sum ^ ((sum >> 24) & 0xf0)
  }

  function Low28(h: bv32): bv32 {
    h & 0xfff_ffff
  }

  lemma FoldClears(sum: bv32)
    ensures Cleared(FoldedIn(sum, Top4(sum)), Top4(sum)) == Low28(Fold(sum))
  {
  }

  lemma NothingToFold(sum: bv32)
    ensures FoldedIn(sum, 0) == sum
  {
  }

  lemma FoldAgrees(sum: bv32)
    ensures AbiFold(sum) == Low28(Fold(sum))
  {
    hide Top4, FoldedIn, Cleared, Low28, Fold;
    FoldClears(sum);
    NothingToFold(sum);
  }

  lemma SixteenTimes(h: bv32)
    ensures (h & 0xfff_ffff) << 4 == 16 * h
  {
  }

  lemma SumAgrees(h: bv32, c: bv8)
    ensures AbiSum(Low28(h), c) == Sum(h, c)
  {
    hide AddChar;
    SixteenTimes(h);
  }

  lemma EmptyHash()
    ensures Low28(0) == AbiHash([])
  {
  }

  /** sysv_hash, lines 134-143: masking once at the end gives the ABI's hash of every string. */
  method SysvHash(s: Name) returns (h: bv32)
    ensures h == AbiHash(s)
  {
    hide Sum, Fold, AbiSum, AbiFold, Low28;
    h := 0;
    EmptyHash();
    for i := 0 to |s|
      invariant Low28(h) == AbiHash(s[..i])
    {
      assert s[..i + 1][..i] == s[..i];
      SumAgrees(h, s[i]);
      FoldAgrees(Sum(h, s[i]));
      h := Sum(h, s[i]);
      h := Fold(h);
    }
    assert s[..|s|] == s;
    h := Low28(h);
  }

  function GnuStep(h: bv32, c: bv8): bv32 {
    h * 33 + (c as bv32)
  }

  function GnuHash(s: Name): bv32 {
    if s == [] then 5381 else GnuStep(GnuHash(s[..|s| - 1]), s[|s| - 1])
  }

  /** gnu_hash, lines 145-152. */
  method ComputeGnuHash(s: Name) returns (h: bv32)
    ensures h == GnuHash(s)
  {
    hide GnuStep;
    h := 5381;
    for i := 0 to |s|
      invariant h == GnuHash(s[..i])
    {
      assert s[..i + 1][..i] == s[..i];
      h := GnuStep(h, s[i]);
    }
    assert s[..|s|] == s;
  }

  // ---------- symbols ----------

  /** Names by symbol index (index 0 is no symbol), and version numbers where the library has them. */
  datatype Symbols = Symbols(names: seq<Name>, versym: Option<seq<int>>)

  predicate Visible(t: Symbols, i: nat) {
    i < |t.names| && (t.versym.Some? ==> i < |t.versym.value| && t.versym.value[i] >= 0)
  }

  predicate Matches(t: Symbols, i: nat, s: Name) {
    Visible(t, i) && t.names[i] == s
  }

  /** The first visible symbol from index first on with this name. */
  function Scan(t: Symbols, s: Name, first: nat): (r: Option<nat>)
    ensures r.Some? ==> first <= r.value && Matches(t, r.value, s)
    ensures forall i :: first <= i && Matches(t, i, s) ==> r.Some? && r.value <= i
    decreases |t.names| - first
  {
    if first >= |t.names| then None
    else if Matches(t, first, s) then Some(first)
    else Scan(t, s, first + 1)
  }

  /** No two visible symbols have the same name. */
  ghost predicate Unique(t: Symbols) {
    forall i, j :: 0 < i < j && Visible(t, i) && Visible(t, j) ==> t.names[i] != t.names[j]
  }

  predicate VersionsOk(t: Symbols) {
    t.versym.Some? ==> |t.versym.value| >= |t.names|
  }

  // ---------- the System V table ----------

  /** hashtab: the number of buckets, the first symbol of each bucket, and the next symbol of each symbol. */
  datatype SysvTable = SysvTable(buckets: seq<nat>, chains: seq<nat>)

  function Bucket(h: bv32, n: nat): nat
    requires n > 0
  {
    (h as nat) % n
  }

  /** The list of symbols that the table strings together from i on, ending at index 0. */
  ghost predicate ChainIs(table: SysvTable, i: nat, list: seq<nat>)
    decreases |list|
  {
    if list == [] then i == 0
    else i == list[0] && 0 < i < |table.chains| && ChainIs(table, table.chains[i], list[1..])
  }

  /** Every symbol is in the list of the bucket that its name hashes to. */
  ghost predicate SysvOk(t: Symbols, table: SysvTable, lists: seq<seq<nat>>) {
    |table.buckets| > 0 && |lists| == |table.buckets| && |table.chains| == |t.names| && VersionsOk(t)
    && (forall b :: 0 <= b < |lists| ==> ChainIs(table, table.buckets[b], lists[b]))
    && forall i :: 0 < i < |t.names| ==> i in lists[Bucket(AbiHash(t.names[i]), |lists|)]
  }

  /** sysv_lookup, lines 154-166. */
  method SysvLookup(s: Name, h: bv32, t: Symbols, table: SysvTable, ghost lists: seq<seq<nat>>) returns (r: Option<nat>)
    requires SysvOk(t, table, lists) && h == AbiHash(s)
    ensures r.Some? ==> r.value > 0 && Matches(t, r.value, s)
    ensures r == None ==> forall i :: i > 0 ==> !Matches(t, i, s)
  {
    hide AbiHash;
    var b := Bucket(h, |table.buckets|);
    var i := table.buckets[b];
    ghost var rest := lists[b];
    forall j | j > 0 && Matches(t, j, s) ensures j in rest { }
    while i != 0
      invariant ChainIs(table, i, rest)
      invariant forall j :: j > 0 && Matches(t, j, s) ==> j in rest
      decreases |rest|
    {
      if (t.versym == None || t.versym.value[i] >= 0) && s == t.names[i] {
        return Some(i);
      }
      rest := rest[1..];
      i := table.chains[i];
    }
    r := None;
  }

  // ---------- the GNU table ----------

  /** nbuckets, the index of the first hashed symbol, the buckets, and one hash word for each hashed symbol. */
  datatype GnuTable = GnuTable(first: nat, buckets: seq<nat>, hashvals: seq<bv32>)

  // The low bit of a hash word marks the end of a bucket and is left out of comparisons.
  predicate Ends(h2: bv32) {
    h2 & 1 == 1
  }

  predicate SameHash(h1: bv32, h2: bv32) {
    h1 | 1 == h2 | 1
  }

  predicate Last(table: GnuTable, i: nat) {
    table.first <= i < table.first + |table.hashvals| && Ends(table.hashvals[i - table.first])
  }

  predicate HashIs(table: GnuTable, i: nat, h: bv32) {
    table.first <= i < table.first + |table.hashvals| && SameHash(h, table.hashvals[i - table.first])
  }

  /** The symbols of a bucket stand together, the last one marked by the low bit of its hash word. */
  ghost predicate GnuOk(t: Symbols, table: GnuTable) {
    |table.buckets| > 0 && table.first > 0 && table.first + |table.hashvals| == |t.names| && VersionsOk(t)
    && (forall b :: 0 <= b < |table.buckets| && table.buckets[b] != 0 ==>
          table.first <= table.buckets[b] && exists e :: table.buckets[b] <= e && Last(table, e))
    && forall i :: table.first <= i < |t.names| ==> InBucket(t, table, i)
  }

  ghost predicate InBucket(t: Symbols, table: GnuTable, i: nat)
    requires i < |t.names| && |table.buckets| > 0
  {
    var h := GnuHash(t.names[i]);
    var start := table.buckets[Bucket(h, |table.buckets|)];
    start != 0 && start <= i && HashIs(table, i, h) && forall j :: start <= j < i ==> !Last(table, j)
  }

  /** gnu_lookup, lines 168-192. */
  method GnuLookup(s: Name, h: bv32, t: Symbols, table: GnuTable) returns (r: Option<nat>)
    requires GnuOk(t, table) && h == GnuHash(s)
    ensures r.Some? ==> r.value >= table.first && Matches(t, r.value, s)
    ensures r == None ==> forall i :: i >= table.first ==> !Matches(t, i, s)
  {
    hide GnuHash, Ends, SameHash;
    var start := table.buckets[Bucket(h, |table.buckets|)];
    MatchesInBucket(s, h, t, table);
    if start == 0 {
      return None;
    }
    var i := start;
    ghost var e :| start <= e && Last(table, e);
    while true
      invariant start <= i <= e
      invariant forall j :: start <= j < i ==> !Last(table, j) && !Matches(t, j, s)
      decreases e - i
    {
      var h2 := table.hashvals[i - table.first];
      if (t.versym == None || t.versym.value[i] >= 0) && SameHash(h, h2) && s == t.names[i] {
        return Some(i);
      }
      assert !Matches(t, i, s);
      if Ends(h2) {
        assert Last(table, i);
        return None;
      }
      i := i + 1;
    }
  }

  // Where a visible symbol of this name can be.
  lemma MatchesInBucket(s: Name, h: bv32, t: Symbols, table: GnuTable)
    requires GnuOk(t, table) && h == GnuHash(s)
    ensures var start := table.buckets[Bucket(h, |table.buckets|)];
      forall j :: j >= table.first && Matches(t, j, s) ==>
        start != 0 && start <= j && HashIs(table, j, h) && forall k :: start <= k < j ==> !Last(table, k)
  {
    forall j | j >= table.first && Matches(t, j, s)
      ensures InBucket(t, table, j)
    {
    }
  }

  // ---------- agreement with the linear scan ----------

  lemma OneMatch(t: Symbols, s: Name, i: nat, j: nat)
    requires Unique(t) && i > 0 && j > 0 && Matches(t, i, s) && Matches(t, j, s)
    ensures i == j
  {
  }

  /** With unique names, a result that names a symbol or denies one is the result of the scan. */
  lemma AnswerIsScan(t: Symbols, s: Name, first: nat, r: Option<nat>)
    requires Unique(t) && first > 0
    requires r.Some? ==> r.value >= first && Matches(t, r.value, s)
    requires r == None ==> forall i :: i >= first ==> !Matches(t, i, s)
    ensures r == Scan(t, s, first)
  {
    if r.Some? && Scan(t, s, first).Some? { OneMatch(t, s, r.value, Scan(t, s, first).value); }
  }

  /**
   The two tables agree on a name exactly when its symbol is not below the ones that the GNU table
   covers.
   */
  lemma TablesAgreeIff(t: Symbols, s: Name, first: nat)
    requires Unique(t) && first > 0
    ensures Scan(t, s, 1) == Scan(t, s, first) <==> Scan(t, s, 1) == None || Scan(t, s, 1).value >= first
  {
    var p, q := Scan(t, s, 1), Scan(t, s, first);
    if p.Some? && q.Some? { OneMatch(t, s, p.value, q.value); }
  }
}
