/**
 The list of loaded libraries of dynlink.c and the libraries each of them needs.  struct dso is a
 node; pointers between nodes are indices.
 */
module DepsModel {
  import opened Wrappers

  /** A file's device and inode. */
  datatype Ino = Ino(dev: nat, ino: nat)

  /** The part of struct dso that loading looks at. */
  datatype Dso = Dso(
    name: string, shortname: Option<string>, ino: Ino, needed: seq<string>,
    neededBy: Option<nat>, next: Option<nat>, prev: Option<nat>, refcnt: nat)

  /** What a search of the library path finds: the path of the file and its inode. */
  datatype Found = Found(path: string, ino: Ino)

  /** The program is the head of the list; the linker is ldso and the kernel's library may hang on it. */
  const HEAD := 0
  const LDSO := 1
  const VDSO := 2
  const NAME_MAX := 255

  // ---------- names ----------

  predicate HasSlash(name: string) {
    '/' in name
  }

  /** The part after the last slash. */
  function BaseName(path: string): string
    decreases |path|
  {
    if path == [] then [] else if path[|path| - 1] == '/' then [] else BaseName(path[..|path| - 1]) + [path[|path| - 1]]
  }

  /** The part of a name before its first dot. */
  function Stem(name: string): string {
    if name == [] || name[0] == '.' then [] else [name[0]] + Stem(name[1..])
  }

  function Reserved(): seq<string> {
    ["c", "pthread", "rt", "m", "dl", "util", "xnet"]
  }

  /**
   Lines 539-562: names taken for the linker itself.  strncmp over the length of the stem accepts
   every prefix of a reserved word.
   */
  predicate IsReserved(name: string) {
    |name| >= 3 && name[..3] == "lib" && '.' in name
    && exists k :: 0 <= k < |Reserved()| && Stem(name[3..]) <= Reserved()[k]
  }

  predicate IsSelf(name: string, ldsoName: string) {
    IsReserved(name) || name == ldsoName
  }

  /** The proper prefixes of reserved words that are not reserved themselves, the empty one included. */
  function Partial(): seq<string> {
    ["", "p", "pt", "pth", "pthr", "pthre", "pthrea", "r", "d", "u", "ut", "uti", "x", "xn", "xne"]
  }

  lemma PrefixIn(s: string, w: string, prefixes: seq<string>)
    requires s <= w && |prefixes| == |w| + 1 && forall n :: 0 <= n <= |w| ==> prefixes[n] == w[..n]
    ensures s == prefixes[|s|]
  {
  }

  lemma ReservedPrefix(s: string, k: nat)
    requires k < |Reserved()| && s <= Reserved()[k]
    ensures s in Reserved() || s in Partial()
  {
    match k {
      case 0 => PrefixIn(s, "c", ["", "c"]);
      case 1 => PrefixIn(s, "pthread", ["", "p", "pt", "pth", "pthr", "pthre", "pthrea", "pthread"]);
      case 2 => PrefixIn(s, "rt", ["", "r", "rt"]);
      case 3 => PrefixIn(s, "m", ["", "m"]);
      case 4 => PrefixIn(s, "dl", ["", "d", "dl"]);
      case 5 => PrefixIn(s, "util", ["", "u", "ut", "uti", "util"]);
      case _ => PrefixIn(s, "xnet", ["", "x", "xn", "xne", "xnet"]);
    }
  }

  lemma PartialPrefix(i: nat)
    requires i < |Partial()|
    ensures Partial()[i] !in Reserved()
    ensures exists k :: 0 <= k < |Reserved()| && Partial()[i] <= Reserved()[k]
  {
    var w := Reserved()[if i <= 6 then 1 else if i == 7 then 2 else if i == 8 then 4 else if i <= 11 then 5 else 6];
    assert Partial()[i] <= w;
  }

  /**
   Lines 539-562 are to keep the names of the implementation's own libraries from being loaded.
   Of all names with "lib" and a dot, the ones taken for the linker without being reserved are
   those with one of fifteen stems: "lib.so", "libp.so", "libx.so.6" and so on.
   */
  lemma WronglyReservedIff(name: string)
    requires |name| >= 3 && name[..3] == "lib" && '.' in name
    ensures IsReserved(name) && Stem(name[3..]) !in Reserved() <==> Stem(name[3..]) in Partial()
    ensures Stem(name[3..]) in Reserved() ==> IsReserved(name)
  {
    var stem := Stem(name[3..]);
    if IsReserved(name) {
      var k :| 0 <= k < |Reserved()| && stem <= Reserved()[k];
      ReservedPrefix(stem, k);
    }
    if stem in Partial() {
      var i :| 0 <= i < |Partial()| && Partial()[i] == stem;
      PartialPrefix(i);
    }
    if stem in Reserved() {
      var k :| 0 <= k < |Reserved()| && Reserved()[k] == stem;
      assert stem <= Reserved()[k];
    }
  }

  // ---------- the list ----------

  /** Nodes by index, and the list from the head as the next pointers give it. */
  ghost predicate Linked(nodes: seq<Dso>, order: seq<nat>, tail: nat) {
    |order| >= 1 && order[0] == HEAD && order[|order| - 1] == tail
    && (forall i :: 0 <= i < |order| ==> order[i] < |nodes|)
    && (forall i, j :: 0 <= i < j < |order| ==> order[i] != order[j])
    && (forall i :: 0 <= i < |order| - 1 ==> Joined(nodes, order[i], order[i + 1]))
    && tail < |nodes| && nodes[tail].next == None && nodes[HEAD].prev == None
  }

  predicate Joined(nodes: seq<Dso>, p: nat, q: nat) {
    p < |nodes| && q < |nodes| && nodes[p].next == Some(q) && nodes[q].prev == Some(p)
  }

  /** The first index of a library loaded from a file. */
  function FirstLoaded(vdso: bool): nat {
    if vdso then VDSO + 1 else LDSO + 1
  }

  /** The linker is outside the list exactly while it has no prev, with the kernel's library hanging on it. */
  ghost predicate SelfOk(nodes: seq<Dso>, order: seq<nat>, vdso: bool) {
    |nodes| >= FirstLoaded(vdso)
    && (nodes[LDSO].prev == None <==> LDSO !in order)
    && (LDSO !in order ==>
          if vdso then VDSO !in order && Joined(nodes, LDSO, VDSO) && nodes[VDSO].next == None
          else nodes[LDSO].next == None)
  }

  /** Libraries are needed by libraries loaded before them, and no file is loaded twice. */
  ghost predicate FilesOk(nodes: seq<Dso>, order: seq<nat>, vdso: bool) {
    (forall p :: 0 <= p < |nodes| ==> NeededEarlier(nodes, p))
    && (forall p :: FirstLoaded(vdso) <= p < |nodes| ==> p in order)
    && (forall p, q :: FirstLoaded(vdso) <= p < q < |nodes| ==> nodes[p].ino != nodes[q].ino)
  }

  predicate NeededEarlier(nodes: seq<Dso>, p: nat)
    requires p < |nodes|
  {
    nodes[p].neededBy.Some? ==> nodes[p].neededBy.value < p
  }

  // ---------- what a name refers to ----------

  /** The inodes whose search paths apply to a library: its own and those of the libraries it was needed by. */
  function Chain(nodes: seq<Dso>, p: Option<nat>): seq<Ino>
    decreases if p.Some? then p.value + 1 else 0
  {
    if p == None || p.value >= |nodes| then []
    else if nodes[p.value].neededBy.Some? && nodes[p.value].neededBy.value >= p.value then [nodes[p.value].ino]
    else [nodes[p.value].ino] + Chain(nodes, nodes[p.value].neededBy)
  }

  /** Library d is what the name means to a library with this chain. */
  predicate Answers(nodes: seq<Dso>, name: string, found: Option<Found>, ldsoName: string, d: nat) {
    d < |nodes|
    && ((IsSelf(name, ldsoName) && d == LDSO)
        || (!HasSlash(name) && nodes[d].shortname == Some(name))
        || (found.Some? && nodes[d].ino == found.value.ino))
  }
}
