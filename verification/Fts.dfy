/**
 The fts stream of Libc/gen/fts.c: linked FTSENT nodes, one shared path buffer, and nodes freed as the
 walk leaves them.  A pointer to a node is its key in the map of allocated nodes; freeing removes the
 key, and every access is to a node that is still allocated.
 */
module Fts {
  import opened FtsWalk
  import opened FtsRuns
  import opened FtsEnds

  datatype Ptr = Nil | To(id: nat)

  datatype Ent = Ent(link: Ptr, parent: Ptr, level: int, info: Info, instr: Instr, errno: bool,
                     name: string, pathlen: nat, id: FileId, file: File)

  const MAX_LEVEL: int := 0x7fffffff
  const NUL: char := '\0'

  /** Conversion to a 16-bit signed integer. */
  function Int16(x: int): int {
    (x + 0x8000) % 0x1_0000 - 0x8000
  }

  // ----- the node list in memory -----

  function Elems(s: seq<nat>): set<nat> {
    set x | x in s
  }

  predicate Distinct(s: seq<nat>) {
    forall i, j | 0 <= i < j < |s| :: s[i] != s[j]
  }

  /** A node in memory, and as the application sees it. */
  predicate EntIs(e: Ent, n: Node) {
    && e.level == n.level && e.info == n.info && e.instr == n.instr && e.errno == n.errno
    && e.name == n.name && e.pathlen == |n.path| && e.id == n.id && e.file == n.file
  }

  /** The parent of a node of level `level` that is followed by `rest`, whose addresses are `ids`. */
  function Parent(ids: seq<nat>, level: int, rest: seq<Node>, root: nat): Ptr
    requires |ids| == |rest|
    decreases ids
  {
    if rest == [] then To(root)
    else if rest[0].level < level then To(ids[0])
    else Parent(ids[1..], rest[0].level, rest[1..], root)
  }

  /** The nodes at `ids` are linked as the list `nodes` says. */
  predicate Linked(ents: map<nat, Ent>, ids: seq<nat>, nodes: seq<Node>, root: nat)
    decreases ids
  {
    |ids| == |nodes| &&
    (ids == [] ||
     (&& ids[0] in ents && EntIs(ents[ids[0]], nodes[0])
      && ents[ids[0]].link == (if |ids| > 1 && nodes[1].level == nodes[0].level then To(ids[1]) else Nil)
      && (if nodes[0].info == INIT then |ids| > 1 && nodes[1].level == nodes[0].level == 0
          else ents[ids[0]].parent == Parent(ids[1..], nodes[0].level, nodes[1..], root))
      && Linked(ents, ids[1..], nodes[1..], root)))
  }

  lemma {:induction false} LinkedFrame(ents: map<nat, Ent>, ents': map<nat, Ent>, ids: seq<nat>, nodes: seq<Node>,
                                       root: nat)
    requires Linked(ents, ids, nodes, root) && forall x | x in ids :: x in ents && x in ents' && ents'[x] == ents[x]
    ensures Linked(ents', ids, nodes, root)
    decreases ids
  {
    hide Parent, EntIs;
    if ids != [] {
      assert ids[0] in ids;
      assert forall x | x in ids[1..] :: x in ids;
      LinkedFrame(ents, ents', ids[1..], nodes[1..], root);
    }
  }

  lemma {:induction false} LinkedIn(ents: map<nat, Ent>, ids: seq<nat>, nodes: seq<Node>, root: nat)
    requires Linked(ents, ids, nodes, root)
    ensures forall x | x in ids :: x in ents
    decreases ids
  {
    hide Parent, EntIs;
    if ids != [] {
      LinkedIn(ents, ids[1..], nodes[1..], root);
      assert ids == [ids[0]] + ids[1..];
    }
  }

  lemma {:induction false} LinkedSuffix(ents: map<nat, Ent>, ids: seq<nat>, nodes: seq<Node>, root: nat, k: nat)
    requires Linked(ents, ids, nodes, root) && k <= |ids|
    ensures |ids| == |nodes| && Linked(ents, ids[k..], nodes[k..], root)
    decreases k
  {
    hide Parent, EntIs;
    if k == 0 {
      assert ids[k..] == ids && nodes[k..] == nodes;
    } else {
      LinkedSuffix(ents, ids[1..], nodes[1..], root, k - 1);
      assert ids[1..][k - 1..] == ids[k..] && nodes[1..][k - 1..] == nodes[k..];
    }
  }

  /** The ancestors that the cycle check compares with, starting at position k of the list. */
  function AncestorsFrom(nodes: seq<Node>, k: nat): set<FileId>
    requires k <= |nodes|
  {
    if k == |nodes| then {} else {nodes[k].id} + Above(nodes[k].level, nodes[k + 1..])
  }

  function PtrAt(ids: seq<nat>, root: nat, k: nat): Ptr
    requires k <= |ids|
  {
    if k == |ids| then To(root) else To(ids[k])
  }

  /** Where the parent pointer of the first node leads: to the next open directory in the list, or past its end. */
  lemma {:induction false} ParentAt(ids: seq<nat>, nodes: seq<Node>, root: nat, size: nat) returns (j: nat)
    requires nodes != [] && |ids| == |nodes| && Held(nodes, size)
    ensures 0 < j <= |nodes| && Parent(ids[1..], nodes[0].level, nodes[1..], root) == PtrAt(ids, root, j)
    ensures Above(nodes[0].level, nodes[1..]) == AncestorsFrom(nodes, j)
    ensures if j == |nodes| then nodes[0].level == 0
            else nodes[j].info == D && nodes[j].level == nodes[0].level - 1 && Stem(nodes[0]) == Prefix(nodes[j])
    decreases nodes
  {
    hide NodeOk, Stem, Prefix;
    if |nodes| == 1 || nodes[1].level < nodes[0].level {
      return 1;
    }
    var i := ParentAt(ids[1..], nodes[1..], root, size);
    LevelOf(nodes, size);
    assert ids[1..][1..] == ids[2..] && nodes[1..][1..] == nodes[2..];
    if i < |nodes[1..]| {
      HeldSuffix(nodes, size, i + 1);
      HeadFacts(nodes[i + 1..], size);
      assert nodes[1..][i + 1..] == nodes[i + 2..];
    }
    return i + 1;
  }

  lemma {:induction false} LevelOf(nodes: seq<Node>, size: nat)
    requires |nodes| > 1 && Held(nodes, size) && nodes[1].level >= nodes[0].level
    ensures nodes[1].level == nodes[0].level >= 0 && (nodes[0].level > 0 ==> Stem(nodes[1]) == Stem(nodes[0]))
  {
    assert Adjoin(nodes[0], nodes[1]);
  }

  lemma {:induction false} HeldSuffix(nodes: seq<Node>, size: nat, k: nat)
    requires Held(nodes, size) && k <= |nodes|
    ensures Held(nodes[k..], size)
    decreases k
  {
    hide NodeOk, Adjoin, Above;
    if k == 0 {
      assert nodes[k..] == nodes;
    } else {
      HeldSuffix(nodes[1..], size, k - 1);
      assert nodes[1..][k - 1..] == nodes[k..];
    }
  }

  /** Going up from the directory at position k. */
  lemma {:induction false} UpFrom(ents: map<nat, Ent>, ids: seq<nat>, nodes: seq<Node>, root: nat, k: nat, size: nat)
    returns (j: nat)
    requires Linked(ents, ids, nodes, root) && Held(nodes, size) && k < |nodes| && nodes[k].info != INIT
    ensures |ids| == |nodes| && k < j <= |ids| && ids[k] in ents && ents[ids[k]].parent == PtrAt(ids, root, j)
    ensures AncestorsFrom(nodes, k) == {ents[ids[k]].id} + AncestorsFrom(nodes, j)
    ensures ents[ids[k]].level >= 0
    ensures (j < |ids| ==>
              nodes[j].info == D && nodes[j].level == nodes[k].level - 1 && Stem(nodes[k]) == Prefix(nodes[j]))
    ensures j == |ids| ==> nodes[k].level == 0
    ensures Above(nodes[k].level, nodes[k + 1..]) == AncestorsFrom(nodes, j)
  {
    hide Adjoin, Stem, Prefix;
    LinkedSuffix(ents, ids, nodes, root, k);
    HeldSuffix(nodes, size, k);
    assert nodes[k..][1..] == nodes[k + 1..] && ids[k..][1..] == ids[k + 1..];
    var i := ParentAt(ids[k..], nodes[k..], root, size);
    HeadFacts(nodes[k..], size);
    j := k + i;
    if j < |ids| {
      assert nodes[k..][i + 1..] == nodes[j + 1..];
    }
  }

  // ----- the path buffer -----

  /** The bytes of text stored from position `at` on. */
  function Put(buf: seq<char>, at: nat, text: seq<char>): (r: seq<char>)
    requires at + |text| <= |buf|
    ensures |r| == |buf| && r[..at] == buf[..at] && r[at..at + |text|] == text
  {
    buf[..at] + text + buf[at + |text|..]
  }

  predicate Holds(buf: seq<char>, path: string) {
    |path| < |buf| && buf[..|path|] == path && buf[|path|] == NUL
  }

  /** The C string at the start of the buffer. */
  function CString(buf: seq<char>): string {
    if buf == [] || buf[0] == NUL then "" else [buf[0]] + CString(buf[1..])
  }

  lemma {:induction false} HoldsCString(buf: seq<char>, path: string)
    requires Holds(buf, path) && NUL !in path
    ensures CString(buf) == path
    decreases path
  {
    if path != "" {
      assert buf[0] == buf[..|path|][0] == path[0] && path[0] in path;
      assert buf[1..][..|path[1..]|] == buf[..|path|][1..];
      HoldsCString(buf[1..], path[1..]);
    }
  }

  /** Appending a name to the directory whose path is at the start of the buffer. */
  lemma {:induction false} NameWritten(buf: seq<char>, prefix: string, name: string)
    requires |prefix| + 1 + |name| < |buf| && buf[..|prefix|] == prefix
    ensures var b := Put(Put(buf, |prefix|, "/"), |prefix| + 1, name + [NUL]);
            Holds(b, prefix + "/" + name)
  {
    var b1 := Put(buf, |prefix|, "/");
    var b := Put(b1, |prefix| + 1, name + [NUL]);
    var p := prefix + "/" + name;
    assert b[|prefix| + 1..|prefix| + 1 + |name + [NUL]|] == name + [NUL];
    forall i | 0 <= i < |p| ensures b[i] == p[i] {
      if i < |prefix| {
        assert b[i] == b[..|prefix| + 1][i] == b1[..|prefix| + 1][i]
          == b1[i] == b1[..|prefix|][i] == buf[..|prefix|][i];
      } else if i == |prefix| {
        assert b[i] == b[..|prefix| + 1][i] == b1[i] == b1[|prefix|..|prefix| + 1][0];
      } else {
        assert b[i] == (name + [NUL])[i - |prefix| - 1];
      }
    }
    assert b[|p|] == (name + [NUL])[|name|];
    assert b[..|p|] == p;
  }

  // ----- the children that fts_build has linked so far -----

  predicate SiblingAt(ents: map<nat, Ent>, kids: seq<nat>, cs: seq<Node>, parent: nat, i: nat)
    requires i < |kids| == |cs|
  {
    && kids[i] in ents && EntIs(ents[kids[i]], cs[i]) && ents[kids[i]].parent == To(parent)
    && ents[kids[i]].link == (if i + 1 < |kids| then To(kids[i + 1]) else Nil)
  }

  /** Nodes at `kids`, linked in order, all with the same parent. */
  ghost predicate Siblings(ents: map<nat, Ent>, kids: seq<nat>, cs: seq<Node>, parent: nat) {
    |kids| == |cs| && Distinct(kids) && forall i: nat | i < |kids| :: SiblingAt(ents, kids, cs, parent, i)
  }

  lemma {:induction false} SiblingsTail(ents: map<nat, Ent>, kids: seq<nat>, cs: seq<Node>, parent: nat)
    requires Siblings(ents, kids, cs, parent) && kids != []
    ensures Siblings(ents, kids[1..], cs[1..], parent)
  {
    hide EntIs;
    forall i: nat | i < |kids| - 1 ensures SiblingAt(ents, kids[1..], cs[1..], parent, i) {
      assert SiblingAt(ents, kids, cs, parent, i + 1);
    }
  }

  lemma {:induction false} LinkedCons(ents: map<nat, Ent>, id: nat, n: Node, ids: seq<nat>, nodes: seq<Node>, root: nat)
    requires Linked(ents, ids, nodes, root) && nodes != [] && |ids| == |nodes|
    requires id in ents && EntIs(ents[id], n) && n.info != INIT
    requires ents[id].link == (if nodes[0].level == n.level then To(ids[0]) else Nil)
    requires ents[id].parent == Parent(ids, n.level, nodes, root)
    ensures Linked(ents, [id] + ids, [n] + nodes, root)
  {
    hide EntIs;
    assert ([id] + ids)[1..] == ids && ([n] + nodes)[1..] == nodes;
  }

  /** The children of the current directory, put in front of the list. */
  lemma {:induction false} LinkChildren(ents: map<nat, Ent>, kids: seq<nat>, cs: seq<Node>, ids: seq<nat>,
                                        nodes: seq<Node>, root: nat)
    requires Linked(ents, ids, nodes, root) && nodes != [] && |ids| == |nodes| && Siblings(ents, kids, cs, ids[0])
    requires forall i | 0 <= i < |cs| :: cs[i].level == nodes[0].level + 1 && cs[i].info != INIT
    ensures Linked(ents, kids + ids, cs + nodes, root)
    ensures Parent(kids + ids, nodes[0].level + 1, cs + nodes, root) == To(ids[0])
    decreases kids
  {
    hide EntIs, Linked;
    if kids == [] {
      assert kids + ids == ids && cs + nodes == nodes;
    } else {
      var (k, c) := (kids[1..] + ids, cs[1..] + nodes);
      SiblingsTail(ents, kids, cs, ids[0]);
      LinkChildren(ents, kids[1..], cs[1..], ids, nodes, root);
      assert kids + ids == [kids[0]] + k && cs + nodes == [cs[0]] + c;
      assert SiblingAt(ents, kids, cs, ids[0], 0);
      assert if |kids| > 1 then k[0] == kids[1] && c[0] == cs[1] else k == ids && c == nodes;
      LinkedCons(ents, kids[0], cs[0], k, c, root);
      ParentCons(k, nodes[0].level + 1, c, root, kids[0], cs[0]);
    }
  }

  lemma {:induction false} ParentCons(ids: seq<nat>, level: int, nodes: seq<Node>, root: nat, id: nat, n: Node)
    requires |ids| == |nodes| && n.level == level
    ensures Parent([id] + ids, level, [n] + nodes, root) == Parent(ids, level, nodes, root)
  {
    assert ([id] + ids)[1..] == ids && ([n] + nodes)[1..] == nodes;
  }

  /** One more child at the end of the list. */
  lemma {:induction false} SiblingsGrow(ents: map<nat, Ent>, kids: seq<nat>, cs: seq<Node>, parent: nat, p: nat,
                                        e: Ent, c: Node)
    requires Siblings(ents, kids, cs, parent) && (kids != [] ==> kids[|kids| - 1] in ents)
    requires p !in kids && EntIs(e, c) && e.parent == To(parent) && e.link == Nil
    ensures var ents1 := ents[p := e];
            var ents2 := if kids == [] then ents1
                         else ents1[kids[|kids| - 1] := ents[kids[|kids| - 1]].(link := To(p))];
            Siblings(ents2, kids + [p], cs + [c], parent)
  {
    hide EntIs;
    var ents1 := ents[p := e];
    var ents2 := if kids == [] then ents1 else ents1[kids[|kids| - 1] := ents[kids[|kids| - 1]].(link := To(p))];
    forall i: nat | i < |kids + [p]| ensures SiblingAt(ents2, kids + [p], cs + [c], parent, i) {
      if i < |kids| {
        assert SiblingAt(ents, kids, cs, parent, i);
        LinkIgnored(ents[kids[i]], To(p), cs[i]);
      }
    }
  }

  lemma {:induction false} LinkIgnored(e: Ent, link: Ptr, n: Node)
    ensures EntIs(e.(link := link), n) == EntIs(e, n)
  {
  }

  // ----- which nodes are allocated -----

  /** Every node ever allocated is either still allocated or has been freed, not both. */
  ghost predicate FreedOrLive(freed: set<nat>, live: set<nat>, next: nat) {
    freed !! live && forall x: nat :: x in freed || x in live <==> x < next
  }

  /** Exactly the listed nodes, the children being built and the parent of the roots are allocated. */
  predicate Keys(ents: map<nat, Ent>, ids: seq<nat>, kids: seq<nat>, root: nat) {
    && root in ents && ents[root].level == -1 && root !in ids && root !in kids
    && Elems(ids) !! Elems(kids) && ents.Keys == Elems(ids) + Elems(kids) + {root}
  }

  lemma {:induction false} KeysSet(ents: map<nat, Ent>, ids: seq<nat>, kids: seq<nat>, root: nat, x: nat, e: Ent)
    requires Keys(ents, ids, kids, root) && x in ents && x != root
    ensures Keys(ents[x := e], ids, kids, root)
  {
    assert ents[x := e].Keys == ents.Keys;
  }

  lemma {:induction false} RootKey(ents: map<nat, Ent>, ids: seq<nat>, kids: seq<nat>, root: nat)
    requires Keys(ents, ids, kids, root)
    ensures root in ents && ents[root].level == -1
  {
  }

  lemma {:induction false} KeysHead(ents: map<nat, Ent>, ids: seq<nat>, kids: seq<nat>, root: nat, e: Ent)
    requires Keys(ents, ids, kids, root) && ids != []
    ensures ids[0] in ents && Keys(ents[ids[0] := e], ids, kids, root)
  {
    assert ids[0] in Elems(ids);
    KeysSet(ents, ids, kids, root, ids[0], e);
  }

  lemma {:induction false} KeysAdd(ents: map<nat, Ent>, ids: seq<nat>, kids: seq<nat>, root: nat, x: nat, e: Ent)
    requires Keys(ents, ids, kids, root) && x !in ents
    ensures x !in ids && x !in kids && x != root && Keys(ents[x := e], ids, kids + [x], root)
  {
    assert Elems(kids + [x]) == Elems(kids) + {x};
    assert forall y | y in ids :: y in Elems(ids);
    assert forall y | y in kids :: y in Elems(kids);
    assert ents[x := e].Keys == ents.Keys + {x};
  }

  /** Dropping the children built. */
  lemma {:induction false} KeysDrop(ents: map<nat, Ent>, ids: seq<nat>, kids: seq<nat>, root: nat)
    requires Keys(ents, ids, kids, root)
    ensures Keys(ents - Elems(kids), ids, [], root)
    ensures forall x | x in ids :: x in ents && x in ents - Elems(kids)
  {
    assert forall x | x in ids :: x in Elems(ids);
  }

  /** The children built go to the front of the list. */
  lemma {:induction false} KeysJoin(ents: map<nat, Ent>, ids: seq<nat>, kids: seq<nat>, root: nat)
    requires Keys(ents, ids, kids, root) && Distinct(ids) && Distinct(kids)
    ensures Keys(ents, kids + ids, [], root) && Distinct(kids + ids)
  {
    assert Elems(kids + ids) == Elems(kids) + Elems(ids);
    forall i, j | 0 <= i < j < |kids + ids| ensures (kids + ids)[i] != (kids + ids)[j] {
      if i < |kids| <= j {
        assert kids[i] in Elems(kids) && ids[j - |kids|] in Elems(ids);
      }
    }
  }

  /** Freeing the first node of the list. */
  lemma {:induction false} KeysTail(ents: map<nat, Ent>, ids: seq<nat>, root: nat)
    requires Keys(ents, ids, [], root) && Distinct(ids) && ids != []
    ensures ids[0] in ents && ids[0] != root && Keys(ents - {ids[0]}, ids[1..], [], root) && Distinct(ids[1..])
    ensures forall x | x in ids[1..] :: x in ents && x in ents - {ids[0]}
  {
    assert Elems(ids) == {ids[0]} + Elems(ids[1..]);
    assert ids[0] in Elems(ids);
    assert forall x | x in ids[1..] :: x in Elems(ids[1..]) && x != ids[0];
  }

  class FtsStream {
    const fs: FileSystem
    const o: Options
    var ents: map<nat, Ent>     // the nodes that are allocated
    var next: nat               // the address of the next node to be allocated
    var cur: Ptr
    var stop: bool
    var path: seq<char>         // the shared path buffer
    var pathlen: nat            // its size
    ghost var freed: set<nat>
    ghost var root: nat         // the parent of the roots
    ghost var ids: seq<nat>     // the nodes held, in order, and what they look like
    ghost var nodes: seq<Node>
    ghost var blank: bool

    ghost predicate Accounted()
      reads this
    {
      FreedOrLive(freed, ents.Keys, next)
    }

    /** The list of nodes, and beside it the children `kids` being built. */
    ghost predicate ListOk(kids: seq<nat>)
      reads this
    {
      && Accounted() && WellFormed(fs)
      && Linked(ents, ids, nodes, root) && Distinct(ids) && Keys(ents, ids, kids, root)
    }

    ghost function View(): Stream
      reads this
    {
      Stream(nodes, pathlen, stop, blank)
    }

    ghost predicate BufferOk()
      reads this
    {
      nodes != [] && !stop ==>
        && |path| == pathlen
        && (nodes[0].info != INIT ==> if blank then path != [] && path[0] == NUL else Holds(path, nodes[0].path))
    }

    ghost predicate Valid()
      reads this
    {
      && Sound(View()) && BufferOk() && Accounted() && WellFormed(fs)
      && (if cur.Nil? then nodes == [] && ids == [] && ents == map[]
          else ids != [] && cur.id == ids[0] && ListOk([]))
    }

    /** Nothing is open: the stream is new, or has been closed. */
    ghost predicate Unopened()
      reads this
    {
      cur == Nil && path == [] && pathlen == 0 && !stop && !blank
    }

    constructor (fs: FileSystem, o: Options)
      requires WellFormed(fs)
      ensures Valid() && this.fs == fs && this.o == o && Unopened() && ents == map[] && next == 0 && freed == {}
    {
      this.fs, this.o := fs, o;
      ents, next, cur, stop, path, pathlen := map[], 0, Nil, false, [], 0;
      freed, root, ids, nodes, blank := {}, 0, [], [], false;
    }

    /** free(): the node must still be allocated. */
    method Free(p: nat)
      requires Accounted() && p in ents
      modifies this`ents, this`freed
      ensures Accounted() && ents == old(ents) - {p} && freed == old(freed) + {p}
    {
      ents := ents - {p};
      freed := freed + {p};
    }

    method Alloc(name: string, file: File) returns (p: nat)
      requires Accounted()
      modifies this`ents, this`next
      ensures Accounted() && p == old(next) && p !in old(ents)
      ensures ents == old(ents)[p := Ent(Nil, Nil, 0, INIT, NoInstr, false, name, 0, NO_ID, file)]
    {
      p := next;
      ents := ents[p := Ent(Nil, Nil, 0, INIT, NoInstr, false, name, 0, NO_ID, file)];
      next := next + 1;
    }

    /** fts_lfree. */
    method FreeList(list: Ptr, ghost kids: seq<nat>, ghost cs: seq<Node>, ghost parent: nat)
      requires Accounted() && Siblings(ents, kids, cs, parent) && list == (if kids == [] then Nil else To(kids[0]))
      modifies this`ents, this`freed
      ensures Accounted() && ents == old(ents) - Elems(kids)
    {
      hide EntIs;
      var p := list;
      ghost var k := 0;
      while p.To?
        invariant 0 <= k <= |kids| && p == (if k == |kids| then Nil else To(kids[k]))
        invariant Accounted() && ents == old(ents) - Elems(kids[..k])
        decreases |kids| - k
      {
        var head := p.id;
        assert SiblingAt(old(ents), kids, cs, parent, k);
        assert head !in kids[..k] && kids[..k + 1] == kids[..k] + [head];
        p := ents[head].link;
        assert Elems(kids[..k + 1]) == Elems(kids[..k]) + {head};
        Free(head);
        k := k + 1;
      }
      assert kids[..k] == kids;
    }

    /** The cycle check of fts_stat2: is a directory with this identity open on the parent chain? */
    method OnParentChain(parent: nat, id: FileId, ghost k: nat, ghost kids: seq<nat>) returns (found: bool)
      requires ListOk(kids) && Held(nodes, pathlen) && k <= |ids| == |nodes|
      requires To(parent) == PtrAt(ids, root, k) && (k < |nodes| ==> nodes[k].info == D)
      ensures found <==> id in AncestorsFrom(nodes, k)
    {
      hide Held, Linked, Above, FreedOrLive;
      var t := parent;
      ghost var j := k;
      ghost var seen: set<FileId> := {};
      while ents[t].level >= 0
        invariant k <= j <= |ids| && To(t) == PtrAt(ids, root, j) && t in ents
        invariant j < |nodes| ==> nodes[j].info == D
        invariant AncestorsFrom(nodes, k) == seen + AncestorsFrom(nodes, j) && id !in seen
        decreases |ids| - j
      {
        ghost var i := UpFrom(ents, ids, nodes, root, j, pathlen);
        if ents[t].id == id {
          return true;
        }
        seen := seen + {ents[t].id};
        j := i;
        t := ents[t].parent.id;
      }
      if j < |ids| {
        ghost var i := UpFrom(ents, ids, nodes, root, j, pathlen);
      }
      return false;
    }

    /** fts_stat of a node whose parent is at position k of the list. */
    method StatFile(follow: bool, name: string, file: File, parent: nat, ghost k: nat, ghost kids: seq<nat>)
      returns (info: Info, id: FileId)
      requires ListOk(kids) && Held(nodes, pathlen) && k <= |ids| == |nodes|
      requires To(parent) == PtrAt(ids, root, k) && (k < |nodes| ==> nodes[k].info == D)
      ensures info == Stat(o, follow, name, file, AncestorsFrom(nodes, k)) && id == StatId(o, follow, file)
    {
      hide Held, Linked, Above, FreedOrLive;
      var seen := if o.logical || follow then Resolve(file) else file;
      id := NO_ID;
      match seen
      case Absent => info := if file.Link? then SLNONE else NS;
      case Directory(d) =>
        id := d;
        if IsDot(name) {
          info := DOT;
        } else {
          var cycle := OnParentChain(parent, d, k, kids);
          info := if cycle then DC else D;
        }
      case Regular => info := F;
      case Special => info := DEFAULT;
      case Link(_) => info := SL;
    }

    /** Assignments to the fields of the current node. */
    method Change(e: Ent, ghost n: Node, ghost kids: seq<nat>)
      requires ListOk(kids) && ids != [] && cur == To(ids[0]) && |nodes| == |ids| && cur.id in ents
      requires (nodes[0].info == INIT <==> n.info == INIT) && n.level == nodes[0].level && EntIs(e, n)
      requires e.link == ents[cur.id].link && e.parent == ents[cur.id].parent
      modifies this`ents, this`nodes
      ensures ListOk(kids) && ents == old(ents)[cur.id := e] && nodes == [n] + old(nodes)[1..]
    {
      LinkedHead(ents, ids, nodes, root, e, n);
      KeysHead(ents, ids, kids, root, e);
      hide Linked, EntIs, Keys;
      ents := ents[cur.id := e];
      nodes := [n] + nodes[1..];
    }

    /** fts_palloc; realloc is taken to succeed and to keep the contents. */
    method Palloc(more: nat) returns (ok: bool)
      requires |path| <= pathlen
      modifies this`path, this`pathlen
      ensures pathlen == Enlarged(old(pathlen), more) && (ok <==> pathlen < USHRT_MAX)
      ensures ok ==> |path| == pathlen && path[..|old(path)|] == old(path)
    {
      ghost var before := path;
      pathlen := pathlen + more + 256;
      if pathlen >= USHRT_MAX {
        path := [];
        return false;
      }
      path := path + seq(pathlen - |path|, _ => NUL);
      assert path[..|before|] == before;
      return true;
    }

    /** NAPPEND of the directory at position k, whose path the buffer starts with. */
    method Napp(dir: nat, ghost k: nat) returns (n: nat)
      requires k < |ids| == |nodes| && ids[k] == dir && dir in ents && EntIs(ents[dir], nodes[k])
      requires |nodes[k].path| <= |path| && path[..|nodes[k].path|] == nodes[k].path
      ensures n == |Prefix(nodes[k])|
    {
      var p := ents[dir];
      assert p.pathlen == 1 ==> nodes[k].path == [path[0]] by {
        if p.pathlen == 1 { assert path[..1] == [path[0]]; }
      }
      n := if p.level == 0 && p.pathlen == 1 && path[0] == '/' then 0 else p.pathlen;
    }

    /** fts_build gives up: what it has built is freed and the stream is stopped. */
    method GiveUp(list: Ptr, ghost kids: seq<nat>, ghost cs: seq<Node>)
      requires ListOk(kids) && ids != [] && cur == To(ids[0]) && |nodes| == |ids| && cur.id in ents
      requires EntIs(ents[cur.id], nodes[0])
      requires nodes[0].info != INIT && Siblings(ents, kids, cs, ids[0])
      requires list == (if kids == [] then Nil else To(kids[0]))
      modifies this`ents, this`nodes, this`freed, this`stop
      ensures ListOk([]) && stop && nodes == [old(nodes)[0].(info := ERR)] + old(nodes)[1..]
    {
      hide Linked, EntIs, Keys, Siblings, Distinct;
      KeysDrop(ents, ids, kids, root);
      FreeList(list, kids, cs, ids[0]);
      LinkedFrame(old(ents), ents, ids, nodes, root);
      HeadIs(ents, ids, nodes, root);
      InfoSet(ents[cur.id], nodes[0], ERR);
      Change(ents[cur.id].(info := ERR), nodes[0].(info := ERR), []);
      stop := true;
    }

    /** The state in which fts_build works on the directory at the front of the list. */
    ghost predicate Building(len: nat, kids: seq<nat>, cs: seq<Node>)
      reads this
    {
      && ListOk(kids) && ids != [] && |nodes| == |ids| && cur == To(ids[0])
      && cur.id in ents && EntIs(ents[cur.id], nodes[0])
      && nodes[0].info == D && Siblings(ents, kids, cs, ids[0])
      && !stop && Held(nodes, pathlen) && |path| == pathlen < USHRT_MAX
      && len == |Prefix(nodes[0])| + 1 <= pathlen && path[..len] == Prefix(nodes[0]) + "/"
      && (kids != [] ==> len < pathlen)
    }

    /** The room for one name after `len` characters of the buffer, which are kept. */
    method EnsureRoom(name: string, len: nat) returns (ok: bool)
      requires len <= |path| == pathlen < USHRT_MAX
      modifies this`path, this`pathlen
      ensures pathlen == if |name| >= old(pathlen) - len then Enlarged(old(pathlen), |name| + len + 1) else old(pathlen)
      ensures ok <==> !((pathlen != old(pathlen) && pathlen >= USHRT_MAX) || len + |name| >= USHRT_MAX)
      ensures ok ==> len + |name| < |path| == pathlen < USHRT_MAX && path[..len] == old(path[..len])
    {
      ok := true;
      ghost var before := path;
      if |name| >= pathlen - len {
        ok := Palloc(|name| + len + 1);
        assert ok ==> path[..len] == path[..|before|][..len] == before[..len];
      }
      if len + |name| >= USHRT_MAX {
        ok := false;
      }
    }

    /** One turn of the loop of fts_build: a node for an entry, at the end of the list of children. */
    method AddEntry(e: Entry, len: nat, level: int, list: Ptr, tail: Ptr, ghost kids: seq<nat>, ghost cs: seq<Node>)
      returns (ok: bool, list': Ptr, tail': Ptr, ghost p: nat)
      requires Building(len, kids, cs) && IsName(e.name) && level == nodes[0].level + 1
      requires list == (if kids == [] then Nil else To(kids[0]))
      requires tail == (if kids == [] then Nil else To(kids[|kids| - 1]))
      modifies this`ents, this`next, this`path, this`pathlen, this`nodes, this`freed, this`stop
      ensures pathlen ==
                if |e.name| >= old(pathlen) - len then Enlarged(old(pathlen), |e.name| + len + 1) else old(pathlen)
      ensures ok <==> !((pathlen != old(pathlen) && pathlen >= USHRT_MAX) || len + |e.name| >= USHRT_MAX)
      ensures ok ==> && nodes == old(nodes) && !stop
                     && Building(len, kids + [p], cs + [Child(o, nodes[0], Above(nodes[0].level + 1, nodes), e)])
                     && list' == To((kids + [p])[0]) && tail' == To(p)
      ensures !ok ==> stop && ListOk([]) && nodes == [old(nodes)[0].(info := ERR)] + old(nodes)[1..]
    {
      hide Held, Linked, EntIs, Siblings, Keys, Distinct, FreedOrLive, WellFormed, Above, Child, Put, Prefix;
      var q := Alloc(e.name, e.file);
      p := q;
      ok := EnsureRoom(e.name, len);
      if !ok {
        Free(q);
        assert ents == old(ents);
        GiveUp(list, kids, cs);
        return ok, list, tail, p;
      }
      HeldGrows(nodes, old(pathlen), pathlen);
      Allocated(old(ents), ids, nodes, root, kids, cs, q, ents[q]);
      FillEntry(q, e, len, level, tail, kids, cs);
      return ok, if list.Nil? then To(q) else list, To(q), p;
    }

    /** The fields of the new node q, and the link to it from the last child. */
    method FillEntry(q: nat, e: Entry, len: nat, level: int, tail: Ptr, ghost kids: seq<nat>, ghost cs: seq<Node>)
      requires ListOk(kids + [q]) && q !in kids && q !in ids && ids != [] && Siblings(ents, kids, cs, ids[0])
      requires |nodes| == |ids| && cur == To(ids[0]) && cur.id in ents && EntIs(ents[cur.id], nodes[0])
      requires nodes[0].info == D && !stop && Held(nodes, pathlen) && |path| == pathlen < USHRT_MAX
      requires len == |Prefix(nodes[0])| + 1 && path[..len] == Prefix(nodes[0]) + "/"
      requires IsName(e.name) && level == nodes[0].level + 1 && len + |e.name| < pathlen
      requires tail == (if kids == [] then Nil else To(kids[|kids| - 1]))
      modifies this`ents, this`path
      ensures Building(len, kids + [q], cs + [Child(o, nodes[0], Above(nodes[0].level + 1, nodes), e)])
    {
      hide Held, Linked, EntIs, Siblings, Keys, Distinct, FreedOrLive, WellFormed, Above, Child, Stat, StatId, Put,
           Prefix;
      path := Put(path, len, e.name + [NUL]);
      var info, id := StatFile(false, e.name, e.file, cur.id, 0, kids + [q]);
      AboveFirst(nodes);
      NodeFacts(nodes, pathlen);
      var ent := Ent(Nil, cur, Int16(level), info, NoInstr, info == NS,
                     e.name, (len + |e.name|) % 0x1_0000, id, e.file);
      ChildEnt(o, nodes[0], pathlen, Above(nodes[0].level + 1, nodes), e, ent);
      EntryAdded(ents, ids, nodes, root, kids, cs, q, ent, Child(o, nodes[0], Above(nodes[0].level + 1, nodes), e));
      ents := ents[q := ent];
      if tail.To? {
        ents := ents[tail.id := ents[tail.id].(link := To(q))];
      }
    }

    /** The loop of fts_build over the entries of the directory. */
    method ReadEntries(listing: seq<Entry>, len: nat, level: int)
      returns (ok: bool, list: Ptr, ghost kids: seq<nat>, ghost cs: seq<Node>)
      requires Building(len, [], []) && !stop && nodes != [] && level == nodes[0].level + 1
      requires forall i | 0 <= i < |listing| :: IsName(listing[i].name)
      modifies this`ents, this`next, this`path, this`pathlen, this`nodes, this`freed, this`stop
      ensures Built(ok, pathlen) == MakeRoom(Visible(o, listing), len, old(pathlen))
      ensures ok ==> && Building(len, kids, cs) && |kids| == |cs| && !stop && nodes == old(nodes)
                     && list == (if kids == [] then Nil else To(kids[0]))
                     && cs == Children(o, nodes[0], Above(nodes[0].level + 1, nodes), Visible(o, listing))
      ensures !ok ==> stop && ListOk([]) && nodes == [old(nodes)[0].(info := ERR)] + old(nodes)[1..]
    {
      hide Building, ListOk, Above, Child, Prefix, MakeRoom, Visible, Children, IsDot, IsName, Reading;
      var tail := Nil;
      ok, list, kids, cs := true, Nil, [], [];
      ghost var above := Above(nodes[0].level + 1, nodes);
      ReadingStarts(o, nodes[0], above, listing, len, pathlen);
      for i := 0 to |listing|
        invariant Building(len, kids, cs) && |kids| == |cs| && !stop && nodes == old(nodes)
        invariant list == (if kids == [] then Nil else To(kids[0]))
        invariant tail == (if kids == [] then Nil else To(kids[|kids| - 1]))
        invariant Reading(o, nodes[0], above, listing, i, cs, len, pathlen, old(pathlen))
      {
        ReadingGoesOn(o, nodes[0], above, listing, i, cs, len, pathlen, old(pathlen));
        if !o.seeDot && IsDot(listing[i].name) {
          continue;
        }
        ghost var p;
        ok, list, tail, p := AddEntry(listing[i], len, level, list, tail, kids, cs);
        if !ok {
          return ok, Nil, [], [];
        }
        kids, cs := kids + [p], cs + [Child(o, nodes[0], above, listing[i])];
      }
      ReadingEnds(o, nodes[0], above, listing, cs, len, pathlen, old(pathlen));
    }

    /**
     fts_build(BREAD): the children of the current directory, or none if it cannot be read, lists
     nothing, or has a name that is too long.
     */
    method Build() returns (list: Ptr, ghost kids: seq<nat>, ghost cs: seq<Node>)
      requires Valid() && cur.To? && !stop && nodes[0].info == D && nodes[0].instr == NoInstr
      modifies this`ents, this`next, this`path, this`pathlen, this`nodes, this`freed, this`stop, this`blank
      ensures list.Nil? ==>
                && Valid() && (View(), !stop) == Descend(fs, o, old(View())) && cur == old(cur)
                && nodes != [] && nodes[0].info != INIT
      ensures list.To? ==> && nodes == old(nodes) && !blank && !stop && cs != [] && kids != [] && list == To(kids[0])
                           && Building(|Prefix(nodes[0])| + 1, kids, cs) && AreChildren(cs, nodes[0])
                           && (Stream(cs + nodes, pathlen, false, false), true) == Descend(fs, o, old(View()))
    {
      hide Held, Linked, EntIs, Siblings, Keys, Distinct, FreedOrLive, WellFormed, Above, Child, Prefix, MakeRoom,
           Visible, Building, Children, Descend, Holds, AreChildren;
      list, kids, cs := Nil, [], [];
      HeadIs(ents, ids, nodes, root);
      DescendCases(fs, o, View());
      DescendKeepsSound(fs, o, View());
      EmptyRoom(|Prefix(nodes[0])| + 1, pathlen);
      SameId(ents[cur.id], nodes[0]);
      var dir := Resolve(ents[cur.id].file);
      if !dir.Directory? || dir.id !in fs {
        DnrEnt(ents[cur.id], nodes[0]);
        Change(ents[cur.id].(info := DNR, errno := true), nodes[0].(info := DNR, errno := true), []);
        return;
      }
      var listing := fs[dir.id];
      ListingNames(fs, dir.id);
      LevelFits(nodes, pathlen);
      var level := ents[cur.id].level;
      var len := StartBuild();
      if level < MAX_LEVEL {
        level := level + 1;
      }
      var ok;
      ok, list, kids, cs := ReadEntries(listing, len, level);
      if !ok {
        return Nil, [], [];
      }
      ChildrenStems(o, nodes[0], Above(nodes[0].level + 1, nodes), Visible(o, listing));
      EndBuild(len, list, kids, cs);
    }

    /** The path is terminated again after the last child. */
    method EndBuild(len: nat, list: Ptr, ghost kids: seq<nat>, ghost cs: seq<Node>)
      requires Building(len, kids, cs) && list == (if kids == [] then Nil else To(kids[0]))
      modifies this`path, this`ents, this`nodes, this`blank
      ensures list.To? ==> Building(len, kids, cs) && nodes == old(nodes) && !blank
      ensures list.Nil? ==> && ListOk([]) && nodes == [old(nodes)[0].(info := DP)] + old(nodes)[1..]
                            && blank == (Prefix(old(nodes)[0]) == "" && old(nodes)[0].path != "") && |path| == pathlen
                            && (if blank then path != [] && path[0] == NUL else Holds(path, nodes[0].path))
    {
      hide Held, Linked, EntIs, Siblings, Keys, Distinct, FreedOrLive, WellFormed, Above, Prefix;
      ghost var before := path;
      var cp := if len == pathlen || list.Nil? then len - 1 else len;
      path := path[cp := NUL];
      if list.Nil? {
        assert path[..len - 1] == before[..len][..len - 1] == Prefix(nodes[0]);
        EndEmpty(path, nodes[0]);
        InfoSet(ents[cur.id], nodes[0], DP);
        blank := Prefix(nodes[0]) == "" && nodes[0].path != "";
        assert kids == [];
        Change(ents[cur.id].(info := DP), nodes[0].(info := DP), []);
      } else {
        assert path[..len] == before[..len];
        blank := false;
      }
    }

    /** The separator after the path of the current directory. */
    method StartBuild() returns (len: nat)
      requires Valid() && cur.To? && !stop && nodes[0].info == D
      modifies this`path
      ensures Building(len, [], []) && len == |Prefix(nodes[0])| + 1
    {
      hide Held, Linked, EntIs, Keys, FreedOrLive, WellFormed, Above, Prefix;
      HeadIs(ents, ids, nodes, root);
      SlashRoom(nodes, pathlen);
      len := Napp(cur.id, 0);
      ghost var before := path;
      assert before[..len] == before[..|nodes[0].path|][..len] == Prefix(nodes[0]);
      path := Put(path, len, "/");
      assert path[..len + 1] == path[..len] + path[len..len + 1];
      len := len + 1;
    }

    /** The node p is left: it is freed, and the list starts at the next one. */
    method FreeHead(p: nat)
      requires ListOk([]) && ids != [] && p == ids[0]
      modifies this`ents, this`freed, this`ids, this`nodes
      ensures ListOk([]) && ids == old(ids)[1..] && nodes == old(nodes)[1..]
      ensures ents == old(ents) - {p} && forall x | x in ids :: x in old(ents) && x in ents
    {
      hide Linked, EntIs, Keys, FreedOrLive, WellFormed;
      HeadIs(ents, ids, nodes, root);
      KeysTail(ents, ids, root);
      LinkedFrame(ents, ents - {p}, ids[1..], nodes[1..], root);
      Free(p);
      ids, nodes := ids[1..], nodes[1..];
    }

    /** The name of the first node, after the path of its directory. */
    method WriteName(p: nat)
      requires ListOk([]) && ids != [] && p == ids[0] && |nodes| == |ids| && Held(nodes, pathlen) && |path| == pathlen
      requires nodes[0].level > 0 && nodes[0].info != INIT && |Stem(nodes[0])| < |path|
      requires path[..|Stem(nodes[0])| + 1] == Stem(nodes[0]) + "/"
      modifies this`path
      ensures |path| == pathlen && Holds(path, nodes[0].path)
    {
      hide Held, Linked, Keys, FreedOrLive, WellFormed, Above, Stem;
      ghost var j := UpFrom(ents, ids, nodes, root, 0, pathlen);
      LinkedSuffix(ents, ids, nodes, root, j);
      HeadIs(ents, ids[j..], nodes[j..], root);
      HeadIs(ents, ids, nodes, root);
      PathParts(nodes, pathlen);
      ParentInBuffer(path, nodes[j]);
      var t := Napp(ents[p].parent.id, j);
      NameWritten(path, Stem(nodes[0]), nodes[0].name);
      path := Put(path, t, "/");
      path := Put(path, t + 1, ents[p].name + [NUL]);
    }

    /** fts_load: the path of the next root. */
    method Load(p: nat)
      requires ListOk([]) && ids != [] && p == ids[0] && cur == To(p) && |nodes| == |ids|
      requires Held(nodes, pathlen) && |path| == pathlen
      requires nodes[0].level == 0 && nodes[0].info != INIT && nodes[0].name == nodes[0].path
      modifies this`ents, this`path, this`nodes
      ensures ListOk([]) && |path| == pathlen
      ensures nodes == [old(nodes)[0].(name := BaseName(old(nodes)[0].path))] + old(nodes)[1..]
      ensures Holds(path, nodes[0].path)
    {
      hide Held, Linked, Keys, FreedOrLive, WellFormed, Above, Distinct, EntIs, Put, LastSlash, BaseName, Holds;
      HeadIs(ents, ids, nodes, root);
      SlashRoom(nodes, pathlen);
      LoadEnt(ents[p], nodes[0]);
      var e := ents[p];
      var len := |e.name|;
      Loaded(path, e.name);
      path := Put(path, 0, e.name + [NUL]);
      BaseNameIs(e.name);
      var cp := LastSlash(e.name);
      var name := if cp >= 0 && (cp != 0 || len > 1) then e.name[cp + 1..] else e.name;
      Change(e.(pathlen := len, name := name), nodes[0].(name := BaseName(nodes[0].path)), []);
    }

    /** The list with a current node whose path, as far as its directory, is in the buffer. */
    ghost predicate Leaving(q: nat)
      reads this
    {
      && ListOk([]) && ids != [] && q == ids[0] && |nodes| == |ids| && Held(nodes, pathlen)
      && !stop && |path| == pathlen < USHRT_MAX
      && (blank ==> nodes[0].level == 0 && nodes[0].info == DP)
      && (nodes[0].level > 0 ==> |Stem(nodes[0])| < |path| && path[..|Stem(nodes[0])| + 1] == Stem(nodes[0]) + "/")
    }

    /** Siblings that are to be skipped are freed on the way. */
    method SkipSiblings(p: nat, ghost named: File) returns (q: nat)
      requires Leaving(p)
      modifies this`ents, this`freed, this`ids, this`nodes
      ensures Leaving(q) && Advance(o, View(), named) == Advance(o, old(View()), named)
      ensures nodes[0].level == old(nodes)[0].level
      ensures |nodes| > 1 && nodes[1].level == nodes[0].level != 0 ==> nodes[1].instr != Skip
    {
      hide Held, Linked, Keys, FreedOrLive, WellFormed, Above, Stem, Distinct, Followed, BaseName;
      q := p;
      HeadIs(ents, ids, nodes, root);
      while ents[q].link.To? && ents[ents[q].link.id].level != 0 && ents[ents[q].link.id].instr == Skip
        invariant Leaving(q) && Advance(o, View(), named) == Advance(o, old(View()), named)
        invariant nodes[0].level == old(nodes)[0].level
        invariant q in ents
        invariant ents[q].link == (if |ids| > 1 && nodes[1].level == nodes[0].level then To(ids[1]) else Nil)
        invariant |ids| > 1 ==> ids[1] in ents && EntIs(ents[ids[1]], nodes[1])
        decreases |ids|
      {
        var tmp := q;
        q := ents[q].link.id;
        LevelOf(nodes, pathlen);
        HeldSuffix(nodes, pathlen, 1);
        FreeHead(tmp);
        HeadIs(ents, ids, nodes, root);
      }
    }

    /** The next root. */
    method NextRoot(q: nat, ghost named: File)
      requires Leaving(q) && |nodes| > 1 && nodes[0].level == nodes[1].level == 0
      modifies this
      ensures Valid() && (View(), cur.To?) == Advance(o, old(View()), named)
      ensures cur.To? && nodes != [] && nodes[0].info != INIT
    {
      hide Held, Linked, EntIs, Keys, FreedOrLive, WellFormed, Above, Stem, Distinct, Advance, BaseName, Holds;
      HeadIs(ents, ids, nodes, root);
      AdvanceCases(o, View(), named);
      AdvanceKeepsSound(o, View(), named);
      RootBehind(ents, ids, nodes, root, pathlen);
      HeldSuffix(nodes, pathlen, 1);
      var p := ents[q].link.id;
      FreeHead(q);
      cur := To(p);
      Load(p);
      blank := false;
    }

    /** The next node of the same directory.  The buffer still shows the node that was returned last. */
    method NextSibling(q: nat, named: File, ghost shown: Node)
      requires Leaving(q) && |nodes| > 1 && nodes[0].level == nodes[1].level > 0 && nodes[1].instr != Skip
      requires Holds(path, shown.path) && named == shown.file
      modifies this
      ensures Valid() && (View(), cur.To?) == Advance(o, old(View()), named)
      ensures cur.To? && nodes != [] && nodes[0].info != INIT
    {
      hide Held, Linked, Keys, FreedOrLive, WellFormed, Above, Stem, Distinct, Advance, Followed, Holds;
      HeadIs(ents, ids, nodes, root);
      AdvanceCases(o, View(), named);
      AdvanceKeepsSound(o, View(), named);
      LevelOf(nodes, pathlen);
      SiblingBehind(nodes, pathlen);
      HeldSuffix(nodes, pathlen, 1);
      var p := ents[q].link.id;
      FreeHead(q);
      HeadIs(ents, ids, nodes, root);
      cur := To(p);
      assert old(nodes)[1..][1..] == old(nodes)[2..] && nodes == [nodes[0]] + old(nodes)[2..];
      if ents[p].instr == Follow {
        FollowCurrent(named, shown);
      }
      WriteName(p);
    }

    /** fts_stat of the current node by the path in the buffer, which is that of `shown`, following a link. */
    method FollowCurrent(named: File, ghost shown: Node)
      requires ListOk([]) && ids != [] && cur == To(ids[0]) && |nodes| == |ids| && Held(nodes, pathlen)
      requires nodes[0].info != INIT
      requires nodes[0].errno ==> nodes[0].file == Absent
      requires Holds(path, shown.path) && named == shown.file
      modifies this`ents, this`nodes
      ensures ListOk([])
      ensures nodes == [Followed(o, old(nodes)[0], named, Above(old(nodes)[0].level, old(nodes)[1..]))]
                    + old(nodes)[1..]
      ensures Held(nodes, pathlen) && Stem(nodes[0]) == Stem(old(nodes)[0])
      ensures nodes[0].level == old(nodes)[0].level && nodes[0].info != INIT && nodes[0].path == old(nodes)[0].path
    {
      hide Held, Linked, Keys, FreedOrLive, WellFormed, Above, Stem, Distinct, Stat, NodeOk;
      HeadIs(ents, ids, nodes, root);
      ghost var k := UpFrom(ents, ids, nodes, root, 0, pathlen);
      ghost var n := Followed(o, nodes[0], named, Above(nodes[0].level, nodes[1..]));
      NodeFacts(nodes, pathlen);
      FollowedOk(o, nodes[0], named, Above(nodes[0].level, nodes[1..]), pathlen);
      HeldHead(nodes, n, pathlen);
      var p := ents[cur.id];
      var info, id := StatFile(true, p.name, named, p.parent.id, k, []);
      FollowedInfo(o, nodes[0], named, Above(nodes[0].level, nodes[1..]));
      Change(p.(instr := NoInstr, info := info, id := if Resolve(named).Directory? then id else p.id,
                errno := p.errno || info == NS), n, []);
    }

    /** Back to the directory above. */
    method GoUp(q: nat, p: nat, ghost named: File)
      requires Leaving(q) && |nodes| > 1 && nodes[1].level < nodes[0].level && p == ids[1]
      modifies this
      ensures Valid() && (View(), cur.To?) == Advance(o, old(View()), named)
      ensures cur.To? && nodes != [] && nodes[0].info != INIT
    {
      hide Held, Linked, Keys, FreedOrLive, WellFormed, Above, Stem, Distinct, Advance, EntIs, Holds, BaseName,
           Followed, Prefix;
      AdvanceKeepsSound(o, View(), named);
      AdvanceUp(o, View(), named);
      Last(nodes, pathlen);
      UpPath(path, nodes, pathlen);
      FreeHead(q);
      HeadIs(ents, ids, nodes, root);
      SameLength(ents[p], nodes[0]);
      path := path[ents[p].pathlen := NUL];
      cur := To(p);
      var info := if ents[p].errno then ERR else DP;
      InfoSet(ents[p], nodes[0], info);
      Change(ents[p].(info := info), nodes[0].(info := info), []);
    }

    /** The last root is left: the walk is over. */
    method Finish(q: nat, p: nat, ghost named: File)
      requires Leaving(q) && |nodes| == 1 && p == root
      modifies this
      ensures Valid() && (View(), cur.To?) == Advance(o, old(View()), named) && cur == Nil
    {
      hide Held, Linked, FreedOrLive, WellFormed, Above, Stem, Advance;
      AdvanceKeepsSound(o, View(), named);
      AdvanceDone(o, View(), named);
      FreeHead(q);
      Free(p);
      cur := Nil;
      blank := false;
      assert ents.Keys == {};
      assert ents == map[];
    }

    /** The part of fts_read from the label `next` on. */
    method Next()
      requires Valid() && cur.To? && !stop && nodes[0].info != D
      modifies this
      ensures Valid() && (View(), cur.To?) == Advance(o, old(View()), old(nodes)[0].file)
      ensures (cur.To? ==> nodes != [] && nodes[0].info != INIT) && !stop
    {
      hide Held, Linked, Keys, FreedOrLive, WellFormed, Above, Stem, Distinct, Advance;
      HeadIs(ents, ids, nodes, root);
      ghost var shown := nodes[0];
      var named := ents[cur.id].file;
      AdvanceKeepsSize(o, View(), named);
      ReadyToLeave(path, nodes, pathlen, blank);
      var q := SkipSiblings(cur.id, named);
      HeadIs(ents, ids, nodes, root);
      if ents[q].link.To? {
        LevelOf(nodes, pathlen);
        if ents[ents[q].link.id].level == 0 {
          NextRoot(q, named);
        } else {
          NextSibling(q, named, shown);
        }
      } else {
        Last(nodes, pathlen);
        RootKey(ents, ids, [], root);
        var p := ents[q].parent.id;
        if ents[p].level == -1 {
          Finish(q, p, named);
        } else {
          GoUp(q, p, named);
        }
      }
    }

    /** fts_read: returns the current node, or NULL at the end of the walk or after an unrecoverable error. */
    method Read() returns (p: Ptr)
      requires Valid()
      modifies this
      ensures Valid() && (View(), p.To?) == FtsWalk.Read(fs, o, old(View()))
      ensures p.To? ==> p == cur && nodes != [] && CString(path) == Reported(View()).text
    {
      hide Held, Linked, Keys, FreedOrLive, WellFormed, Above, Stem, Distinct, Advance, Descend, Followed, Holds,
           CString, EntIs, FtsWalk.Read;
      ReadCases(fs, o, View());
      if cur.Nil? || stop {
        return Nil;
      }
      HeadIs(ents, ids, nodes, root);
      SameLength(ents[cur.id], nodes[0]);
      var instr, info := ents[cur.id].instr, ents[cur.id].info;
      ClearInstr();
      if instr == Follow && (info == SL || info == SLNONE) {
        FollowLink();
      } else if info == D {
        ReadDirectory(instr);
        if stop {
          return Nil;
        }
      } else {
        Next();
      }
      p := cur;
      if p.To? {
        TextShown(path, View());
      }
    }

    method FollowLink()
      requires Valid() && cur.To? && !stop && nodes[0].instr == NoInstr
      requires (nodes[0].info == SL || nodes[0].info == SLNONE)
      modifies this`ents, this`nodes
      ensures Valid() && cur.To? && nodes != [] && nodes[0].info != INIT
      ensures nodes == [Followed(o, old(nodes)[0], old(nodes)[0].file, Above(old(nodes)[0].level, old(nodes)[1..]))]
                    + old(nodes)[1..]
    {
      hide Held, Linked, Keys, FreedOrLive, WellFormed, Above, Stem, Distinct, Followed, Holds, EntIs;
      HeadIs(ents, ids, nodes, root);
      NotAbsent(nodes, pathlen);
      SameId(ents[cur.id], nodes[0]);
      FollowCurrent(ents[cur.id].file, nodes[0]);
    }

    /** A directory in pre-order: it is skipped, or its children are read. */
    method ReadDirectory(instr: Instr)
      requires Valid() && cur.To? && !stop && nodes[0].instr == NoInstr && nodes[0].info == D
      modifies this
      ensures Valid() && cur.To? && nodes != [] && (!stop ==> nodes[0].info != INIT)
      ensures (View(), !stop) ==
                if instr == Skip then (old(View()).(nodes := [old(nodes)[0].(info := DP)] + old(nodes)[1..]), true)
                else Descend(fs, o, old(View()))
    {
      hide Held, Linked, Keys, FreedOrLive, WellFormed, Above, Stem, Distinct, Descend, Holds, Building, AreChildren,
           EntIs, NodeOk;
      HeadIs(ents, ids, nodes, root);
      DescendKeepsSound(fs, o, View());
      if instr == Skip {
        InfoSet(ents[cur.id], nodes[0], DP);
        HeadFacts(nodes, pathlen);
        DpOk(nodes[0], pathlen);
        HeldHead(nodes, nodes[0].(info := DP), pathlen);
        Change(ents[cur.id].(info := DP), nodes[0].(info := DP), []);
      } else {
        ghost var kids, cs;
        var list;
        list, kids, cs := Build();
        if list.To? {
          Enter(list.id, kids, cs);
        }
      }
    }

    /** The instruction of the current node is used up. */
    method ClearInstr()
      requires Valid() && cur.To? && !stop
      modifies this`ents, this`nodes
      ensures Valid() && nodes == [old(nodes)[0].(instr := NoInstr)] + old(nodes)[1..]
    {
      hide Linked, Keys, FreedOrLive, WellFormed, Above, Stem, Distinct, Held, NodeOk;
      HeadIs(ents, ids, nodes, root);
      HeldHeadInstr(View());
      Change(ents[cur.id].(instr := NoInstr), nodes[0].(instr := NoInstr), []);
    }

    /** The children of the current directory become the front of the list, and the first of them the current node. */
    method Enter(p: nat, ghost kids: seq<nat>, ghost cs: seq<Node>)
      requires nodes != [] && Building(|Prefix(nodes[0])| + 1, kids, cs) && kids != [] && p == kids[0]
      requires AreChildren(cs, nodes[0])
      requires Sound(Stream(cs + nodes, pathlen, false, false)) && !blank
      modifies this`ids, this`nodes, this`cur, this`path
      ensures Valid() && nodes == cs + old(nodes) && ids != [] && nodes[0].info != INIT && cur.To?
    {
      hide Linked, Keys, FreedOrLive, WellFormed, Above, Stem, Distinct, Held, EntIs;
      NodeFacts(nodes, pathlen);
      LinkChildren(ents, kids, cs, ids, nodes, root);
      KeysJoin(ents, ids, kids, root);
      ids, nodes := kids + ids, cs + nodes;
      WriteName(p);
      cur := To(p);
    }

    /** fts_set, on the node at position i of the list. */
    method Set(p: nat, instr: Instr, ghost i: nat)
      requires Valid() && i < |ids| && ids[i] == p
      modifies this`ents, this`nodes
      ensures Valid() && View() == Do(fs, o, old(View()), SetInstr(i, instr))
    {
      hide Held, Linked, Keys, FreedOrLive, WellFormed, Above, Stem, Distinct, EntIs, NodeOk;
      InList(ents, ids, nodes, root, i);
      assert ents[p := ents[p].(instr := instr)].Keys == ents.Keys;
      DoKeepsSound(fs, o, View(), SetInstr(i, instr));
      InstrSet(ents, ids, nodes, root, i, instr);
      KeysInstr(ents, ids, root, i, ents[p].(instr := instr));
      ents := ents[p := ents[p].(instr := instr)];
      nodes := nodes[i := nodes[i].(instr := instr)];
    }

    /** fts_close: every node that was ever allocated has now been freed, and none of them twice. */
    method Close()
      requires Valid()
      modifies this
      ensures Valid() && Unopened() && ents == map[] && forall x: nat :: x in freed <==> x < next
    {
      hide Held, Linked, Above, Stem, EntIs, WellFormed, Keys, FreedOrLive, Distinct;
      if cur.To? {
        var p: nat := cur.id;
        LevelAt(ents, ids, nodes, root, pathlen);
        while ents[p].level >= 0
          invariant ListOk([]) && Held(nodes, pathlen) && |ids| == |nodes| && To(p) == PtrAt(ids, root, 0) && p in ents
          invariant ents[p].level >= 0 <==> ids != []
          decreases |ids|
        {
          var freep := p;
          NextPtr(ents, ids, nodes, root, pathlen);
          p := if ents[p].link.To? then ents[p].link.id else ents[p].parent.id;
          HeldSuffix(nodes, pathlen, 1);
          FreeHead(freep);
          LevelAt(ents, ids, nodes, root, pathlen);
        }
        AllFreed(ents, root);
        Free(p);
        assert ents == map[];
      }
      Freed(freed, ents.Keys, next);
      path, pathlen, cur, stop, blank := [], 0, Nil, false, false;
      ids, nodes := [], [];
      HeldNone(pathlen);
    }

    /** fts_maxarglen. */
    method MaxArgLen(args: seq<Arg>) returns (max: nat)
      ensures max == LongestArg(args) + 1
    {
      max := 0;
      for i := |args| downto 0
        invariant max == LongestArg(args[i..])
      {
        assert args[i..][1..] == args[i + 1..];
        if |args[i].path| > max {
          max := |args[i].path|;
        }
      }
      assert args[0..] == args;
      max := max + 1;
    }

    /** The loop of fts_open over its arguments: the roots, linked in order. */
    method MakeRoots(args: seq<Arg>, parent: nat) returns (list: Ptr, ghost kids: seq<nat>)
      requires ListOk([]) && ids == [] && nodes == [] && parent == root
      modifies this`ents, this`next
      ensures ListOk(kids) && Siblings(ents, kids, Roots(o, args), root)
      ensures list == (if kids == [] then Nil else To(kids[0]))
    {
      hide Linked, Keys, FreedOrLive, WellFormed, EntIs, Siblings, Distinct, Roots, Stat, StatId;
      ghost var cs: seq<Node> := [];
      var tail := Nil;
      list, kids := Nil, [];
      assert args[..0] == [];
      NoRoots(o, ents, root);
      for i := 0 to |args|
        invariant ListOk(kids) && Siblings(ents, kids, cs, root) && cs == Roots(o, args[..i]) && |kids| == i
        invariant list == (if kids == [] then Nil else To(kids[0]))
        invariant tail == (if kids == [] then Nil else To(kids[|kids| - 1]))
      {
        ghost var before := ents;
        var q := Alloc(args[i].path, args[i].file);
        RootAllocated(before, root, kids, cs, q, ents[q]);
        var info, id := StatFile(o.comFollow, args[i].path, args[i].file, parent, 0, kids + [q]);
        if info == DOT {
          info := D;
        }
        var e := Ent(Nil, To(parent), 0, info, NoInstr, info == NS, args[i].path, |args[i].path|, id, args[i].file);
        ghost var c := Root(o, args[i].path, args[i].file);
        RootEnt(o, args[i], e);
        RootAdded(ents, root, kids, cs, q, e, c);
        ents := ents[q := e];
        if tail.To? {
          ents := ents[tail.id := ents[tail.id].(link := To(q))];
        }
        RootsStep(o, args, i);
        kids, cs := kids + [q], cs + [c];
        list, tail := if list.Nil? then To(q) else list, To(q);
      }
      assert args[..|args|] == args;
    }

    /** fts_open with FTS_NOCHDIR and no comparison function, on a new stream and at least one argument. */
    method Open(args: seq<Arg>) returns (ok: bool)
      requires Valid() && Unopened() && args != [] && AreStrings(args)
      modifies this
      ensures ok <==> FirstSize(args) < USHRT_MAX
      ensures ok ==> Valid() && View() == Opened(o, args)
      ensures !ok ==> ents == map[] && next == old(next) && freed == old(freed)
    {
      hide Linked, Keys, FreedOrLive, WellFormed, EntIs, Distinct, Roots, Held, LongestArg;
      var max := MaxArgLen(args);
      ok := Palloc(if max > PATH_MAX then max else PATH_MAX);
      if ok {
        OpenedSound(o, args);
        MakeList(args);
      }
    }

    /** The parent of the roots, the roots, and the dummy node that the first read will leave. */
    method MakeList(args: seq<Arg>)
      requires Accounted() && WellFormed(fs) && ents == map[] && ids == [] && nodes == [] && args != []
      modifies this`ents, this`next, this`root, this`ids, this`nodes, this`cur
      ensures ListOk([]) && ids != [] && cur == To(ids[0]) && nodes == [DUMMY] + Roots(o, args)
    {
      hide Linked, Keys, FreedOrLive, WellFormed, EntIs, Siblings, Distinct, Roots;
      var parent := Alloc("", Absent);
      assert ents.Keys == {parent} && ents[parent := ents[parent].(level := -1)].Keys == ents.Keys;
      ents := ents[parent := ents[parent].(level := -1)];
      root := parent;
      OnlyRoot(ents, root);
      ghost var kids;
      var list;
      list, kids := MakeRoots(args, parent);
      KidCount(ents, kids, Roots(o, args), root);
      ghost var before := ents;
      var dummy := Alloc("", Absent);
      assert ents[dummy := ents[dummy].(link := list)].Keys == ents.Keys;
      ents := ents[dummy := ents[dummy].(link := list)];
      DummyLinked(o, before, ents, root, kids, args, dummy);
      cur := To(dummy);
      ids, nodes := [dummy] + kids, [DUMMY] + Roots(o, args);
    }
  }

  /** The four ways in which reading a directory can end. */
  lemma {:induction false} DescendCases(fs: FileSystem, o: Options, s: Stream)
    requires s.nodes != [] && !s.stop
    ensures var (n, rest) := (s.nodes[0], s.nodes[1..]);
            && (!Readable(fs, n) ==> Descend(fs, o, s) == (s.(nodes := [n.(info := DNR, errno := true)] + rest), true))
            && (Readable(fs, n) ==>
                  var entries := Visible(o, fs[Resolve(n.file).id]);
                  var room := MakeRoom(entries, |Prefix(n)| + 1, s.size);
                  Descend(fs, o, s) ==
                    if !room.ok then (Stream([n.(info := ERR)] + rest, room.size, true, s.blank), false)
                    else if entries == [] then
                      (Stream([n.(info := DP)] + rest, s.size, false, Prefix(n) == "" && n.path != ""), true)
                    else (Stream(Children(o, n, Above(n.level + 1, s.nodes), entries) + s.nodes,
                                 room.size, false, false), true))
  {
    hide MakeRoom, Visible, Prefix, Above, Children;
  }

  lemma {:induction false} EmptyRoom(len: nat, size: nat)
    ensures MakeRoom([], len, size) == Built(true, size)
  {
  }

  lemma {:induction false} SameId(e: Ent, n: Node)
    requires EntIs(e, n)
    ensures e.file == n.file && e.level == n.level && e.info == n.info
  {
  }

  lemma {:induction false} ListingNames(fs: FileSystem, id: FileId)
    requires WellFormed(fs) && id in fs
    ensures forall i | 0 <= i < |fs[id]| :: IsName(fs[id][i].name)
  {
  }

  lemma {:induction false} LevelFits(nodes: seq<Node>, size: nat)
    requires nodes != [] && Held(nodes, size)
    ensures nodes[0].level < MAX_LEVEL
  {
  }

  /** An empty directory: the separator is replaced by the terminator. */
  lemma {:induction false} EndEmpty(buf: seq<char>, n: Node)
    requires |Prefix(n)| < |buf| && buf[..|Prefix(n)|] == Prefix(n) && buf[|Prefix(n)|] == NUL
    ensures if Prefix(n) == "" && n.path != "" then buf != [] && buf[0] == NUL else Holds(buf, n.path)
  {
  }

  /** Where fts_build stands after i entries: the children made, and the room made for their names. */
  predicate Reading(o: Options, dir: Node, above: set<FileId>, listing: seq<Entry>, i: nat, cs: seq<Node>, len: nat,
                    size: nat, first: nat)
    requires i <= |listing|
  {
    && cs + Children(o, dir, above, Visible(o, listing[i..])) == Children(o, dir, above, Visible(o, listing))
    && MakeRoom(Visible(o, listing[i..]), len, size) == MakeRoom(Visible(o, listing), len, first)
  }

  lemma {:induction false} ReadingStarts(o: Options, dir: Node, above: set<FileId>, listing: seq<Entry>, len: nat,
                                         size: nat)
    ensures Reading(o, dir, above, listing, 0, [], len, size, size)
  {
    assert listing[0..] == listing;
  }

  /** One entry more, or one that is not shown. */
  lemma {:induction false} ReadingGoesOn(o: Options, dir: Node, above: set<FileId>, listing: seq<Entry>, i: nat,
                                         cs: seq<Node>, len: nat, size: nat, first: nat)
    requires i < |listing| && Reading(o, dir, above, listing, i, cs, len, size, first)
    ensures var e := listing[i];
            var size1 := if |e.name| >= size - len then Enlarged(size, |e.name| + len + 1) else size;
            if !o.seeDot && IsDot(e.name) then Reading(o, dir, above, listing, i + 1, cs, len, size, first)
            else if (size1 != size && size1 >= USHRT_MAX) || len + |e.name| >= USHRT_MAX then
              MakeRoom(Visible(o, listing), len, first) == Built(false, size1)
            else Reading(o, dir, above, listing, i + 1, cs + [Child(o, dir, above, e)], len, size1, first)
  {
    hide Child, IsDot, Visible, Children, MakeRoom;
    NextVisible(o, dir, above, listing, i, len, size);
    var (c, later) := (Child(o, dir, above, listing[i]), Visible(o, listing[i + 1..]));
    assert cs + ([c] + Children(o, dir, above, later)) == (cs + [c]) + Children(o, dir, above, later);
  }

  lemma {:induction false} NextVisible(o: Options, dir: Node, above: set<FileId>, listing: seq<Entry>, i: nat,
                                       len: nat, size: nat)
    requires i < |listing|
    ensures var (e, now, later) := (listing[i], Visible(o, listing[i..]), Visible(o, listing[i + 1..]));
            if !o.seeDot && IsDot(e.name) then now == later
            else
              && Children(o, dir, above, now) == [Child(o, dir, above, e)] + Children(o, dir, above, later)
              && (var size1 := if |e.name| >= size - len then Enlarged(size, |e.name| + len + 1) else size;
                  MakeRoom(now, len, size) ==
                    if (size1 != size && size1 >= USHRT_MAX) || len + |e.name| >= USHRT_MAX then Built(false, size1)
                    else MakeRoom(later, len, size1))
  {
    hide Child;
    var (e, later) := (listing[i], Visible(o, listing[i + 1..]));
    assert listing[i..][1..] == listing[i + 1..];
    if !(!o.seeDot && IsDot(e.name)) {
      assert ([e] + later)[1..] == later;
    }
  }

  lemma {:induction false} ReadingEnds(o: Options, dir: Node, above: set<FileId>, listing: seq<Entry>, cs: seq<Node>,
                                       len: nat, size: nat, first: nat)
    requires Reading(o, dir, above, listing, |listing|, cs, len, size, first)
    ensures cs == Children(o, dir, above, Visible(o, listing))
    ensures MakeRoom(Visible(o, listing), len, first) == Built(true, size)
  {
    assert listing[|listing|..] == [];
  }

  lemma {:induction false} DnrEnt(e: Ent, n: Node)
    requires EntIs(e, n)
    ensures EntIs(e.(info := DNR, errno := true), n.(info := DNR, errno := true))
  {
  }

  lemma {:induction false} SlashRoom(nodes: seq<Node>, size: nat)
    requires nodes != [] && Held(nodes, size)
    ensures |Prefix(nodes[0])| <= |nodes[0].path| < size && Prefix(nodes[0]) <= nodes[0].path
  {
  }

  lemma {:induction false} AboveFirst(nodes: seq<Node>)
    requires nodes != []
    ensures Above(nodes[0].level + 1, nodes) == AncestorsFrom(nodes, 0)
  {
  }

  /** A node just allocated is not in the list. */
  lemma {:induction false} Allocated(ents: map<nat, Ent>, ids: seq<nat>, nodes: seq<Node>, root: nat, kids: seq<nat>,
                                     cs: seq<Node>, p: nat, e: Ent)
    requires Linked(ents, ids, nodes, root) && Keys(ents, ids, kids, root) && p !in ents && ids != []
    requires Siblings(ents, kids, cs, ids[0])
    ensures Linked(ents[p := e], ids, nodes, root) && Keys(ents[p := e], ids, kids + [p], root) && p !in ids
    ensures p !in kids
    ensures Siblings(ents[p := e], kids, cs, ids[0])
  {
    hide Linked, EntIs;
    KeysAdd(ents, ids, kids, root, p, e);
    LinkedIn(ents, ids, nodes, root);
    LinkedFrame(ents, ents[p := e], ids, nodes, root);
    var ents1 := ents[p := e];
    forall i: nat | i < |kids| ensures SiblingAt(ents1, kids, cs, ids[0], i) {
      assert SiblingAt(ents, kids, cs, ids[0], i);
    }
  }

  /** The fields of a new child; its depth fits 16 bits because its path does. */
  lemma {:induction false} ChildEnt(o: Options, dir: Node, size: nat, above: set<FileId>, e: Entry, ent: Ent)
    requires NodeOk(dir, size) && IsName(e.name) && |Prefix(dir)| + 1 + |e.name| < USHRT_MAX
    requires ent.level == Int16(dir.level + 1) && ent.pathlen == (|Prefix(dir)| + 1 + |e.name|) % 0x1_0000
    requires ent.info == Stat(o, false, e.name, e.file, above) && ent.id == StatId(o, false, e.file)
    requires ent.instr == NoInstr && ent.errno == (ent.info == NS) && ent.name == e.name && ent.file == e.file
    ensures EntIs(ent, Child(o, dir, above, e))
  {
    hide Stat, StatId;
    assert 2 * (dir.level + 1) <= |Prefix(dir)| + 1 + |e.name|;
  }

  lemma {:induction false} EntryAdded(ents: map<nat, Ent>, ids: seq<nat>, nodes: seq<Node>, root: nat, kids: seq<nat>,
                                      cs: seq<Node>, p: nat, e: Ent, c: Node)
    requires Linked(ents, ids, nodes, root) && Keys(ents, ids, kids + [p], root) && p !in kids && p !in ids && ids != []
    requires Siblings(ents, kids, cs, ids[0]) && EntIs(e, c) && e.parent == To(ids[0]) && e.link == Nil
    ensures kids != [] ==> kids[|kids| - 1] in ents && kids[|kids| - 1] != p
    ensures var ents1 := ents[p := e];
            var final := if kids == [] then ents1
                         else ents1[kids[|kids| - 1] := ents[kids[|kids| - 1]].(link := To(p))];
            && Linked(final, ids, nodes, root) && Keys(final, ids, kids + [p], root)
            && Siblings(final, kids + [p], cs + [c], ids[0])
            && final.Keys == ents.Keys && ids[0] in final && ids[0] in ents && final[ids[0]] == ents[ids[0]]
  {
    hide EntIs, Linked;
    assert p in Elems(kids + [p]);
    KeysSet(ents, ids, kids + [p], root, p, e);
    LinkedIn(ents, ids, nodes, root);
    var ents1 := ents[p := e];
    LinkedFrame(ents, ents1, ids, nodes, root);
    if kids != [] {
      var t := kids[|kids| - 1];
      assert SiblingAt(ents, kids, cs, ids[0], |kids| - 1);
      assert t in Elems(kids + [p]);
      assert forall x | x in ids :: x in Elems(ids);
      KeysSet(ents1, ids, kids + [p], root, t, ents[t].(link := To(p)));
      LinkedFrame(ents1, ents1[t := ents[t].(link := To(p))], ids, nodes, root);
    }
    SiblingsGrow(ents, kids, cs, ids[0], p, e, c);
  }

  lemma {:induction false} InfoSet(e: Ent, n: Node, info: Info)
    requires EntIs(e, n)
    ensures EntIs(e.(info := info), n.(info := info))
  {
  }

  lemma {:induction false} HeadIs(ents: map<nat, Ent>, ids: seq<nat>, nodes: seq<Node>, root: nat)
    requires Linked(ents, ids, nodes, root) && ids != []
    ensures |ids| == |nodes| && ids[0] in ents && EntIs(ents[ids[0]], nodes[0])
    ensures ents[ids[0]].link == (if |ids| > 1 && nodes[1].level == nodes[0].level then To(ids[1]) else Nil)
    ensures nodes[0].info != INIT ==> ents[ids[0]].parent == Parent(ids[1..], nodes[0].level, nodes[1..], root)
    ensures Linked(ents, ids[1..], nodes[1..], root)
    ensures |ids| > 1 ==> ids[1] in ents && EntIs(ents[ids[1]], nodes[1])
    ensures nodes[0].info == INIT ==> |ids| > 1 && nodes[1].level == nodes[0].level == 0
  {
  }

  lemma {:induction false} LinkedHead(ents: map<nat, Ent>, ids: seq<nat>, nodes: seq<Node>, root: nat, e: Ent, n: Node)
    requires Linked(ents, ids, nodes, root) && ids != [] && Distinct(ids) && |nodes| == |ids|
    requires (nodes[0].info == INIT <==> n.info == INIT) && n.level == nodes[0].level && EntIs(e, n)
    requires ids[0] in ents && e.link == ents[ids[0]].link && e.parent == ents[ids[0]].parent
    ensures Linked(ents[ids[0] := e], ids, [n] + nodes[1..], root)
  {
    hide EntIs, Parent;
    var ents' := ents[ids[0] := e];
    LinkedIn(ents, ids[1..], nodes[1..], root);
    LinkedFrame(ents, ents', ids[1..], nodes[1..], root);
    assert ([n] + nodes[1..])[1..] == nodes[1..];
  }

  lemma {:induction false} PathParts(nodes: seq<Node>, size: nat)
    requires nodes != [] && Held(nodes, size) && nodes[0].level > 0
    ensures nodes[0].path == Stem(nodes[0]) + "/" + nodes[0].name && |nodes[0].path| < size
  {
  }

  /** A buffer that starts with a directory's prefix and a slash starts with its path. */
  lemma {:induction false} ParentInBuffer(buf: seq<char>, dir: Node)
    requires |Prefix(dir)| < |buf| && buf[..|Prefix(dir)| + 1] == Prefix(dir) + "/"
    ensures |dir.path| <= |buf| && buf[..|dir.path|] == dir.path
    ensures buf[..|Prefix(dir)|] == Prefix(dir)
  {
    assert buf[..|Prefix(dir)|] == buf[..|Prefix(dir)| + 1][..|Prefix(dir)|];
  }

  lemma {:induction false} AdvanceCases(o: Options, s: Stream, named: File)
    requires |s.nodes| > 1
    ensures var (n, p, rest) := (s.nodes[0], s.nodes[1], s.nodes[2..]);
            if p.level < n.level then
              Advance(o, s, named) == (s.(nodes := [p.(info := if p.errno then ERR else DP)] + rest), true)
            else if p.level == 0 then
              Advance(o, s, named) == (s.(nodes := [p.(name := BaseName(p.path))] + rest, blank := false), true)
            else if p.instr == Follow then
              Advance(o, s, named) == (s.(nodes := [Followed(o, p, named, Above(p.level, rest))] + rest), true)
            else p.instr == Skip || Advance(o, s, named) == (s.(nodes := [p] + rest), true)
  {
    hide Above, Followed, BaseName;
    assert s.nodes[1..][1..] == s.nodes[2..];
    assert s.nodes[1..] == [s.nodes[1]] + s.nodes[2..];
  }

  lemma {:induction false} AdvanceUp(o: Options, s: Stream, named: File)
    requires |s.nodes| > 1 && s.nodes[1].level < s.nodes[0].level
    ensures var p := s.nodes[1..][0];
            Advance(o, s, named) == (s.(nodes := [p.(info := if p.errno then ERR else DP)] + s.nodes[1..][1..]), true)
  {
  }

  /** A root that has not been loaded. */
  lemma {:induction false} RootBehind(ents: map<nat, Ent>, ids: seq<nat>, nodes: seq<Node>, root: nat, size: nat)
    requires Linked(ents, ids, nodes, root) && Held(nodes, size) && |nodes| > 1 && nodes[0].level == nodes[1].level == 0
    ensures nodes[1].name == nodes[1].path && nodes[1].info != INIT
  {
    assert Adjoin(nodes[0], nodes[1]);
  }

  lemma {:induction false} SiblingBehind(nodes: seq<Node>, size: nat)
    requires Held(nodes, size) && |nodes| > 1 && nodes[0].level == nodes[1].level
    ensures nodes[1].info != INIT && (nodes[1].errno ==> nodes[1].file == Absent)
  {
    assert Adjoin(nodes[0], nodes[1]);
    HeadFacts(nodes[1..], size);
  }

  lemma {:induction false} FollowedInfo(o: Options, n: Node, named: File, above: set<FileId>)
    ensures Followed(o, n, named, above).info == Stat(o, true, n.name, named, above) != INIT
    ensures Followed(o, n, named, above).level == n.level && Followed(o, n, named, above).path == n.path
  {
  }

  lemma {:induction false} AdvanceDone(o: Options, s: Stream, named: File)
    requires |s.nodes| == 1
    ensures Advance(o, s, named) == (s.(nodes := [], blank := false), false)
  {
  }

  /** The buffer still starts with the path of the directory above. */
  lemma {:induction false} UpPath(buf: seq<char>, nodes: seq<Node>, size: nat)
    requires |nodes| > 1 && Held(nodes, size) && nodes[1].level < nodes[0].level && |buf| == size
    requires |Stem(nodes[0])| < |buf| && buf[..|Stem(nodes[0])| + 1] == Stem(nodes[0]) + "/"
    ensures nodes[1].info == D && nodes[1].level >= 0 && !nodes[1].errno
    ensures |nodes[1].path| < |buf| && Holds(buf[|nodes[1].path| := NUL], nodes[1].path)
  {
    assert Adjoin(nodes[0], nodes[1]);
    HeadFacts(nodes[1..], size);
    SlashRoom(nodes[1..], size);
    ParentInBuffer(buf, nodes[1]);
    assert buf[|nodes[1].path| := NUL][..|nodes[1].path|] == buf[..|nodes[1].path|];
  }

  lemma {:induction false} SameLength(e: Ent, n: Node)
    requires EntIs(e, n)
    ensures e.pathlen == |n.path| && e.errno == n.errno && e.level == n.level && e.info == n.info && e.instr == n.instr
  {
  }

  /** A node whose path is in the buffer can be left. */
  lemma {:induction false} ReadyToLeave(buf: seq<char>, nodes: seq<Node>, size: nat, blank: bool)
    requires nodes != [] && Held(nodes, size) && |buf| == size && (blank ==> nodes[0].level == 0)
    requires nodes[0].info != INIT && !blank ==> Holds(buf, nodes[0].path)
    requires nodes[0].info == INIT ==> nodes[0].level == 0
    ensures nodes[0].level > 0 ==> |Stem(nodes[0])| < |buf| && buf[..|Stem(nodes[0])| + 1] == Stem(nodes[0]) + "/"
  {
    if nodes[0].level > 0 {
      PathParts(nodes, size);
      assert buf[..|Stem(nodes[0])| + 1] == buf[..|nodes[0].path|][..|Stem(nodes[0])| + 1];
    }
  }

  /** A node that is last in its directory is followed by that directory, or by nothing. */
  lemma {:induction false} Last(nodes: seq<Node>, size: nat)
    requires nodes != [] && Held(nodes, size) && (|nodes| > 1 ==> nodes[1].level != nodes[0].level)
    ensures |nodes| > 1 ==> nodes[1].level == nodes[0].level - 1 >= 0
  {
    if |nodes| > 1 {
      assert Adjoin(nodes[0], nodes[1]);
      HeadFacts(nodes[1..], size);
    }
  }

  /** Nodes of one directory. */
  predicate AreChildren(cs: seq<Node>, dir: Node) {
    forall i | 0 <= i < |cs| :: cs[i].level == dir.level + 1 && cs[i].info != INIT && Stem(cs[i]) == Prefix(dir)
  }

  lemma {:induction false} ChildrenStems(o: Options, dir: Node, above: set<FileId>, entries: seq<Entry>)
    ensures AreChildren(Children(o, dir, above, entries), dir)
  {
    hide Prefix;
    forall i | 0 <= i < |entries| ensures Stem(Child(o, dir, above, entries[i])) == Prefix(dir) {
      var c := Child(o, dir, above, entries[i]);
      assert c.path[..|Prefix(dir)|] == Prefix(dir) && |c.path| == |Prefix(dir)| + 1 + |c.name|;
    }
  }

  lemma {:induction false} NotAbsent(nodes: seq<Node>, size: nat)
    requires nodes != [] && Held(nodes, size) && (nodes[0].info == SL || nodes[0].info == SLNONE)
    ensures nodes[0].errno ==> nodes[0].file == Absent
  {
  }

  lemma {:induction false} TextShown(buf: seq<char>, s: Stream)
    requires Sound(s) && !s.stop && s.nodes != []
    requires if s.blank then buf != [] && buf[0] == NUL else Holds(buf, s.nodes[0].path)
    ensures CString(buf) == Reported(s).text
  {
    if !s.blank {
      NodeFacts(s.nodes, s.size);
      HoldsCString(buf, s.nodes[0].path);
    }
  }

  lemma {:induction false} Loaded(buf: seq<char>, text: string)
    requires |text| < |buf|
    ensures Holds(Put(buf, 0, text + [NUL]), text)
  {
    hide Put;
    var r := Put(buf, 0, text + [NUL]);
    assert r[0..|text| + 1] == text + [NUL];
    assert r[..|text|] == r[0..|text| + 1][..|text|] && r[|text|] == r[0..|text| + 1][|text|];
  }

  lemma {:induction false} BaseNameIs(path: string)
    ensures BaseName(path) ==
              var cp := LastSlash(path); if cp >= 0 && (cp != 0 || |path| > 1) then path[cp + 1..] else path
  {
    hide LastSlash;
  }

  lemma {:induction false} LoadEnt(e: Ent, n: Node)
    requires EntIs(e, n) && n.name == n.path
    ensures e.name == n.path && EntIs(e.(pathlen := |e.name|, name := BaseName(n.path)), n.(name := BaseName(n.path)))
  {
    hide BaseName;
  }

  lemma {:induction false} ReadCases(fs: FileSystem, o: Options, s: Stream)
    ensures if s.nodes == [] || s.stop then FtsWalk.Read(fs, o, s) == (s, false)
            else
              var (n, rest) := (s.nodes[0], s.nodes[1..]);
              var p := n.(instr := NoInstr);
              var s1 := s.(nodes := [p] + rest);
              FtsWalk.Read(fs, o, s) ==
                if n.instr == Follow && (n.info == SL || n.info == SLNONE) then
                  (s.(nodes := [Followed(o, p, p.file, Above(p.level, rest))] + rest), true)
                else if n.info == D then
                  if n.instr == Skip then (s.(nodes := [p.(info := DP)] + rest), true) else Descend(fs, o, s1)
                else Advance(o, s1, p.file)
  {
    hide Above, Followed, Descend, Advance;
  }

  /** The node at the front of the list has a depth; behind the last one comes the parent of the roots. */
  lemma {:induction false} LevelAt(ents: map<nat, Ent>, ids: seq<nat>, nodes: seq<Node>, root: nat, size: nat)
    requires Linked(ents, ids, nodes, root) && Held(nodes, size) && Keys(ents, ids, [], root)
    ensures |ids| == |nodes|
    ensures var p := PtrAt(ids, root, 0).id;
            p in ents && (ents[p].level >= 0 <==> ids != [])
  {
    hide Parent;
    if ids != [] {
      HeadIs(ents, ids, nodes, root);
      NodeFacts(nodes, size);
    }
  }

  /** The link, or at the end of a directory the parent, leads to the next node of the list. */
  lemma {:induction false} NextPtr(ents: map<nat, Ent>, ids: seq<nat>, nodes: seq<Node>, root: nat, size: nat)
    requires Linked(ents, ids, nodes, root) && Held(nodes, size) && ids != []
    ensures |ids| == |nodes| && ids[0] in ents
    ensures var e := ents[ids[0]];
            (if e.link.To? then e.link else e.parent) == PtrAt(ids[1..], root, 0)
  {
    hide EntIs, NodeOk, Stem;
    HeadIs(ents, ids, nodes, root);
    if |nodes| > 1 {
      assert Adjoin(nodes[0], nodes[1]);
    }
  }

  lemma {:induction false} AllFreed(ents: map<nat, Ent>, root: nat)
    requires Keys(ents, [], [], root)
    ensures root in ents && ents.Keys - {root} == {}
  {
  }

  lemma {:induction false} Freed(freed: set<nat>, live: set<nat>, next: nat)
    requires FreedOrLive(freed, live, next) && live == {}
    ensures forall x: nat :: x in freed <==> x < next
  {
  }

  lemma {:induction false} ListLength(ents: map<nat, Ent>, ids: seq<nat>, nodes: seq<Node>, root: nat)
    requires Linked(ents, ids, nodes, root)
    ensures |ids| == |nodes|
  {
  }

  lemma {:induction false} InList(ents: map<nat, Ent>, ids: seq<nat>, nodes: seq<Node>, root: nat, i: nat)
    requires Linked(ents, ids, nodes, root) && i < |ids|
    ensures |ids| == |nodes| && ids[i] in ents && EntIs(ents[ids[i]], nodes[i])
    decreases ids
  {
    hide EntIs, Parent;
    if i > 0 {
      InList(ents, ids[1..], nodes[1..], root, i - 1);
    }
  }

  /** Setting an instruction leaves the list linked as it was. */
  lemma {:induction false} InstrSet(ents: map<nat, Ent>, ids: seq<nat>, nodes: seq<Node>, root: nat, i: nat,
                                    instr: Instr)
    requires Linked(ents, ids, nodes, root) && Distinct(ids) && i < |ids| == |nodes| && ids[i] in ents
    ensures Linked(ents[ids[i] := ents[ids[i]].(instr := instr)], ids, nodes[i := nodes[i].(instr := instr)], root)
    decreases ids
  {
    hide EntIs;
    var (e, n) := (ents[ids[i]].(instr := instr), nodes[i].(instr := instr));
    var (ents', nodes') := (ents[ids[i] := e], nodes[i := n]);
    InList(ents, ids, nodes, root, i);
    InstrEnt(ents[ids[i]], nodes[i], instr);
    if i == 0 {
      LinkedIn(ents, ids[1..], nodes[1..], root);
      LinkedFrame(ents, ents', ids[1..], nodes[1..], root);
      assert nodes'[1..] == nodes[1..];
    } else {
      assert nodes'[1..] == nodes[1..][i - 1 := n] && ids[1..][i - 1] == ids[i] && nodes[1..][i - 1] == nodes[i];
      InstrSet(ents, ids[1..], nodes[1..], root, i - 1, instr);
      ParentSame(ids[1..], nodes[0].level, nodes[1..], root, i - 1, instr);
    }
  }

  lemma {:induction false} InstrEnt(e: Ent, n: Node, instr: Instr)
    requires EntIs(e, n)
    ensures EntIs(e.(instr := instr), n.(instr := instr))
  {
  }

  lemma {:induction false} ParentSame(ids: seq<nat>, level: int, rest: seq<Node>, root: nat, i: nat, instr: Instr)
    requires |ids| == |rest| && i < |rest|
    ensures Parent(ids, level, rest[i := rest[i].(instr := instr)], root) == Parent(ids, level, rest, root)
    decreases ids
  {
    var rest' := rest[i := rest[i].(instr := instr)];
    if i == 0 {
      assert rest'[1..] == rest[1..];
    } else {
      assert rest'[1..] == rest[1..][i - 1 := rest[1..][i - 1].(instr := instr)];
      ParentSame(ids[1..], rest[0].level, rest[1..], root, i - 1, instr);
    }
  }

  lemma {:induction false} KeysInstr(ents: map<nat, Ent>, ids: seq<nat>, root: nat, i: nat, e: Ent)
    requires Keys(ents, ids, [], root) && i < |ids|
    ensures ids[i] in ents && Keys(ents[ids[i] := e], ids, [], root)
  {
    assert ids[i] in Elems(ids);
    KeysSet(ents, ids, [], root, ids[i], e);
  }

  // ----- opening -----

  lemma {:induction false} OnlyRoot(ents: map<nat, Ent>, root: nat)
    requires root in ents && ents[root].level == -1 && ents.Keys == {root}
    ensures Keys(ents, [], [], root) && Linked(ents, [], [], root) && Distinct([])
  {
  }

  lemma {:induction false} NoRoots(o: Options, ents: map<nat, Ent>, root: nat)
    ensures Siblings(ents, [], [], root) && Roots(o, []) == []
  {
  }

  lemma {:induction false} RootAllocated(ents: map<nat, Ent>, root: nat, kids: seq<nat>, cs: seq<Node>, p: nat, e: Ent)
    requires Keys(ents, [], kids, root) && p !in ents && Siblings(ents, kids, cs, root)
    ensures Keys(ents[p := e], [], kids + [p], root) && p !in kids && Siblings(ents[p := e], kids, cs, root)
    ensures Linked(ents[p := e], [], [], root)
  {
    hide EntIs;
    KeysAdd(ents, [], kids, root, p, e);
    var ents1 := ents[p := e];
    forall i: nat | i < |kids| ensures SiblingAt(ents1, kids, cs, root, i) {
      assert SiblingAt(ents, kids, cs, root, i);
    }
  }

  lemma {:induction false} RootEnt(o: Options, a: Arg, e: Ent)
    requires e.info == (var i := Stat(o, o.comFollow, a.path, a.file, {}); if i == DOT then D else i)
    requires e.id == StatId(o, o.comFollow, a.file) && e.level == 0 && e.instr == NoInstr && e.errno == (e.info == NS)
    requires e.name == a.path && e.pathlen == |a.path| && e.file == a.file
    ensures EntIs(e, Root(o, a.path, a.file))
  {
    hide Stat, StatId;
  }

  lemma {:induction false} RootAdded(ents: map<nat, Ent>, root: nat, kids: seq<nat>, cs: seq<Node>, p: nat, e: Ent,
                                     c: Node)
    requires Keys(ents, [], kids + [p], root) && p !in kids
    requires Siblings(ents, kids, cs, root) && EntIs(e, c) && e.parent == To(root) && e.link == Nil
    ensures kids != [] ==> kids[|kids| - 1] in ents && kids[|kids| - 1] != p
    ensures var ents1 := ents[p := e];
            var final := if kids == [] then ents1
                         else ents1[kids[|kids| - 1] := ents[kids[|kids| - 1]].(link := To(p))];
            && Keys(final, [], kids + [p], root) && Siblings(final, kids + [p], cs + [c], root)
            && final.Keys == ents.Keys && Linked(final, [], [], root)
  {
    hide EntIs;
    assert p in Elems(kids + [p]);
    KeysSet(ents, [], kids + [p], root, p, e);
    if kids != [] {
      var t := kids[|kids| - 1];
      assert SiblingAt(ents, kids, cs, root, |kids| - 1);
      assert t in Elems(kids + [p]);
      KeysSet(ents[p := e], [], kids + [p], root, t, ents[t].(link := To(p)));
    }
    SiblingsGrow(ents, kids, cs, root, p, e, c);
  }

  lemma {:induction false} RootsStep(o: Options, args: seq<Arg>, i: nat)
    requires i < |args|
    ensures Roots(o, args[..i + 1]) == Roots(o, args[..i]) + [Root(o, args[i].path, args[i].file)]
  {
    hide Roots, Root;
  }

  lemma {:induction false} LinkRoots(ents: map<nat, Ent>, kids: seq<nat>, cs: seq<Node>, root: nat)
    requires Siblings(ents, kids, cs, root) && forall i | 0 <= i < |cs| :: cs[i].level == 0 && cs[i].info != INIT
    ensures Linked(ents, kids, cs, root) && Parent(kids, 0, cs, root) == To(root)
    decreases kids
  {
    hide EntIs;
    if kids != [] {
      assert SiblingAt(ents, kids, cs, root, 0);
      SiblingsTail(ents, kids, cs, root);
      LinkRoots(ents, kids[1..], cs[1..], root);
    }
  }

  /** The dummy node in front of the roots. */
  lemma {:induction false} DummyLinked(o: Options, before: map<nat, Ent>, ents: map<nat, Ent>, root: nat,
                                       kids: seq<nat>, args: seq<Arg>, dummy: nat)
    requires args != [] && Keys(before, [], kids, root) && Siblings(before, kids, Roots(o, args), root)
    requires dummy !in before
    requires ents == before[dummy := Ent(To(kids[0]), Nil, 0, INIT, NoInstr, false, "", 0, NO_ID, Absent)]
    ensures var (ids, nodes) := ([dummy] + kids, [DUMMY] + Roots(o, args));
            Linked(ents, ids, nodes, root) && Keys(ents, ids, [], root) && Distinct(ids)
  {
    hide Root;
    var cs := Roots(o, args);
    RootInfos(o, args);
    LinkRoots(before, kids, cs, root);
    KeysAdd(before, [], kids, root, dummy, ents[dummy]);
    LinkedIn(before, kids, cs, root);
    LinkedFrame(before, ents, kids, cs, root);
    var (ids, nodes) := ([dummy] + kids, [DUMMY] + cs);
    assert ids[1..] == kids && nodes[1..] == cs;
    assert Elems(ids) == Elems(kids + [dummy]);
  }

  lemma {:induction false} RootInfos(o: Options, args: seq<Arg>)
    ensures forall i | 0 <= i < |args| :: Roots(o, args)[i].level == 0 && Roots(o, args)[i].info != INIT
  {
  }

  lemma {:induction false} HeldNone(size: nat)
    ensures Held([], size)
  {
  }

  lemma {:induction false} KidCount(ents: map<nat, Ent>, kids: seq<nat>, cs: seq<Node>, parent: nat)
    requires Siblings(ents, kids, cs, parent)
    ensures |kids| == |cs|
  {
  }
}
