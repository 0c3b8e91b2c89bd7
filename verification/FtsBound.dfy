/**
 Every run of the fts machine ends, whatever instructions the application gives.  The identities that
 the walk records for the directories it is inside of are always different, even where FTS_FOLLOW on a
 waiting node has recorded the identity of another file; so no run is deeper than there are directories.
 */
module FtsBound {
  import opened FtsWalk
  import opened FtsRuns
  import opened FtsEnds

  /** A finite graph: every directory that a name leads to, and the most names that a directory lists. */
  datatype Extent = Extent(ids: set<FileId>, width: nat)

  predicate Knows(b: Extent, f: File) {
    Resolve(f).Directory? ==> Resolve(f).id in b.ids
  }

  predicate Covers(b: Extent, fs: FileSystem) {
    forall id | id in fs ::
      |fs[id]| <= b.width && forall i | 0 <= i < |fs[id]| :: Knows(b, fs[id][i].file)
  }

  predicate KnowsNode(b: Extent, n: Node) {
    Knows(b, n.file) && (n.info == D ==> n.id in b.ids)
  }

  predicate KnowsAll(b: Extent, nodes: seq<Node>) {
    forall i | 0 <= i < |nodes| :: KnowsNode(b, nodes[i])
  }

  // ----- the extent of a graph -----

  function Led(entries: seq<Entry>): (r: set<FileId>)
    ensures forall i | 0 <= i < |entries| && Resolve(entries[i].file).Directory? :: Resolve(entries[i].file).id in r
  {
    if entries == [] then {}
    else
      var f := Resolve(entries[0].file);
      (if f.Directory? then {f.id} else {}) + Led(entries[1..])
  }

  function ArgEntries(args: seq<Arg>): (r: seq<Entry>)
    ensures |r| == |args| && forall i | 0 <= i < |args| :: r[i].file == args[i].file
  {
    if args == [] then [] else [Entry(args[0].path, args[0].file)] + ArgEntries(args[1..])
  }

  ghost function ExtentOf(fs: FileSystem): (b: Extent)
    ensures Covers(b, fs)
    decreases |fs|
  {
    if fs == map[] then Extent({}, 0)
    else
      var id :| id in fs;
      var rest := fs - {id};
      assert fs.Keys == rest.Keys + {id};
      var b := ExtentOf(rest);
      Extent(b.ids + Led(fs[id]), if |fs[id]| > b.width then |fs[id]| else b.width)
  }

  /** The extent of a walk: of the graph, and of the files named on the command line. */
  ghost function WalkExtent(fs: FileSystem, args: seq<Arg>): Extent {
    var b := ExtentOf(fs);
    b.(ids := b.ids + Led(ArgEntries(args)))
  }

  lemma {:induction false} WalkIsCovered(fs: FileSystem, o: Options, args: seq<Arg>)
    ensures Covers(WalkExtent(fs, args), fs) && KnowsAll(WalkExtent(fs, args), Opened(o, args).nodes)
  {
    hide Led, ExtentOf, FirstSize, Roots;
    var b := WalkExtent(fs, args);
    forall i | 0 <= i < |args| ensures KnowsNode(b, Roots(o, args)[i]) {
      assert ArgEntries(args)[i].file == args[i].file;
    }
  }

  // ----- the bound -----

  function Many(n: nat, c: nat): nat {
    if n == 0 then 0 else c + Many(n - 1, c)
  }

  lemma {:induction false} MoreIsMore(m: nat, n: nat, c: nat)
    requires m <= n
    ensures Many(m, c) <= Many(n, c)
    decreases n
  {
    if m > 0 {
      MoreIsMore(m - 1, n - 1, c);
    }
  }

  /** The reads that a directory can cause after its first report, where `left` identities are not open above it. */
  function Deep(width: nat, left: nat): nat {
    1 + if left == 0 then 0 else Many(width, 2 + Deep(width, left - 1))
  }

  function Left(b: Extent, above: set<FileId>): nat {
    |b.ids - above|
  }

  /** The same for the current node, whatever it turns out to be. */
  function WideNode(b: Extent, n: Node, above: set<FileId>): nat {
    if n.info == D then Deep(b.width, Left(b, above))
    else if n.info == SL || (n.info == SLNONE && !Dead(n.file)) then 1 + Deep(b.width, Left(b, above))
    else 0
  }

  function WideBehind(b: Extent, level: int, rest: seq<Node>): nat
    decreases rest
  {
    if rest == [] then 0
    else
      (if rest[0].level < level then 1 else 2 + Deep(b.width, Left(b, Above(rest[0].level, rest[1..]))))
      + WideBehind(b, rest[0].level, rest[1..])
  }

  function WideBudget(b: Extent, nodes: seq<Node>): nat {
    if nodes == [] then 0
    else WideNode(b, nodes[0], Above(nodes[0].level, nodes[1..])) + WideBehind(b, nodes[0].level, nodes[1..])
  }

  lemma {:induction false} WideOf(b: Extent, n: Node, rest: seq<Node>)
    ensures WideBudget(b, [n] + rest) == WideNode(b, n, Above(n.level, rest)) + WideBehind(b, n.level, rest)
  {
    hide WideNode, WideBehind, Above;
    assert ([n] + rest)[1..] == rest;
  }

  lemma {:induction false} LeftOne(b: Extent, id: FileId, above: set<FileId>)
    requires id in b.ids && id !in above
    ensures Left(b, above + {id}) == Left(b, above) - 1
  {
    assert b.ids - above == (b.ids - (above + {id})) + {id};
  }

  lemma {:induction false} WideFront(b: Extent, n: Node, above: set<FileId>)
    ensures WideNode(b, n, above) <= 1 + Deep(b.width, Left(b, above))
    ensures n.info == DP || n.info == DNR || n.info == ERR ==> WideNode(b, n, above) == 0
  {
    hide Deep;
  }

  lemma {:induction false} FollowedKnown(b: Extent, o: Options, p: Node, named: File, above: set<FileId>)
    requires KnowsNode(b, p) && Knows(b, named)
    ensures KnowsNode(b, Followed(o, p, named, above)) && Followed(o, p, named, above).level == p.level
  {
  }

  lemma {:induction false} SameKnown(b: Extent, p: Node, name: string, instr: Instr, errno: bool)
    requires KnowsNode(b, p)
    ensures KnowsNode(b, p.(name := name)) && KnowsNode(b, p.(instr := instr))
    ensures forall info | info != D :: KnowsNode(b, p.(info := info)) && KnowsNode(b, p.(info := info, errno := errno))
  {
  }

  lemma {:induction false} AdvanceSpendsWide(b: Extent, o: Options, s: Stream, named: File)
    requires s.nodes != [] && KnowsAll(b, s.nodes) && Knows(b, named)
    ensures var (s', got) := Advance(o, s, named);
            && (got ==> WideBudget(b, s'.nodes) < WideBehind(b, s.nodes[0].level, s.nodes[1..]))
            && KnowsAll(b, s'.nodes)
    decreases |s.nodes|
  {
    hide WideNode, WideBudget, Deep, Left, Above, Followed, KnowsNode, BaseName, Knows;
    var rest := s.nodes[1..];
    if rest != [] {
      var p := rest[0];
      var above := Above(p.level, rest[1..]);
      SameKnown(b, p, BaseName(p.path), NoInstr, p.errno);
      if p.level >= s.nodes[0].level && p.level != 0 && p.instr == Skip {
        AdvanceSpendsWide(b, o, s.(nodes := rest), named);
      } else {
        FollowedKnown(b, o, p, named, above);
        var n := Advance(o, s, named).0.nodes[0];
        assert Advance(o, s, named).0.nodes == [n] + rest[1..];
        WideOf(b, n, rest[1..]);
        WideFront(b, n, above);
      }
    }
  }

  lemma {:induction false} ChildKnown(b: Extent, o: Options, dir: Node, above: set<FileId>, e: Entry)
    requires Knows(b, e.file)
    ensures KnowsNode(b, Child(o, dir, above, e)) && Child(o, dir, above, e).level == dir.level + 1
  {
  }

  lemma {:induction false} VisibleCovered(b: Extent, o: Options, entries: seq<Entry>)
    requires forall i | 0 <= i < |entries| :: Knows(b, entries[i].file)
    ensures |Visible(o, entries)| <= |entries|
    ensures forall i | 0 <= i < |Visible(o, entries)| :: Knows(b, Visible(o, entries)[i].file)
    decreases entries
  {
    hide Knows;
    if entries != [] {
      VisibleCovered(b, o, entries[1..]);
    }
  }

  lemma {:induction false} ChildrenWide(b: Extent, o: Options, nodes: seq<Node>, above: set<FileId>,
                                        entries: seq<Entry>)
    requires nodes != [] && above == Above(nodes[0].level + 1, nodes)
    requires forall i | 0 <= i < |entries| :: Knows(b, entries[i].file)
    ensures var cs := Children(o, nodes[0], above, entries);
            && WideBehind(b, nodes[0].level + 1, cs + nodes)
               == Many(|cs|, 2 + Deep(b.width, Left(b, above))) + 1 + WideBehind(b, nodes[0].level, nodes[1..])
            && Above(nodes[0].level + 1, cs + nodes) == above
            && KnowsAll(b, cs)
    decreases entries
  {
    hide Deep, Left, Child, Knows, KnowsNode;
    var cs := Children(o, nodes[0], above, entries);
    if entries == [] {
      assert cs + nodes == nodes;
    } else {
      var rest := Children(o, nodes[0], above, entries[1..]);
      assert cs == [cs[0]] + rest && (cs + nodes)[1..] == rest + nodes;
      ChildKnown(b, o, nodes[0], above, entries[0]);
      ChildrenWide(b, o, nodes, above, entries[1..]);
    }
  }

  lemma {:induction false} FrontWide(b: Extent, nodes: seq<Node>)
    requires nodes != []
    ensures WideBudget(b, nodes) < WideBehind(b, nodes[0].level, nodes)
  {
    hide WideNode, Deep, Left;
    WideFront(b, nodes[0], Above(nodes[0].level, nodes[1..]));
  }

  /** Going into a directory opens its identity, so that its children have one fewer left. */
  lemma {:induction false} EnterWide(b: Extent, o: Options, nodes: seq<Node>, above: set<FileId>, entries: seq<Entry>)
    requires nodes != [] && nodes[0].info == D && KnowsAll(b, nodes)
    requires above == Above(nodes[0].level, nodes[1..]) && nodes[0].id !in above
    requires Above(nodes[0].level + 1, nodes) == above + {nodes[0].id}
    requires 0 < |entries| <= b.width && forall i | 0 <= i < |entries| :: Knows(b, entries[i].file)
    ensures var r := Children(o, nodes[0], above + {nodes[0].id}, entries) + nodes;
            WideBudget(b, r) < WideBudget(b, nodes) && KnowsAll(b, r)
  {
    hide WideNode, WideBudget, WideBehind, Deep, Left, Above, Children, KnowsNode, Knows, Many;
    var n := nodes[0];
    var inner := above + {n.id};
    var r := Children(o, n, inner, entries) + nodes;
    Split(nodes);
    WideOf(b, n, nodes[1..]);
    DirWide(b, n, above);
    ChildrenWide(b, o, nodes, inner, entries);
    ChildOwn(o, n, inner, entries[0]);
    FrontWide(b, r);
    MoreIsMore(|entries|, b.width, 2 + Deep(b.width, Left(b, inner)));
  }

  lemma {:induction false} LeaveWide(b: Extent, n: Node, m: Node, rest: seq<Node>)
    requires n.info == D && n.level == m.level && (m.info == DP || m.info == DNR)
    ensures WideBudget(b, [m] + rest) < WideBudget(b, [n] + rest)
  {
    hide WideBudget, WideBehind, Left, Above;
    WideOf(b, n, rest);
    WideOf(b, m, rest);
  }

  lemma {:induction false} DescendSpendsWide(b: Extent, fs: FileSystem, o: Options, s: Stream)
    requires Sound(s) && !s.stop && s.nodes != [] && s.nodes[0].info == D
    requires Covers(b, fs) && KnowsAll(b, s.nodes)
    ensures var (s', got) := Descend(fs, o, s);
            && (got ==> WideBudget(b, s'.nodes) < WideBudget(b, s.nodes))
            && KnowsAll(b, s'.nodes)
  {
    NotAbove(s);
    hide Sound, WideBudget, Above, Children, MakeRoom, Prefix, Contents, KnowsAll, Knows, Covers;
    var n := s.nodes[0];
    var rest := s.nodes[1..];
    var (s', got) := Descend(fs, o, s);
    Split(s.nodes);
    LeaveWide(b, n, n.(info := DP), rest);
    LeaveWide(b, n, n.(info := DNR, errno := true), rest);
    LeftKnown(b, s.nodes);
    if Readable(fs, n) {
      ContentsCovered(b, fs, o, n);
      if Contents(fs, o, n) != [] {
        EnterWide(b, o, s.nodes, Above(n.level, rest), Contents(fs, o, n));
      }
    }
  }

  lemma {:induction false} LeftKnown(b: Extent, nodes: seq<Node>)
    requires nodes != [] && KnowsAll(b, nodes)
    ensures var (n, rest) := (nodes[0], nodes[1..]);
            && KnowsAll(b, [n.(info := DP)] + rest) && KnowsAll(b, [n.(info := ERR)] + rest)
            && KnowsAll(b, [n.(info := DNR, errno := true)] + rest)
  {
    hide KnowsNode;
    SameKnown(b, nodes[0], nodes[0].name, NoInstr, true);
  }

  lemma {:induction false} ContentsCovered(b: Extent, fs: FileSystem, o: Options, n: Node)
    requires Covers(b, fs) && Readable(fs, n)
    ensures |Contents(fs, o, n)| <= b.width
    ensures forall i | 0 <= i < |Contents(fs, o, n)| :: Knows(b, Contents(fs, o, n)[i].file)
  {
    hide Knows, Visible;
    VisibleCovered(b, o, fs[Resolve(n.file).id]);
  }

  lemma {:induction false} DirWide(b: Extent, n: Node, above: set<FileId>)
    requires n.info == D && KnowsNode(b, n) && n.id !in above
    ensures WideNode(b, n, above) == 1 + Many(b.width, 2 + Deep(b.width, Left(b, above + {n.id})))
  {
    hide Left;
    LeftOne(b, n.id, above);
  }

  lemma {:induction false} FollowedWide(b: Extent, o: Options, p: Node, above: set<FileId>)
    requires p.info == SL || p.info == SLNONE
    ensures var n := Followed(o, p, p.file, above);
            && n.level == p.level
            && (p.info == SLNONE && Dead(p.file) ==> WideNode(b, n, above) <= WideNode(b, p, above))
            && (!(p.info == SLNONE && Dead(p.file)) ==> WideNode(b, n, above) < WideNode(b, p, above))
  {
    hide Deep, Left;
  }

  /** Every read that returns a node uses up some of the bound, unless it follows a dead link again. */
  lemma {:induction false} ReadSpendsWide(b: Extent, fs: FileSystem, o: Options, s: Stream)
    requires Sound(s) && Covers(b, fs) && KnowsAll(b, s.nodes)
    ensures var (s', got) := Read(fs, o, s);
            && (got && !Stalls(s) ==> WideBudget(b, s'.nodes) < WideBudget(b, s.nodes))
            && (Stalls(s) ==> WideBudget(b, s'.nodes) <= WideBudget(b, s.nodes))
            && (!got ==> s'.nodes == [] || s'.stop)
            && KnowsAll(b, s'.nodes)
  {
    hide WideNode, WideBudget, WideBehind, Above, Held, Descend, Advance, Followed, KnowsNode, Covers, Dead;
    if s.nodes != [] && !s.stop {
      var p := s.nodes[0].(instr := NoInstr);
      var rest := s.nodes[1..];
      var above := Above(p.level, rest);
      var s1 := s.(nodes := [p] + rest);
      SameKnown(b, s.nodes[0], p.name, NoInstr, p.errno);
      SameKnown(b, p, p.name, NoInstr, p.errno);
      KnownFile(b, p);
      HeldHeadInstr(s);
      Split(s.nodes);
      WideOf(b, s.nodes[0], rest);
      WideOf(b, p, rest);
      SameWide(b, s.nodes[0], p, above);
      if s.nodes[0].instr == Follow && (p.info == SL || p.info == SLNONE) {
        FollowedWide(b, o, p, above);
        FollowedKnown(b, o, p, p.file, above);
        WideOf(b, Followed(o, p, p.file, above), rest);
      } else if p.info == D {
        if s.nodes[0].instr == Skip {
          WideOf(b, p.(info := DP), rest);
          WideFront(b, p.(info := DP), above);
          NotAbove(s);
          DirWide(b, p, above);
        } else {
          DescendSpendsWide(b, fs, o, s1);
          DescendEnds(fs, o, s1);
        }
      } else {
        AdvanceSpendsWide(b, o, s1, p.file);
        AdvanceEnds(o, s1, p.file);
      }
    }
  }

  lemma {:induction false} KnownFile(b: Extent, n: Node)
    requires KnowsNode(b, n)
    ensures Knows(b, n.file)
  {
  }

  lemma {:induction false} SameWide(b: Extent, n: Node, m: Node, above: set<FileId>)
    requires m == n.(instr := m.instr)
    ensures WideNode(b, m, above) == WideNode(b, n, above)
  {
    hide Deep, Left;
  }

  lemma {:induction false} InstrKeepsWideBehind(b: Extent, nodes: seq<Node>, i: nat, instr: Instr, level: int)
    requires i < |nodes|
    ensures var r := nodes[i := nodes[i].(instr := instr)];
            WideBehind(b, level, r) == WideBehind(b, level, nodes) && Above(level, r) == Above(level, nodes)
    decreases nodes
  {
    hide Deep, Left;
    var r := nodes[i := nodes[i].(instr := instr)];
    if i == 0 {
      assert r[1..] == nodes[1..];
    } else {
      assert r[1..] == nodes[1..][i - 1 := nodes[1..][i - 1].(instr := instr)];
      InstrKeepsWideBehind(b, nodes[1..], i - 1, instr, nodes[0].level);
    }
  }

  lemma {:induction false} InstrKeepsWide(b: Extent, nodes: seq<Node>, i: nat, instr: Instr)
    requires i < |nodes| && KnowsAll(b, nodes)
    ensures var r := nodes[i := nodes[i].(instr := instr)];
            WideBudget(b, r) == WideBudget(b, nodes) && KnowsAll(b, r)
  {
    hide WideNode, WideBehind, Above, KnowsNode;
    var n := nodes[0];
    var r := nodes[i := nodes[i].(instr := instr)];
    SameKnown(b, nodes[i], nodes[i].name, instr, false);
    SameWide(b, n, r[0], Above(n.level, nodes[1..]));
    if i > 0 {
      assert r[1..] == nodes[1..][i - 1 := nodes[1..][i - 1].(instr := instr)];
      InstrKeepsWideBehind(b, nodes[1..], i - 1, instr, n.level);
    } else {
      assert r[1..] == nodes[1..];
    }
  }

  lemma {:induction false} RunsSpendWide(b: Extent, fs: FileSystem, o: Options, s: Stream, actions: seq<Action>)
    requires WellFormed(fs) && Sound(s) && Covers(b, fs) && KnowsAll(b, s.nodes)
    ensures Progress(fs, o, s, actions) <= WideBudget(b, s.nodes)
    decreases actions
  {
    hide Read, Sound, WideBudget, Stalls, Covers, KnowsAll;
    if actions != [] {
      var a := actions[0];
      var s' := Do(fs, o, s, a);
      DoKeepsSound(fs, o, s, a);
      if a.Next? {
        ReadSpendsWide(b, fs, o, s);
        if !Read(fs, o, s).1 {
          NoProgress(fs, o, s', actions[1..]);
        }
      } else if a.i < |s.nodes| {
        InstrKeepsWide(b, s.nodes, a.i, a.instr);
      }
      RunsSpendWide(b, fs, o, s', actions[1..]);
    }
  }

  /**
   On every finite directory graph and for whatever instructions, FTS_FOLLOW on waiting nodes included:
   the reads that return a node, other than a follow repeated on a dead link, are bounded by a number
   that depends only on the graph and the arguments.  After that reads return NULL.
   */
  lemma {:induction false} RunsEnd(fs: FileSystem, o: Options, args: seq<Arg>, actions: seq<Action>)
    requires WellFormed(fs) && args != [] && AreStrings(args) && FirstSize(args) < USHRT_MAX
    ensures Progress(fs, o, Opened(o, args), actions) <= WideBudget(WalkExtent(fs, args), Opened(o, args).nodes)
  {
    hide Opened, Sound, WalkExtent, Covers, KnowsAll, FirstSize;
    OpenedSound(o, args);
    WalkIsCovered(fs, o, args);
    RunsSpendWide(WalkExtent(fs, args), fs, o, Opened(o, args), actions);
  }
}
