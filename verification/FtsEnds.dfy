/**
 Runs of the fts machine in which the application also gives instructions: what every run keeps, when
 the types that it reports are those of the files, and why every run ends.
 */
module FtsEnds {
  import opened FtsWalk
  import opened FtsRuns

  // ----- reads and instructions -----

  /** The application reads, or sets an instruction on a node of the list. */
  datatype Action = Next | SetInstr(i: nat, instr: Instr)

  function Do(fs: FileSystem, o: Options, s: Stream, a: Action): Stream {
    match a
    case Next => Read(fs, o, s).0
    case SetInstr(i, instr) =>
      if i < |s.nodes| then s.(nodes := s.nodes[i := s.nodes[i].(instr := instr)]) else s
  }

  function DoAll(fs: FileSystem, o: Options, s: Stream, actions: seq<Action>): Stream
    decreases actions
  {
    if actions == [] then s else DoAll(fs, o, Do(fs, o, s, actions[0]), actions[1..])
  }

  lemma {:induction false} SameInstr(n: Node, instr: Instr, size: nat)
    ensures var m := n.(instr := instr);
            && NodeOk(m, size) == NodeOk(n, size) && Stem(m) == Stem(n) && Prefix(m) == Prefix(n)
            && OwnType(m) == OwnType(n)
  {
  }

  /** Instructions change nothing but themselves. */
  lemma {:induction false} InstrKeepsHeld(nodes: seq<Node>, i: nat, instr: Instr, size: nat, level: int)
    requires i < |nodes|
    ensures var r := nodes[i := nodes[i].(instr := instr)];
            && (Held(nodes, size) ==> Held(r, size)) && Above(level, r) == Above(level, nodes)
    decreases nodes
  {
    hide NodeOk, Stem, Prefix, OwnType;
    var r := nodes[i := nodes[i].(instr := instr)];
    SameInstr(nodes[i], instr, size);
    if i == 0 {
      assert r[1..] == nodes[1..];
    } else {
      assert r[1..] == nodes[1..][i - 1 := nodes[1..][i - 1].(instr := instr)];
      InstrKeepsHeld(nodes[1..], i - 1, instr, size, nodes[0].level);
    }
  }

  lemma {:induction false} DoKeepsSound(fs: FileSystem, o: Options, s: Stream, a: Action)
    requires WellFormed(fs) && Sound(s)
    ensures Sound(Do(fs, o, s, a))
  {
    hide Read, Held;
    match a {
      case Next => ReadKeepsSound(fs, o, s);
      case SetInstr(i, instr) =>
        if i < |s.nodes| {
          InstrKeepsHeld(s.nodes, i, instr, s.size, s.nodes[0].level);
        }
    }
  }

  /** Everything that soundness says holds after any run: bounds, depths, and distinct recorded identities. */
  lemma {:induction false} RunKeepsSound(fs: FileSystem, o: Options, s: Stream, actions: seq<Action>)
    requires WellFormed(fs) && Sound(s)
    ensures Sound(DoAll(fs, o, s, actions))
    decreases actions
  {
    hide Do, Sound;
    if actions != [] {
      DoKeepsSound(fs, o, s, actions[0]);
      RunKeepsSound(fs, o, Do(fs, o, s, actions[0]), actions[1..]);
    }
  }

  // ----- progress -----

  /** The application asks again to follow a link that leads nowhere. */
  predicate Stalls(s: Stream) {
    s.nodes != [] && s.nodes[0].instr == Follow && s.nodes[0].info == SLNONE && Dead(s.nodes[0].file)
  }

  predicate Dead(f: File) {
    f.Link? && Resolve(f) == Absent
  }

  /** The reads of a run that returned a node and were not a futile follow. */
  function Progress(fs: FileSystem, o: Options, s: Stream, actions: seq<Action>): nat
    decreases actions
  {
    if actions == [] then 0
    else
      (if actions[0].Next? && Read(fs, o, s).1 && !Stalls(s) then 1 else 0)
      + Progress(fs, o, Do(fs, o, s, actions[0]), actions[1..])
  }

  lemma {:induction false} NoProgress(fs: FileSystem, o: Options, s: Stream, actions: seq<Action>)
    requires s.nodes == [] || s.stop
    ensures Progress(fs, o, s, actions) == 0
    decreases actions
  {
    if actions != [] {
      NoProgress(fs, o, Do(fs, o, s, actions[0]), actions[1..]);
    }
  }

  /** The one way never to end: reading, and asking each time to follow a link that leads nowhere. */
  lemma {:induction false} FollowForever(fs: FileSystem, o: Options, s: Stream)
    requires Stalls(s) && !s.stop
    ensures Read(fs, o, s).1 && DoAll(fs, o, s, [Next, SetInstr(0, Follow)]) == s
  {
    var s1 := Do(fs, o, s, Next);
    assert [Next, SetInstr(0, Follow)][1..] == [SetInstr(0, Follow)];
    assert Do(fs, o, s1, SetInstr(0, Follow)).nodes == s.nodes;
    assert [SetInstr(0, Follow)][1..] == [];
  }

  /** Such a stream comes about: a dead link on the command line of a physical walk, followed twice. */
  lemma {:induction false} DeadLinkStalls(fs: FileSystem, o: Options)
    requires !o.logical && !o.comFollow
    ensures var (s0, follow) := (Opened(o, [Arg("x", Link(Absent))]), SetInstr(0, Follow));
            var s := Do(fs, o, Do(fs, o, Do(fs, o, Do(fs, o, s0, Next), follow), Next), follow);
            Stalls(s) && !s.stop && s.nodes[0].file == Link(Absent)
  {
    var s0 := Opened(o, [Arg("x", Link(Absent))]);
    var follow := SetInstr(0, Follow);
    OneLink(fs, o, s0);
    var s1 := Do(fs, o, s0, Next);
    var s2 := Do(fs, o, s1, follow);
    assert |s2.nodes| == 1 && s2.nodes[0].info == SL && s2.nodes[0].file == Link(Absent)
           && s2.nodes[0].instr == Follow && !s2.stop;
    hide Opened, Advance, Descend;
    var s3 := Do(fs, o, s2, Next);
    assert |s3.nodes| == 1 && s3.nodes[0].info == SLNONE && s3.nodes[0].file == Link(Absent) && !s3.stop;
  }

  lemma {:induction false} OneLink(fs: FileSystem, o: Options, s: Stream)
    requires !o.logical && !o.comFollow && s == Opened(o, [Arg("x", Link(Absent))])
    ensures var s1 := Do(fs, o, s, Next);
            |s1.nodes| == 1 && s1.nodes[0].info == SL && s1.nodes[0].file == Link(Absent) && !s1.stop
  {
    var n := Root(o, "x", Link(Absent));
    assert Roots(o, [Arg("x", Link(Absent))]) == [n];
    assert s.nodes[1..] == [n] && [n][1..] == [];
  }

  // ----- when the types reported are those of the files -----

  /** The node at position i has not been returned yet, and is reached from the one before it. */
  predicate Waiting(nodes: seq<Node>, i: nat) {
    0 < i < |nodes| && nodes[i].level == nodes[i - 1].level && nodes[i].level > 0
  }

  /** Every type recorded is that of the node's own file, and no waiting node is to be followed. */
  predicate Quiet(nodes: seq<Node>)
    decreases nodes
  {
    nodes == [] ||
    (&& OwnType(nodes[0]) && (Waiting(nodes, 1) ==> nodes[1].instr != Follow)
     && Quiet(nodes[1..]))
  }

  /** A run that never sets FTS_FOLLOW on a waiting node. */
  predicate QuietRun(fs: FileSystem, o: Options, s: Stream, actions: seq<Action>)
    decreases actions
  {
    actions == [] ||
    (&& (actions[0].SetInstr? && actions[0].instr == Follow ==> !Waiting(s.nodes, actions[0].i))
     && QuietRun(fs, o, Do(fs, o, s, actions[0]), actions[1..]))
  }

  lemma {:induction false} QuietHead(nodes: seq<Node>, n: Node)
    requires nodes != [] && Quiet(nodes) && OwnType(n) && n.level == nodes[0].level
    ensures Quiet([n] + nodes[1..])
  {
    hide OwnType;
    assert ([n] + nodes[1..])[1..] == nodes[1..];
  }

  lemma {:induction false} FollowedOwn(o: Options, p: Node, above: set<FileId>)
    ensures OwnType(Followed(o, p, p.file, above)) && Followed(o, p, p.file, above).level == p.level
  {
  }

  lemma {:induction false} LeftOwn(p: Node)
    requires p.info == D && OwnType(p)
    ensures OwnType(p.(info := DP)) && OwnType(p.(info := ERR)) && OwnType(p.(info := DNR, errno := true))
  {
  }

  lemma {:induction false} NamedOwn(p: Node, name: string)
    ensures OwnType(p.(name := name)) == OwnType(p)
  {
  }

  lemma {:induction false} AdvanceKeepsQuiet(o: Options, s: Stream, named: File)
    requires Sound(s) && !s.stop && s.nodes != [] && Quiet(s.nodes)
    ensures Quiet(Advance(o, s, named).0.nodes)
    decreases |s.nodes|
  {
    hide Held, NodeOk, OwnType, BaseName, Above, Followed;
    var rest := s.nodes[1..];
    if rest != [] {
      Behind(s);
      var p := rest[0];
      if p.level < s.nodes[0].level {
        LeftOwn(p);
        QuietHead(rest, p.(info := DP));
      } else if p.level == 0 {
        NamedOwn(p, BaseName(p.path));
        QuietHead(rest, p.(name := BaseName(p.path)));
      } else if p.instr == Skip {
        BehindSound(s);
        AdvanceKeepsQuiet(o, s.(nodes := rest), named);
      }
    }
  }

  lemma {:induction false} BehindSound(s: Stream)
    requires Sound(s) && |s.nodes| > 1 && s.nodes[1].level > 0
    ensures Sound(s.(nodes := s.nodes[1..]))
  {
    hide NodeOk;
    HeadFacts(s.nodes, s.size);
    assert Adjoin(s.nodes[0], s.nodes[1]);
  }

  lemma {:induction false} QuietChildren(cs: seq<Node>, nodes: seq<Node>)
    requires nodes != [] && Quiet(nodes)
    requires forall i | 0 <= i < |cs| :: OwnType(cs[i]) && cs[i].instr == NoInstr && cs[i].level == nodes[0].level + 1
    ensures Quiet(cs + nodes)
    decreases cs
  {
    hide OwnType;
    if cs == [] {
      assert cs + nodes == nodes;
    } else {
      assert (cs + nodes)[1..] == cs[1..] + nodes;
      QuietChildren(cs[1..], nodes);
    }
  }

  lemma {:induction false} DescendKeepsQuiet(fs: FileSystem, o: Options, s: Stream)
    requires s.nodes != [] && s.nodes[0].info == D && Quiet(s.nodes)
    ensures Quiet(Descend(fs, o, s).0.nodes)
  {
    hide Quiet, OwnType, MakeRoom, Above, Children, Contents, Prefix;
    var n := s.nodes[0];
    var above := Above(n.level + 1, s.nodes);
    QuietAt(s.nodes, 0);
    LeftOwn(n);
    QuietHead(s.nodes, n.(info := DP));
    QuietHead(s.nodes, n.(info := ERR));
    QuietHead(s.nodes, n.(info := DNR, errno := true));
    if Readable(fs, n) {
      ChildrenFresh(o, n, above, Contents(fs, o, n));
      QuietChildren(Children(o, n, above, Contents(fs, o, n)), s.nodes);
    }
  }

  lemma {:induction false} QuietAt(nodes: seq<Node>, i: nat)
    requires Quiet(nodes) && i < |nodes|
    ensures OwnType(nodes[i])
    decreases i
  {
    hide OwnType;
    if i > 0 {
      QuietAt(nodes[1..], i - 1);
    }
  }

  lemma {:induction false} ReadKeepsQuiet(fs: FileSystem, o: Options, s: Stream)
    requires Sound(s) && Quiet(s.nodes)
    ensures Quiet(Read(fs, o, s).0.nodes)
  {
    hide Held, OwnType, Descend, Advance, Followed, Above, Quiet;
    if s.nodes != [] && !s.stop {
      var p := s.nodes[0].(instr := NoInstr);
      var above := Above(p.level, s.nodes[1..]);
      QuietAt(s.nodes, 0);
      SameInstr(s.nodes[0], NoInstr, 0);
      QuietHead(s.nodes, p);
      HeldHeadInstr(s);
      var s1 := s.(nodes := [p] + s.nodes[1..]);
      if s.nodes[0].instr == Follow && (p.info == SL || p.info == SLNONE) {
        FollowedOwn(o, p, above);
        QuietHead(s.nodes, Followed(o, p, p.file, above));
      } else if p.info == D {
        LeftOwn(p);
        QuietHead(s.nodes, p.(info := DP));
        DescendKeepsQuiet(fs, o, s1);
      } else {
        AdvanceKeepsQuiet(o, s1, p.file);
      }
    }
  }

  lemma {:induction false} InstrKeepsQuiet(nodes: seq<Node>, i: nat, instr: Instr)
    requires i < |nodes| && Quiet(nodes) && (instr == Follow ==> !Waiting(nodes, i))
    ensures Quiet(nodes[i := nodes[i].(instr := instr)])
    decreases nodes
  {
    hide OwnType, NodeOk, Stem, Prefix;
    var r := nodes[i := nodes[i].(instr := instr)];
    SameInstr(nodes[i], instr, 0);
    if i == 0 {
      assert r[1..] == nodes[1..];
    } else {
      assert r[1..] == nodes[1..][i - 1 := nodes[1..][i - 1].(instr := instr)];
      InstrKeepsQuiet(nodes[1..], i - 1, instr);
    }
  }

  lemma {:induction false} DoKeepsQuiet(fs: FileSystem, o: Options, s: Stream, a: Action)
    requires Sound(s) && Quiet(s.nodes)
    requires a.SetInstr? && a.instr == Follow ==> !Waiting(s.nodes, a.i)
    ensures Quiet(Do(fs, o, s, a).nodes)
  {
    hide Read, Sound, Quiet, Waiting;
    match a {
      case Next => ReadKeepsQuiet(fs, o, s);
      case SetInstr(i, instr) =>
        if i < |s.nodes| {
          InstrKeepsQuiet(s.nodes, i, instr);
        }
    }
  }

  /** In a run that never sets FTS_FOLLOW on a waiting node, every type is always that of the node's own file. */
  lemma {:induction false} QuietRunsTellTheTruth(fs: FileSystem, o: Options, s: Stream, actions: seq<Action>)
    requires WellFormed(fs) && Sound(s) && Quiet(s.nodes) && QuietRun(fs, o, s, actions)
    ensures var e := DoAll(fs, o, s, actions);
            && Sound(e) && Quiet(e.nodes) && forall i | 0 <= i < |e.nodes| :: OwnType(e.nodes[i])
    decreases actions
  {
    hide Do, Sound, Quiet, OwnType, Waiting;
    if actions == [] {
      forall i | 0 <= i < |s.nodes| {
        QuietAt(s.nodes, i);
      }
    } else {
      DoKeepsSound(fs, o, s, actions[0]);
      DoKeepsQuiet(fs, o, s, actions[0]);
      QuietRunsTellTheTruth(fs, o, Do(fs, o, s, actions[0]), actions[1..]);
    }
  }

  lemma {:induction false} OpenedQuiet(o: Options, args: seq<Arg>)
    ensures Quiet(Opened(o, args).nodes)
  {
    hide OwnType, Roots, FirstSize, Waiting;
    OpenedFresh(o, args);
    FreshIsQuiet(Opened(o, args).nodes);
  }

  /** From fts_open on: without FTS_FOLLOW on a waiting node, every type is always that of the node's own file. */
  lemma {:induction false} WalksTellTheTruth(fs: FileSystem, o: Options, args: seq<Arg>, actions: seq<Action>)
    requires WellFormed(fs) && args != [] && AreStrings(args) && FirstSize(args) < USHRT_MAX
    requires QuietRun(fs, o, Opened(o, args), actions)
    ensures var e := DoAll(fs, o, Opened(o, args), actions);
            && Sound(e) && Quiet(e.nodes) && forall i | 0 <= i < |e.nodes| :: OwnType(e.nodes[i])
  {
    hide Opened, Sound, Quiet, QuietRun, OwnType, DoAll, FirstSize, WellFormed;
    OpenedSound(o, args);
    OpenedQuiet(o, args);
    QuietRunsTellTheTruth(fs, o, Opened(o, args), actions);
  }

  lemma {:induction false} FreshIsQuiet(nodes: seq<Node>)
    requires NoInstructions(nodes)
    ensures Quiet(nodes)
    decreases nodes
  {
    hide OwnType;
    if nodes != [] {
      FreshIsQuiet(nodes[1..]);
    }
  }

  // ----- a budget for quiet runs -----

  /** An upper bound on the reads that a file can still cause after the first report of its node. */
  function FileCost(fs: FileSystem, o: Options, f: File, above: set<FileId>): nat
    decreases |fs.Keys - above|, 1
  {
    (if f.Link? then 1 else 0) + (if Resolve(f).Directory? then DirCost(fs, o, Resolve(f).id, above) else 0)
  }

  function DirCost(fs: FileSystem, o: Options, id: FileId, above: set<FileId>): nat
    decreases |fs.Keys - above|, 0
  {
    if id !in fs || id in above then 1
    else
      Smaller(fs, id, above);
      1 + ListCost(fs, o, Visible(o, fs[id]), above + {id})
  }

  function ListCost(fs: FileSystem, o: Options, entries: seq<Entry>, above: set<FileId>): nat
    decreases |fs.Keys - above|, 2, |entries|
  {
    if entries == [] then 0 else 1 + FileCost(fs, o, entries[0].file, above) + ListCost(fs, o, entries[1..], above)
  }

  /** The same for the current node, which has been reported. */
  function NodeCost(fs: FileSystem, o: Options, n: Node, above: set<FileId>): nat {
    if n.info == D then DirCost(fs, o, n.id, above)
    else if n.info == SL then FileCost(fs, o, n.file, above)
    else 0
  }

  function BehindCost(fs: FileSystem, o: Options, level: int, rest: seq<Node>): nat
    decreases rest
  {
    if rest == [] then 0
    else
      (if rest[0].level < level then 1 else 1 + FileCost(fs, o, rest[0].file, Above(rest[0].level, rest[1..])))
      + BehindCost(fs, o, rest[0].level, rest[1..])
  }

  function Budget(fs: FileSystem, o: Options, nodes: seq<Node>): nat {
    if nodes == [] then 0
    else NodeCost(fs, o, nodes[0], Above(nodes[0].level, nodes[1..])) + BehindCost(fs, o, nodes[0].level, nodes[1..])
  }

  lemma {:induction false} BudgetOf(fs: FileSystem, o: Options, n: Node, rest: seq<Node>)
    ensures Budget(fs, o, [n] + rest) == NodeCost(fs, o, n, Above(n.level, rest)) + BehindCost(fs, o, n.level, rest)
  {
    hide NodeCost, BehindCost, Above;
    assert ([n] + rest)[1..] == rest;
  }

  lemma {:induction false} CostAtMost(fs: FileSystem, o: Options, n: Node, above: set<FileId>)
    requires OwnType(n)
    ensures NodeCost(fs, o, n, above) <= FileCost(fs, o, n.file, above)
  {
    hide DirCost;
  }

  lemma {:induction false} FollowedCost(fs: FileSystem, o: Options, n: Node, above: set<FileId>)
    requires OwnType(n)
    ensures n.info == SL ==> NodeCost(fs, o, Followed(o, n, n.file, above), above) < NodeCost(fs, o, n, above)
    ensures n.info == SLNONE ==> Followed(o, n, n.file, above).info == SLNONE && Dead(n.file)
  {
    hide DirCost;
  }

  lemma {:induction false} AdvanceSpends(fs: FileSystem, o: Options, s: Stream, named: File)
    requires Sound(s) && !s.stop && s.nodes != [] && Quiet(s.nodes)
    ensures var (s', got) := Advance(o, s, named);
            got ==> Budget(fs, o, s'.nodes) < BehindCost(fs, o, s.nodes[0].level, s.nodes[1..])
    decreases |s.nodes|
  {
    hide NodeCost, FileCost, Above, Followed, Held, OwnType, Budget, BaseName;
    var rest := s.nodes[1..];
    if rest != [] {
      Behind(s);
      var p := rest[0];
      var above := Above(p.level, rest[1..]);
      CostAtMost(fs, o, p, above);
      if p.level >= s.nodes[0].level && p.level != 0 && p.instr == Skip {
        BehindSound(s);
        AdvanceSpends(fs, o, s.(nodes := rest), named);
      } else {
        var n := Advance(o, s, named).0.nodes[0];
        assert Advance(o, s, named).0.nodes == [n] + rest[1..];
        BudgetOf(fs, o, n, rest[1..]);
        RenamedCost(fs, o, p, n, above);
      }
    }
  }

  lemma {:induction false} RenamedCost(fs: FileSystem, o: Options, p: Node, n: Node, above: set<FileId>)
    ensures n == p.(name := n.name) ==> NodeCost(fs, o, n, above) == NodeCost(fs, o, p, above)
    ensures n == p.(instr := n.instr) ==> NodeCost(fs, o, n, above) == NodeCost(fs, o, p, above)
    ensures n.info == DP ==> NodeCost(fs, o, n, above) == 0
  {
    hide DirCost, FileCost;
  }

  lemma {:induction false} ChildrenCost(fs: FileSystem, o: Options, nodes: seq<Node>, above: set<FileId>,
                                        entries: seq<Entry>)
    requires nodes != [] && above == Above(nodes[0].level + 1, nodes)
    ensures var r := Children(o, nodes[0], above, entries) + nodes;
            && BehindCost(fs, o, nodes[0].level + 1, r)
               == ListCost(fs, o, entries, above) + 1 + BehindCost(fs, o, nodes[0].level, nodes[1..])
            && Above(nodes[0].level + 1, r) == above
    decreases entries
  {
    hide FileCost, Stat, StatId, Prefix;
    var cs := Children(o, nodes[0], above, entries);
    if entries == [] {
      assert cs + nodes == nodes;
    } else {
      var rest := Children(o, nodes[0], above, entries[1..]) + nodes;
      assert cs + nodes == [cs[0]] + rest && (cs + nodes)[1..] == rest;
      ChildrenCost(fs, o, nodes, above, entries[1..]);
    }
  }

  /** The first node of a list costs one read less once it has been reported. */
  lemma {:induction false} FrontCost(fs: FileSystem, o: Options, nodes: seq<Node>)
    requires nodes != [] && OwnType(nodes[0])
    ensures Budget(fs, o, nodes) < BehindCost(fs, o, nodes[0].level, nodes)
  {
    hide NodeCost, FileCost, OwnType;
    CostAtMost(fs, o, nodes[0], Above(nodes[0].level, nodes[1..]));
  }

  lemma {:induction false} DescendSpends(fs: FileSystem, o: Options, s: Stream)
    requires Sound(s) && !s.stop && s.nodes != [] && s.nodes[0].info == D && OwnType(s.nodes[0])
    ensures var (s', got) := Descend(fs, o, s);
            got ==> Budget(fs, o, s'.nodes) < Budget(fs, o, s.nodes)
  {
    NotAbove(s);
    OwnContents(fs, o, s.nodes[0]);
    hide NodeCost, BehindCost, Above, Budget, MakeRoom, Child, Held, Listing, ListCost, Children, Prefix, OwnType;
    var n := s.nodes[0];
    var rest := s.nodes[1..];
    var above := Above(n.level, rest);
    var (s', got) := Descend(fs, o, s);
    Split(s.nodes);
    BudgetOf(fs, o, n, rest);
    DirNodeCost(fs, o, n, above);
    if got {
      if n.id !in fs || Listing(fs, o, n) == [] {
        assert s'.nodes == [s'.nodes[0]] + rest;
        BudgetOf(fs, o, s'.nodes[0], rest);
        DoneCost(fs, o, s'.nodes[0], above);
      } else {
        ChildrenCost(fs, o, s.nodes, above + {n.id}, Listing(fs, o, n));
        ChildOwn(o, n, above + {n.id}, Listing(fs, o, n)[0]);
        FrontCost(fs, o, s'.nodes);
      }
    }
  }

  lemma {:induction false} DirNodeCost(fs: FileSystem, o: Options, n: Node, above: set<FileId>)
    requires n.info == D && n.id !in above
    ensures NodeCost(fs, o, n, above)
         == 1 + if n.id in fs then ListCost(fs, o, Listing(fs, o, n), above + {n.id}) else 0
  {
    hide ListCost;
  }

  lemma {:induction false} DoneCost(fs: FileSystem, o: Options, n: Node, above: set<FileId>)
    requires n.info == DP || n.info == DNR
    ensures NodeCost(fs, o, n, above) == 0
  {
  }

  /**
   In a quiet state every read that returns a node uses up some of the budget, unless it follows a dead
   link again.
   */
  lemma {:induction false} ReadSpends(fs: FileSystem, o: Options, s: Stream)
    requires Sound(s) && Quiet(s.nodes)
    ensures var (s', got) := Read(fs, o, s);
            && (got && !Stalls(s) ==> Budget(fs, o, s'.nodes) < Budget(fs, o, s.nodes))
            && (Stalls(s) ==> Budget(fs, o, s'.nodes) <= Budget(fs, o, s.nodes))
            && (!got ==> s'.nodes == [] || s'.stop)
  {
    hide NodeCost, BehindCost, Above, Budget, Descend, Advance, Followed, Held, Quiet, OwnType;
    if s.nodes != [] && !s.stop {
      var p := s.nodes[0].(instr := NoInstr);
      var rest := s.nodes[1..];
      var above := Above(p.level, rest);
      var s1 := s.(nodes := [p] + rest);
      QuietAt(s.nodes, 0);
      SameInstr(s.nodes[0], NoInstr, 0);
      QuietHead(s.nodes, p);
      HeldHeadInstr(s);
      Split(s.nodes);
      BudgetOf(fs, o, s.nodes[0], rest);
      BudgetOf(fs, o, p, rest);
      RenamedCost(fs, o, s.nodes[0], p, above);
      if s.nodes[0].instr == Follow && (p.info == SL || p.info == SLNONE) {
        FollowedCost(fs, o, p, above);
        FollowedOwn(o, p, above);
        BudgetOf(fs, o, Followed(o, p, p.file, above), rest);
        DeadCost(fs, o, Followed(o, p, p.file, above), above);
      } else if p.info == D {
        if s.nodes[0].instr == Skip {
          BudgetOf(fs, o, p.(info := DP), rest);
          DoneCost(fs, o, p.(info := DP), above);
          NotAbove(s);
          DirNodeCost(fs, o, p, above);
        } else {
          DescendSpends(fs, o, s1);
          DescendEnds(fs, o, s1);
        }
      } else {
        AdvanceSpends(fs, o, s1, p.file);
        AdvanceEnds(o, s1, p.file);
      }
    }
  }

  lemma {:induction false} DeadCost(fs: FileSystem, o: Options, n: Node, above: set<FileId>)
    ensures n.info == SLNONE || n.info == NS ==> NodeCost(fs, o, n, above) == 0
  {
  }

  lemma {:induction false} DescendEnds(fs: FileSystem, o: Options, s: Stream)
    requires s.nodes != []
    ensures !Descend(fs, o, s).1 ==> Descend(fs, o, s).0.stop
  {
  }

  lemma {:induction false} AdvanceEnds(o: Options, s: Stream, named: File)
    requires s.nodes != []
    ensures !Advance(o, s, named).1 ==> Advance(o, s, named).0.nodes == []
    decreases |s.nodes|
  {
    var rest := s.nodes[1..];
    if rest != [] && rest[0].level >= s.nodes[0].level && rest[0].level != 0 && rest[0].instr == Skip {
      AdvanceEnds(o, s.(nodes := rest), named);
    }
  }

  lemma {:induction false} InstrKeepsBehind(fs: FileSystem, o: Options, nodes: seq<Node>, i: nat, instr: Instr,
                                            level: int)
    requires i < |nodes|
    ensures var r := nodes[i := nodes[i].(instr := instr)];
            BehindCost(fs, o, level, r) == BehindCost(fs, o, level, nodes) && Above(level, r) == Above(level, nodes)
    decreases nodes
  {
    hide FileCost;
    var r := nodes[i := nodes[i].(instr := instr)];
    if i == 0 {
      assert r[1..] == nodes[1..];
    } else {
      assert r[1..] == nodes[1..][i - 1 := nodes[1..][i - 1].(instr := instr)];
      InstrKeepsBehind(fs, o, nodes[1..], i - 1, instr, nodes[0].level);
    }
  }

  lemma {:induction false} InstrKeepsBudget(fs: FileSystem, o: Options, nodes: seq<Node>, i: nat, instr: Instr)
    requires i < |nodes|
    ensures Budget(fs, o, nodes[i := nodes[i].(instr := instr)]) == Budget(fs, o, nodes)
  {
    hide NodeCost, BehindCost, Above;
    var n := nodes[0];
    var r := nodes[i := nodes[i].(instr := instr)];
    RenamedCost(fs, o, n, r[0], Above(n.level, nodes[1..]));
    if i > 0 {
      assert r[1..] == nodes[1..][i - 1 := nodes[1..][i - 1].(instr := instr)];
      InstrKeepsBehind(fs, o, nodes[1..], i - 1, instr, n.level);
    } else {
      assert r[1..] == nodes[1..];
    }
  }

  /**
   On every finite directory graph, cycles and followed links included, and whatever instructions the
   application gives short of FTS_FOLLOW on a waiting node: the reads that return a node, other than a
   follow repeated on a dead link, are no more than the budget of the stream.
   */
  lemma {:induction false} QuietRunsEnd(fs: FileSystem, o: Options, s: Stream, actions: seq<Action>)
    requires WellFormed(fs) && Sound(s) && Quiet(s.nodes) && QuietRun(fs, o, s, actions)
    ensures Progress(fs, o, s, actions) <= Budget(fs, o, s.nodes)
    decreases actions
  {
    hide Read, Sound, Budget, Stalls, Quiet, Waiting;
    if actions != [] {
      var a := actions[0];
      DoKeepsSound(fs, o, s, a);
      DoKeepsQuiet(fs, o, s, a);
      var s' := Do(fs, o, s, a);
      if a.Next? {
        ReadSpends(fs, o, s);
        if !Read(fs, o, s).1 {
          NoProgress(fs, o, s', actions[1..]);
        }
      } else if a.i < |s.nodes| {
        InstrKeepsBudget(fs, o, s.nodes, a.i, a.instr);
      }
      QuietRunsEnd(fs, o, s', actions[1..]);
    }
  }

  /** From fts_open on: no more such reads than the budget of the arguments. */
  lemma {:induction false} WalksEnd(fs: FileSystem, o: Options, args: seq<Arg>, actions: seq<Action>)
    requires WellFormed(fs) && args != [] && AreStrings(args) && FirstSize(args) < USHRT_MAX
    requires QuietRun(fs, o, Opened(o, args), actions)
    ensures Progress(fs, o, Opened(o, args), actions) <= Budget(fs, o, Opened(o, args).nodes)
  {
    hide Opened, Sound, Quiet, QuietRun, Progress, Budget, FirstSize, WellFormed;
    OpenedSound(o, args);
    OpenedQuiet(o, args);
    QuietRunsEnd(fs, o, Opened(o, args), actions);
  }

  // ----- depths and identities in every reachable state -----

  /** The node at position k is a directory that the walk is inside of. */
  predicate IsOpen(nodes: seq<Node>, k: nat)
    requires k < |nodes|
  {
    k > 0 && nodes[k].level < nodes[k - 1].level
  }

  lemma {:induction false} OpenIsAbove(level: int, rest: seq<Node>, k: nat)
    requires k < |rest| && rest[k].level < (if k == 0 then level else rest[k - 1].level)
    ensures rest[k].id in Above(level, rest)
    decreases rest
  {
    if k > 0 {
      OpenIsAbove(rest[0].level, rest[1..], k - 1);
    }
  }

  lemma {:induction false} HeldAt(nodes: seq<Node>, size: nat, i: nat)
    requires Held(nodes, size) && i < |nodes|
    ensures NodeOk(nodes[i], size) && (nodes[i].info == D ==> nodes[i].id !in Above(nodes[i].level, nodes[i + 1..]))
    ensures IsOpen(nodes, i) ==> nodes[i].info == D
    decreases nodes
  {
    hide NodeOk, Stem, Prefix, Above;
    if i > 0 {
      HeldAt(nodes[1..], size, i - 1);
      assert nodes[1..][i - 1] == nodes[i] && nodes[1..][i..] == nodes[i + 1..];
      assert i == 1 ==> Adjoin(nodes[0], nodes[1]);
    }
  }

  /** In every reachable state the directories that the walk is inside of have different recorded identities. */
  lemma {:induction false} RecordedIdsDiffer(s: Stream, i: nat, j: nat)
    requires Sound(s) && i < j < |s.nodes| && IsOpen(s.nodes, j)
    requires (IsOpen(s.nodes, i) || (i == 0 && s.nodes[0].info == D))
    ensures s.nodes[i].id != s.nodes[j].id
  {
    hide Held, Above;
    HeldAt(s.nodes, s.size, i);
    OpenIsAbove(s.nodes[i].level, s.nodes[i + 1..], j - i - 1);
  }

  /** In a quiet state they are different directories, so that no path of the walk goes round a cycle. */
  lemma {:induction false} OpenDirectoriesDiffer(s: Stream, i: nat, j: nat)
    requires Sound(s) && Quiet(s.nodes) && i < j < |s.nodes| && IsOpen(s.nodes, j)
    requires (IsOpen(s.nodes, i) || (i == 0 && s.nodes[0].info == D))
    ensures Resolve(s.nodes[i].file) != Resolve(s.nodes[j].file)
  {
    hide Held, Above, Quiet;
    HeldAt(s.nodes, s.size, i);
    HeldAt(s.nodes, s.size, j);
    QuietAt(s.nodes, i);
    QuietAt(s.nodes, j);
    RecordedIdsDiffer(s, i, j);
  }

  /** Although its guard is far larger, the depth of a node always fits 16 bits: its path would be too long first. */
  lemma {:induction false} DepthFits(s: Stream, i: nat)
    requires Sound(s) && i < |s.nodes|
    ensures 0 <= s.nodes[i].level <= 32767 && |s.nodes[i].path| < s.size
  {
    HeldAt(s.nodes, s.size, i);
  }

  // ----- FTS_FOLLOW on a waiting node -----

  /** The waiting node behind the current one as the next read returns it. */
  function Arrived(o: Options, s: Stream, named: File): (n: Node)
    requires Waiting(s.nodes, 1) && s.nodes[1].instr != Skip
    ensures s.nodes[1].instr != Follow ==> n == s.nodes[1]
    ensures s.nodes[1].instr == Follow ==> n == Followed(o, s.nodes[1], named, Above(s.nodes[1].level, s.nodes[2..]))
  {
    assert s.nodes[1..][1..] == s.nodes[2..];
    Advance(o, s, named).0.nodes[0]
  }

  /**
   A waiting node arrives with the type of its own file, whatever file was returned before it, exactly
   if FTS_FOLLOW is not set on it.
   */
  lemma {:induction false} ArrivesAsItself(o: Options, s: Stream)
    requires Waiting(s.nodes, 1) && s.nodes[1].instr != Skip && OwnType(s.nodes[1])
    ensures (forall named: File :: OwnType(Arrived(o, s, named))) <==> s.nodes[1].instr != Follow
  {
    hide Above, Advance, Arrived;
    var p := s.nodes[1];
    if p.instr == Follow {
      var other := if Resolve(p.file) == Regular then Special else Regular;
      assert !OwnType(Arrived(o, s, other));
    }
  }

  /**
   With FTS_FOLLOW set, and a given file returned before: the type comes out right exactly if the two
   lead to the same file, and, where that is none, both are links or neither is.
   */
  lemma {:induction false} FollowedAsItself(o: Options, s: Stream, named: File)
    requires Waiting(s.nodes, 1) && s.nodes[1].instr == Follow
    ensures var own := s.nodes[1].file;
            OwnType(Arrived(o, s, named)) <==>
              Resolve(own) == Resolve(named) && (Resolve(named).Absent? ==> named.Link? == own.Link?)
  {
    hide Above, Advance, Arrived;
  }

  const TOP := FileId(1, 2)
  const EMPTY := FileId(1, 3)
  const PHYSICAL := Options(false, false, false)

  /** A directory with an empty directory a and some file f in it. */
  function Pair(f: File): FileSystem {
    map[TOP := [Entry("a", Directory(EMPTY)), Entry("f", f)], EMPTY := []]
  }

  function PairOpened(): Stream {
    Opened(PHYSICAL, [Arg("r", Directory(TOP))])
  }

  const TOP_NODE := Node(0, "r", "r", Directory(TOP), TOP, D, NoInstr, false)
  const EMPTY_NODE := Node(1, "r/a", "a", Directory(EMPTY), EMPTY, D, NoInstr, false)

  function FileNode(f: File): Node {
    Child(PHYSICAL, TOP_NODE, {TOP}, Entry("f", f))
  }

  lemma {:induction false} PairSize()
    ensures PairOpened().size == 1280
  {
    var args := [Arg("r", Directory(TOP))];
    assert LongestArg(args[1..]) == 0;
    assert LongestArg(args) == 1;
  }

  lemma {:induction false} PairFirst(f: File)
    ensures Do(Pair(f), PHYSICAL, PairOpened(), Next) == Stream([TOP_NODE], PairOpened().size, false, false)
  {
    var s := PairOpened();
    assert s.nodes == [DUMMY, TOP_NODE];
    assert s.nodes[1..] == [TOP_NODE] && [TOP_NODE][1..] == [];
    assert BaseName("r") == "r";
  }

  lemma {:induction false} PairSecond(f: File, size: nat)
    requires 1280 <= size < USHRT_MAX
    ensures Do(Pair(f), PHYSICAL, Stream([TOP_NODE], size, false, false), Next)
         == Stream([EMPTY_NODE, FileNode(f), TOP_NODE], size, false, false)
  {
    hide MakeRoom, Visible;
    PairListed(f, 2, size);
    var entries := Pair(f)[TOP];
    assert Above(1, [TOP_NODE]) == {TOP};
    assert "r" + "/" + "a" == "r/a";
    assert Children(PHYSICAL, TOP_NODE, {TOP}, entries) == [EMPTY_NODE, FileNode(f)];
    assert [TOP_NODE.(instr := NoInstr)] + [TOP_NODE][1..] == [TOP_NODE];
  }

  lemma {:induction false} PairThird(f: File, p: Node, size: nat)
    requires p.level == 1 && p.instr == Follow
    ensures Do(Pair(f), PHYSICAL, Stream([EMPTY_NODE, p, TOP_NODE], size, false, false), Next)
         == Stream([EMPTY_NODE.(info := DP), p, TOP_NODE], size, false, false)
  {
    var s := Stream([EMPTY_NODE, p, TOP_NODE], size, false, false);
    assert Contents(Pair(f), PHYSICAL, EMPTY_NODE) == [];
    assert [EMPTY_NODE] + s.nodes[1..] == s.nodes;
  }

  lemma {:induction false} PairFourth(f: File, p: Node, size: nat)
    requires p.level == 1 && p.instr == Follow && p.name == "f"
    ensures Do(Pair(f), PHYSICAL, Stream([EMPTY_NODE.(info := DP), p, TOP_NODE], size, false, false), Next)
         == Stream([p.(instr := NoInstr, info := D, id := EMPTY), TOP_NODE], size, false, false)
  {
    var s := Stream([EMPTY_NODE.(info := DP), p, TOP_NODE], size, false, false);
    assert s.nodes[1..] == [p, TOP_NODE] && [p, TOP_NODE][1..] == [TOP_NODE];
    assert Above(1, [TOP_NODE]) == {TOP};
  }

  /** The walk of r: to a, which is waiting before f; then FTS_FOLLOW on f; then on from a, twice. */
  function FollowWaiting(f: File): Stream {
    var fs := Pair(f);
    var s := Do(fs, PHYSICAL, Do(fs, PHYSICAL, PairOpened(), Next), Next);
    Do(fs, PHYSICAL, Do(fs, PHYSICAL, Do(fs, PHYSICAL, s, SetInstr(1, Follow)), Next), Next)
  }

  /**
   FTS_FOLLOW on f while the walk is at a: whatever f is, a plain file included, it is reported as a
   directory to be read, with the identity of a.
   */
  lemma {:induction false} WaitingFollow(f: File)
    ensures FollowWaiting(f) == Stream([FileNode(f).(info := D, id := EMPTY), TOP_NODE], 1280, false, false)
    ensures FileNode(f).file == f && FileNode(f).path == "r/f"
  {
    var p := FileNode(f).(instr := Follow);
    PairSize();
    assert FileNode(f).path == "r/f" && FileNode(f).level == 1
           && FileNode(f).name == "f" && FileNode(f).instr == NoInstr;
    PairFirst(f);
    PairSecond(f, 1280);
    var s := Stream([EMPTY_NODE, FileNode(f), TOP_NODE], 1280, false, false);
    assert Do(Pair(f), PHYSICAL, s, SetInstr(1, Follow)) == Stream([EMPTY_NODE, p, TOP_NODE], 1280, false, false);
    PairThird(f, p, 1280);
    PairFourth(f, p, 1280);
  }

  lemma {:induction false} PairListed(f: File, len: nat, size: nat)
    requires len < 10 && 1280 <= size < USHRT_MAX
    ensures Visible(PHYSICAL, Pair(f)[TOP]) == Pair(f)[TOP]
    ensures MakeRoom(Pair(f)[TOP], len, size) == Built(true, size)
  {
    var entries := Pair(f)[TOP];
    assert entries[1..][1..] == [];
    assert Visible(PHYSICAL, entries[1..]) == [Entry("f", f)];
    assert MakeRoom(entries[1..], len, size) == Built(true, size);
  }

  lemma {:induction false} InsideAgain(f: File, n: Node)
    requires n.info == D && n.level == 1 && n.path == "r/f" && n.instr == NoInstr && Resolve(n.file) == Directory(TOP)
    ensures var s := Do(Pair(f), PHYSICAL, Stream([n, TOP_NODE], 1280, false, false), Next);
            && |s.nodes| == 4 && s.nodes[2..] == [n, TOP_NODE] && s.nodes[1].level == 2
  {
    hide MakeRoom, Visible, Above;
    PairListed(f, 4, 1280);
    var cs := Children(PHYSICAL, n, Above(2, [n, TOP_NODE]), Pair(f)[TOP]);
    assert [n] + [n, TOP_NODE][1..] == [n, TOP_NODE];
    assert (cs + [n, TOP_NODE])[2..] == [n, TOP_NODE];
  }

  /** With f a link to r itself, the next read goes into r once more: the walk is inside r twice. */
  lemma {:induction false} WaitingFollowGoesRound()
    ensures var f := Link(Directory(TOP));
            var s := Do(Pair(f), PHYSICAL, FollowWaiting(f), Next);
            && |s.nodes| == 4 && IsOpen(s.nodes, 2) && IsOpen(s.nodes, 3)
            && Resolve(s.nodes[2].file) == Resolve(s.nodes[3].file) == Directory(TOP)
  {
    var f := Link(Directory(TOP));
    WaitingFollow(f);
    var n := FileNode(f).(info := D, id := EMPTY);
    assert FileNode(f).level == 1;
    InsideAgain(f, n);
  }
}
