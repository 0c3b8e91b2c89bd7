/**
 What whole runs of the fts machine do when the application gives no instructions: they carry out the
 depth-first walk, and with paths of moderate length they never run out of buffer.
 */
module FtsRuns {
  import opened FtsWalk

  // ----- opening a stream -----

  function Root(o: Options, arg: string, f: File): Node {
    var info := Stat(o, o.comFollow, arg, f, {});
    Node(0, arg, arg, f, StatId(o, o.comFollow, f), if info == DOT then D else info, NoInstr, info == NS)
  }

  /** A command-line argument: a path and what is found there. */
  datatype Arg = Arg(path: string, file: File)

  function Roots(o: Options, args: seq<Arg>): (r: seq<Node>)
    ensures |r| == |args|
    ensures forall i | 0 <= i < |args| :: r[i] == Root(o, args[i].path, args[i].file)
  {
    if args == [] then [] else [Root(o, args[0].path, args[0].file)] + Roots(o, args[1..])
  }

  function LongestArg(args: seq<Arg>): nat {
    if args == [] then 0
    else
      var m := LongestArg(args[1..]);
      if |args[0].path| > m then |args[0].path| else m
  }

  function FirstSize(args: seq<Arg>): nat {
    var most := LongestArg(args) + 1;
    Enlarged(0, if most > PATH_MAX then most else PATH_MAX)
  }

  const DUMMY := Node(0, "", "", Absent, NO_ID, INIT, NoInstr, false)

  function Opened(o: Options, args: seq<Arg>): Stream {
    Stream([DUMMY] + Roots(o, args), FirstSize(args), false, false)
  }

  lemma {:induction false} LongestIs(args: seq<Arg>, i: nat)
    requires i < |args|
    ensures |args[i].path| <= LongestArg(args)
    decreases args
  {
    if i > 0 {
      LongestIs(args[1..], i - 1);
    }
  }

  lemma {:induction false} RootsHeld(o: Options, args: seq<Arg>, size: nat)
    requires forall i | 0 <= i < |args| :: |args[i].path| < size && |args[i].path| < USHRT_MAX && '\0' !in args[i].path
    ensures Held(Roots(o, args), size) && Above(0, Roots(o, args)) == {}
    decreases args
  {
    hide Root, NodeOk, Stem;
    if args != [] {
      RootsHeld(o, args[1..], size);
      RootOk0(o, args[0], size);
      if |args| > 1 { RootOk0(o, args[1], size); }
      assert Roots(o, args)[1..] == Roots(o, args[1..]);
    }
  }

  lemma {:induction false} RootOk0(o: Options, a: Arg, size: nat)
    requires |a.path| < size && |a.path| < USHRT_MAX && '\0' !in a.path
    ensures var n := Root(o, a.path, a.file);
            NodeOk(n, size) && n.level == 0 && n.name == n.path && (n.errno ==> n.file == Absent) && n.info != INIT
  {
  }

  /** Arguments are C strings. */
  predicate AreStrings(args: seq<Arg>) {
    forall i | 0 <= i < |args| :: '\0' !in args[i].path
  }

  lemma {:induction false} OpenedSound(o: Options, args: seq<Arg>)
    requires args != [] && AreStrings(args) && FirstSize(args) < USHRT_MAX
    ensures Sound(Opened(o, args))
  {
    hide Roots, LongestArg;
    forall i | 0 <= i < |args| ensures |args[i].path| < FirstSize(args) {
      LongestIs(args, i);
    }
    RootsHeld(o, args, FirstSize(args));
    assert ([DUMMY] + Roots(o, args))[1..] == Roots(o, args);
  }

  // ----- without instructions, the walk is depth first -----

  /** The type recorded for a node, and for a directory its identity, are those of its own file. */
  predicate OwnType(n: Node) {
    match n.info
    case D | DC | DOT => Resolve(n.file) == Directory(n.id)
    case DP | DNR | ERR => Resolve(n.file).Directory?
    case F => Resolve(n.file) == Regular
    case DEFAULT => Resolve(n.file) == Special
    case SL => n.file.Link?
    case SLNONE => n.file.Link? && Resolve(n.file) == Absent
    case NS => n.file == Absent
    case INIT => n.file == Absent
  }

  predicate NoInstructions(nodes: seq<Node>) {
    forall i | 0 <= i < |nodes| :: nodes[i].instr == NoInstr && OwnType(nodes[i])
  }

  /** The reports still to come about the nodes behind one of level `level`. */
  function Pending(fs: FileSystem, o: Options, level: int, rest: seq<Node>): seq<Event>
    decreases rest
  {
    if rest == [] then []
    else
      (if rest[0].level < level then [Report(rest[0].(info := DP))]
       else Visit(fs, o, rest[0], Above(rest[0].level, rest[1..])))
      + Pending(fs, o, rest[0].level, rest[1..])
  }

  function Remaining(fs: FileSystem, o: Options, nodes: seq<Node>): seq<Event> {
    if nodes == [] then []
    else
      After(fs, o, nodes[0], Above(nodes[0].level, nodes[1..]))
      + Pending(fs, o, nodes[0].level, nodes[1..])
  }

  /** The walk that fts_open's arguments ask for. */
  function Walk(fs: FileSystem, o: Options, args: seq<Arg>): seq<Event> {
    VisitAll(fs, o, Roots(o, args), {})
  }

  lemma {:induction false} PendingRoots(fs: FileSystem, o: Options, args: seq<Arg>)
    ensures Pending(fs, o, 0, Roots(o, args)) == Walk(fs, o, args)
    decreases args
  {
    hide Visit, Root;
    if args != [] {
      assert Roots(o, args)[1..] == Roots(o, args[1..]);
      RootLevel(o, args[0]);
      RootsAbove(o, args[1..]);
      PendingRoots(fs, o, args[1..]);
    }
  }

  lemma {:induction false} RootLevel(o: Options, a: Arg)
    ensures Root(o, a.path, a.file).level == 0
  {
  }

  lemma {:induction false} RootsAbove(o: Options, args: seq<Arg>)
    ensures Above(0, Roots(o, args)) == {}
    decreases args
  {
    if args != [] {
      assert Roots(o, args)[1..] == Roots(o, args[1..]);
      RootsAbove(o, args[1..]);
    }
  }

  /** The children of a directory, in front of it in the list, are visited and then it is left. */
  lemma {:induction false} PendingChildren(fs: FileSystem, o: Options, nodes: seq<Node>, above: set<FileId>,
                                           cs: seq<Node>)
    requires nodes != [] && above == Above(nodes[0].level + 1, nodes)
    requires forall i | 0 <= i < |cs| :: cs[i].level == nodes[0].level + 1
    ensures Above(nodes[0].level + 1, cs + nodes) == above
    ensures Pending(fs, o, nodes[0].level + 1, cs + nodes)
         == VisitAll(fs, o, cs, above) + [Report(nodes[0].(info := DP))] + Pending(fs, o, nodes[0].level, nodes[1..])
    decreases cs
  {
    hide Visit, Report;
    if cs == [] {
      assert cs + nodes == nodes;
    } else {
      assert (cs + nodes)[1..] == cs[1..] + nodes;
      PendingChildren(fs, o, nodes, above, cs[1..]);
    }
  }

  lemma {:induction false} InsideSame(fs: FileSystem, o: Options, n: Node, m: Node, above: set<FileId>)
    requires m == n.(name := m.name)
    ensures After(fs, o, m, above) == After(fs, o, n, above)
  {
    if !(n.id !in fs || n.id in above) {
      var entries := Listing(fs, o, n);
      assert Children(o, n, above + {n.id}, entries) == Children(o, m, above + {n.id}, entries);
    }
  }

  /** What soundness says about the node behind the current one. */
  lemma {:induction false} Behind(s: Stream)
    requires Sound(s) && !s.stop && |s.nodes| > 1
    ensures var (n, p) := (s.nodes[0], s.nodes[1]);
            && 0 <= p.level <= n.level && (p.level < n.level ==> p.info == D && !p.errno)
            && (n.level > 0 ==> !s.blank)
  {
    HeadFacts(s.nodes[1..], s.size);
    assert Adjoin(s.nodes[0], s.nodes[1]);
  }

  /** The node at the front of a list, and the nodes behind it. */
  lemma {:induction false} FrontReports(fs: FileSystem, o: Options, n: Node, p: Node, rest: seq<Node>)
    requires p == n.(name := p.name)
    ensures Visit(fs, o, n, Above(n.level, rest)) + Pending(fs, o, n.level, rest)
         == [Report(n)] + Remaining(fs, o, [p] + rest)
  {
    hide After, Above, Pending;
    assert ([p] + rest)[1..] == rest;
    InsideSame(fs, o, n, p, Above(n.level, rest));
  }

  lemma {:induction false} PostReport(fs: FileSystem, o: Options, p: Node, rest: seq<Node>)
    requires p.info != D
    ensures [Report(p)] + Pending(fs, o, p.level, rest) == [Report(p)] + Remaining(fs, o, [p] + rest)
  {
    hide Above, Pending;
    assert ([p] + rest)[1..] == rest;
  }

  lemma {:induction false} AdvanceReports(fs: FileSystem, o: Options, s: Stream, named: File)
    requires Sound(s) && !s.stop && s.nodes != [] && NoInstructions(s.nodes)
    ensures var (s', got) := Advance(o, s, named);
            var pending := Pending(fs, o, s.nodes[0].level, s.nodes[1..]);
            && (got ==> s'.nodes != [] && pending == [Reported(s')] + Remaining(fs, o, s'.nodes))
            && (!got ==> s'.nodes == [] && pending == [])
            && NoInstructions(s'.nodes) && !s'.stop
  {
    hide Visit, BaseName, Above, Held, Followed, Sound, Remaining;
    var rest := s.nodes[1..];
    if rest != [] {
      Behind(s);
      var p := rest[0];
      var (s', got) := Advance(o, s, named);
      assert s'.nodes == [s'.nodes[0]] + rest[1..];
      if p.level == s.nodes[0].level {
        FrontReports(fs, o, p, s'.nodes[0], rest[1..]);
      } else {
        PostReport(fs, o, s'.nodes[0], rest[1..]);
      }
    }
  }

  lemma {:induction false} NotAbove(s: Stream)
    requires Sound(s) && !s.stop && s.nodes != [] && s.nodes[0].info == D
    ensures s.nodes[0].id !in Above(s.nodes[0].level, s.nodes[1..])
    ensures Above(s.nodes[0].level + 1, s.nodes) == Above(s.nodes[0].level, s.nodes[1..]) + {s.nodes[0].id}
  {
  }

  lemma {:induction false} InsideIs(fs: FileSystem, o: Options, n: Node, above: set<FileId>, cs: seq<Node>)
    requires n.id in fs && n.id !in above && n.info == D && cs != [] && Listing(fs, o, n) != []
    requires cs == Children(o, n, above + {n.id}, Listing(fs, o, n))
    ensures After(fs, o, n, above)
         == [Report(cs[0])] + After(fs, o, cs[0], above + {n.id})
            + VisitAll(fs, o, cs[1..], above + {n.id}) + [Report(n.(info := DP))]
  {
    hide Listing, Report, Children;
    VisitFirst(fs, o, cs, above + {n.id});
  }

  lemma {:induction false} VisitFirst(fs: FileSystem, o: Options, cs: seq<Node>, above: set<FileId>)
    requires cs != []
    ensures VisitAll(fs, o, cs, above) == [Report(cs[0])] + After(fs, o, cs[0], above) + VisitAll(fs, o, cs[1..], above)
  {
    hide Inside, Report, After;
  }

  lemma {:induction false} DescendChildren(fs: FileSystem, o: Options, nodes: seq<Node>, cs: seq<Node>)
    requires nodes != [] && cs != [] && nodes[0].id in fs && Listing(fs, o, nodes[0]) != []
    requires nodes[0].id !in Above(nodes[0].level, nodes[1..]) && nodes[0].info == D
    requires cs == Children(o, nodes[0], Above(nodes[0].level, nodes[1..]) + {nodes[0].id}, Listing(fs, o, nodes[0]))
    requires forall i | 0 <= i < |cs| :: cs[i].level == nodes[0].level + 1
    ensures Remaining(fs, o, nodes) == [Report(cs[0])] + Remaining(fs, o, cs + nodes)
  {
    var n := nodes[0];
    var above0 := Above(n.level, nodes[1..]);
    var above := above0 + {n.id};
    assert Above(n.level + 1, nodes) == above;
    hide *;
    var a, b, c := [Report(cs[0])], After(fs, o, cs[0], above), VisitAll(fs, o, cs[1..], above);
    var d, e := [Report(n.(info := DP))], Pending(fs, o, n.level, nodes[1..]);
    InsideIs(fs, o, n, above0, cs);
    RemainingAt(fs, o, nodes, []);
    PendingChildren(fs, o, nodes, above, cs[1..]);
    RemainingAt(fs, o, cs, nodes);
    Regroup(a, b, c, d, e);
    assert nodes[1..] + [] == nodes[1..] && nodes + [] == nodes;
  }

  lemma {:induction false} RemainingAt(fs: FileSystem, o: Options, cs: seq<Node>, nodes: seq<Node>)
    requires cs != []
    ensures Remaining(fs, o, cs + nodes)
         == After(fs, o, cs[0], Above(cs[0].level, cs[1..] + nodes)) + Pending(fs, o, cs[0].level, cs[1..] + nodes)
  {
    hide After, Pending, Above;
    assert (cs + nodes)[1..] == cs[1..] + nodes;
  }

  lemma {:induction false} Split<T>(s: seq<T>)
    requires s != []
    ensures s == [s[0]] + s[1..]
  {
  }

  lemma {:induction false} RemainingOf(fs: FileSystem, o: Options, n: Node, rest: seq<Node>)
    ensures Remaining(fs, o, [n] + rest) == After(fs, o, n, Above(n.level, rest)) + Pending(fs, o, n.level, rest)
  {
    hide After, Pending, Above;
    assert ([n] + rest)[1..] == rest;
  }

  lemma {:induction false} Regroup<T>(a: seq<T>, b: seq<T>, c: seq<T>, d: seq<T>, e: seq<T>)
    ensures (a + b + c + d) + e == a + (b + (c + d + e))
  {
  }

  lemma {:induction false} ChildrenFresh(o: Options, dir: Node, above: set<FileId>, entries: seq<Entry>)
    ensures forall i | 0 <= i < |entries| :: Children(o, dir, above, entries)[i].instr == NoInstr
    ensures forall i | 0 <= i < |entries| :: OwnType(Children(o, dir, above, entries)[i])
    ensures forall i | 0 <= i < |entries| :: Children(o, dir, above, entries)[i].level == dir.level + 1
  {
    hide Child;
    forall i | 0 <= i < |entries| {
      ChildOwn(o, dir, above, entries[i]);
    }
  }

  lemma {:induction false} ChildOwn(o: Options, dir: Node, above: set<FileId>, e: Entry)
    ensures var c := Child(o, dir, above, e);
            c.instr == NoInstr && OwnType(c) && c.level == dir.level + 1 && c.file == e.file
  {
  }

  /** A directory whose recorded identity is its own lists what the walk expects. */
  lemma {:induction false} OwnContents(fs: FileSystem, o: Options, n: Node)
    requires n.info == D && OwnType(n)
    ensures Readable(fs, n) <==> n.id in fs
    ensures n.id in fs ==> Contents(fs, o, n) == Listing(fs, o, n)
    ensures OwnType(n.(info := DP)) && OwnType(n.(info := DNR, errno := true)) && OwnType(n.(info := ERR))
  {
  }

  lemma {:induction false} DescendReports(fs: FileSystem, o: Options, s: Stream)
    requires Sound(s) && !s.stop && s.nodes != [] && NoInstructions(s.nodes) && s.nodes[0].info == D
    ensures var (s', got) := Descend(fs, o, s);
            && (got ==> s'.nodes != [] && Remaining(fs, o, s.nodes) == [Reported(s')] + Remaining(fs, o, s'.nodes))
            && (!got ==> s'.stop) && (got ==> NoInstructions(s'.nodes) && !s'.stop)
  {
    hide Held, MakeRoom, Pending, Above, After, Children, Listing, Remaining;
    var n := s.nodes[0];
    OwnContents(fs, o, n);
    var above := Above(n.level, s.nodes[1..]);
    var (s', got) := Descend(fs, o, s);
    NotAbove(s);
    if got {
      if n.id !in fs || Listing(fs, o, n) == [] {
        assert s'.nodes == [s'.nodes[0]] + s.nodes[1..];
        Split(s.nodes);
        LastReport(fs, o, n, above);
        LeafReports(fs, o, n, s'.nodes[0], s.nodes[1..], Reported(s'));
      } else {
        ChildrenFresh(o, n, above + {n.id}, Listing(fs, o, n));
        DescendChildren(fs, o, s.nodes, Children(o, n, above + {n.id}, Listing(fs, o, n)));
      }
    }
  }

  /** A directory with one report to come, and the nodes behind it. */
  lemma {:induction false} LeafReports(fs: FileSystem, o: Options, n: Node, n': Node, rest: seq<Node>, e: Event)
    requires n'.info != D && n'.level == n.level && After(fs, o, n, Above(n.level, rest)) == [e]
    ensures Remaining(fs, o, [n] + rest) == [e] + Remaining(fs, o, [n'] + rest)
  {
    hide After, Above, Pending, Remaining;
    RemainingOf(fs, o, n, rest);
    RemainingOf(fs, o, n', rest);
    NoMore(fs, o, n', Above(n.level, rest));
  }

  lemma {:induction false} NoMore(fs: FileSystem, o: Options, n: Node, above: set<FileId>)
    requires n.info != D
    ensures After(fs, o, n, above) == []
  {
  }

  /** A directory that cannot be read, or lists nothing, is reported once more. */
  lemma {:induction false} LastReport(fs: FileSystem, o: Options, n: Node, above: set<FileId>)
    requires n.info == D && n.id !in above
    ensures n.id !in fs ==> After(fs, o, n, above) == [Report(n.(info := DNR))]
    ensures n.id in fs && Listing(fs, o, n) == [] ==> After(fs, o, n, above) == [EmptyReport(n)]
  {
  }

  /** One read without instructions takes one report off the walk, or stops at a name that is too long. */
  lemma {:induction false} ReadReports(fs: FileSystem, o: Options, s: Stream)
    requires Sound(s) && !s.stop && NoInstructions(s.nodes)
    ensures var (s', got) := Read(fs, o, s);
            && (got ==> s'.nodes != [] && Remaining(fs, o, s.nodes) == [Reported(s')] + Remaining(fs, o, s'.nodes))
            && (got ==> !s'.stop && NoInstructions(s'.nodes))
            && (!got ==> s'.stop || (s'.nodes == [] && Remaining(fs, o, s.nodes) == []))
  {
    hide Descend, Advance, Pending, Above, Held, Inside;
    if s.nodes != [] {
      var p := s.nodes[0];
      assert p == p.(instr := NoInstr) && [p] + s.nodes[1..] == s.nodes;
      if p.info == D {
        DescendReports(fs, o, s);
      } else {
        NoMore(fs, o, p, Above(p.level, s.nodes[1..]));
        AdvanceReports(fs, o, s, p.file);
      }
    }
  }

  // ----- runs of reads -----

  function StateAfter(fs: FileSystem, o: Options, s: Stream, k: nat): Stream
    decreases k
  {
    if k == 0 then s else StateAfter(fs, o, Read(fs, o, s).0, k - 1)
  }

  /** What k reads report. */
  function Reads(fs: FileSystem, o: Options, s: Stream, k: nat): seq<Event>
    decreases k
  {
    if k == 0 then []
    else
      var (s', got) := Read(fs, o, s);
      (if got && s'.nodes != [] then [Reported(s')] else []) + Reads(fs, o, s', k - 1)
  }

  lemma {:induction false} FinishedForever(fs: FileSystem, o: Options, s: Stream, k: nat)
    requires s.nodes == [] || s.stop
    ensures StateAfter(fs, o, s, k) == s && Reads(fs, o, s, k) == []
    decreases k
  {
    if k > 0 {
      FinishedForever(fs, o, s, k - 1);
    }
  }

  lemma {:induction false} ReadsRemaining(fs: FileSystem, o: Options, s: Stream, k: nat)
    requires WellFormed(fs) && Sound(s) && !s.stop && NoInstructions(s.nodes)
    ensures Reads(fs, o, s, k) <= Remaining(fs, o, s.nodes)
    ensures var e := StateAfter(fs, o, s, k);
            k > |Remaining(fs, o, s.nodes)| && !e.stop ==>
              e.nodes == [] && Reads(fs, o, s, k) == Remaining(fs, o, s.nodes)
    decreases k
  {
    hide Read, Sound, Remaining, NoInstructions, Reported;
    if k > 0 {
      var (s', got) := Read(fs, o, s);
      ReadReports(fs, o, s);
      ReadKeepsSound(fs, o, s);
      if got {
        ReadsRemaining(fs, o, s', k - 1);
      } else {
        FinishedForever(fs, o, s', k - 1);
      }
    }
  }

  lemma {:induction false} OpenedFresh(o: Options, args: seq<Arg>)
    ensures NoInstructions(Opened(o, args).nodes)
  {
    hide FirstSize;
    forall i | 0 <= i < |args| ensures OwnType(Roots(o, args)[i]) && Roots(o, args)[i].instr == NoInstr {
      RootOwn(o, args[i]);
    }
  }

  lemma {:induction false} RootOwn(o: Options, a: Arg)
    ensures OwnType(Root(o, a.path, a.file)) && Root(o, a.path, a.file).instr == NoInstr
  {
  }

  /**
   With no comparison function and no instructions, on any directory graph: the reports of any number
   of reads are the first ones of the depth-first walk, and, unless the stream stops at a name that is
   too long, one read more than the walk has reports yields the whole walk and then NULL for ever.
   */
  lemma {:induction false} DepthFirst(fs: FileSystem, o: Options, args: seq<Arg>, k: nat)
    requires WellFormed(fs) && args != [] && AreStrings(args) && FirstSize(args) < USHRT_MAX
    ensures Reads(fs, o, Opened(o, args), k) <= Walk(fs, o, args)
    ensures var e := StateAfter(fs, o, Opened(o, args), k);
            k > |Walk(fs, o, args)| && !e.stop ==>
              e.nodes == [] && Reads(fs, o, Opened(o, args), k) == Walk(fs, o, args)
  {
    hide Reads, StateAfter, Walk, Pending, Sound, FirstSize, NoInstructions;
    OpenedSound(o, args);
    var s := Opened(o, args);
    PendingRoots(fs, o, args);
    RemainingOf(fs, o, DUMMY, Roots(o, args));
    NoMore(fs, o, DUMMY, Above(0, Roots(o, args)));
    OpenedFresh(o, args);
    ReadsRemaining(fs, o, s, k);
  }

  // ----- the text in the path buffer -----

  predicate Faithful(es: seq<Event>) {
    forall i | 0 <= i < |es| :: es[i].text == es[i].path
  }

  /** The root "/", when it lists nothing: its path is cleared from the buffer before its last report. */
  predicate Blanks(fs: FileSystem, o: Options, n: Node) {
    n.info == D && n.level == 0 && n.path == "/" && n.id in fs && Listing(fs, o, n) == []
  }

  lemma {:induction false} FaithfulJoin(a: seq<Event>, b: seq<Event>)
    ensures Faithful(a + b) <==> Faithful(a) && Faithful(b)
  {
    if Faithful(a + b) {
      forall i | 0 <= i < |a| ensures a[i].text == a[i].path { assert a[i] == (a + b)[i]; }
      forall i | 0 <= i < |b| ensures b[i].text == b[i].path { assert b[i] == (a + b)[|a| + i]; }
    }
  }

  lemma {:induction false} FaithfulOne(e: Event)
    ensures Faithful([e]) <==> e.text == e.path
  {
    if Faithful([e]) { assert [e][0].text == [e][0].path; }
  }

  /** The reports about a node below or at a root show its path, unless it is the root "/" and lists nothing. */
  lemma {:induction false} AfterText(fs: FileSystem, o: Options, n: Node, above: set<FileId>)
    requires n.level >= 0 && (n.info == D ==> n.id !in above)
    ensures Faithful(After(fs, o, n, above)) <==> !Blanks(fs, o, n)
    decreases |fs.Keys - above|, 0
  {
    hide Faithful;
    FaithfulOne(Report(n.(info := DP)));
    FaithfulOne(Report(n.(info := DNR)));
    FaithfulOne(EmptyReport(n));
    assert Faithful([]) by { FaithfulNone(); }
    if n.info == D && n.id in fs && Listing(fs, o, n) != [] {
      Smaller(fs, n.id, above);
      var cs := Children(o, n, above + {n.id}, Listing(fs, o, n));
      VisitAllText(fs, o, cs, above + {n.id});
      FaithfulJoin(VisitAll(fs, o, cs, above + {n.id}), [Report(n.(info := DP))]);
    }
  }

  lemma {:induction false} FaithfulNone()
    ensures Faithful([])
  {
  }

  lemma {:induction false} VisitAllText(fs: FileSystem, o: Options, nodes: seq<Node>, above: set<FileId>)
    requires forall i | 0 <= i < |nodes| :: nodes[i].level >= 0 && (nodes[i].info == D ==> nodes[i].id !in above)
    ensures Faithful(VisitAll(fs, o, nodes, above)) <==> forall i | 0 <= i < |nodes| :: !Blanks(fs, o, nodes[i])
    decreases |fs.Keys - above|, 1, |nodes|
  {
    hide Faithful, After, Blanks, Report;
    if nodes == [] {
      FaithfulNone();
    } else {
      var n := nodes[0];
      AfterText(fs, o, n, above);
      VisitAllText(fs, o, nodes[1..], above);
      FaithfulReport(n);
      FaithfulJoin([Report(n)], After(fs, o, n, above));
      FaithfulJoin(Visit(fs, o, n, above), VisitAll(fs, o, nodes[1..], above));
      assert forall i | 1 <= i < |nodes| :: nodes[i] == nodes[1..][i - 1];
    }
  }

  lemma {:induction false} FaithfulReport(n: Node)
    ensures Faithful([Report(n)])
  {
  }

  /** The buffer holds the path of the node at every report of the walk exactly if "/" is not an empty root. */
  lemma {:induction false} BufferHoldsPath(fs: FileSystem, o: Options, args: seq<Arg>)
    ensures Faithful(Walk(fs, o, args)) <==>
              forall i | 0 <= i < |args| :: !Blanks(fs, o, Root(o, args[i].path, args[i].file))
  {
    VisitAllText(fs, o, Roots(o, args), {});
  }

  /** An empty root directory "/" ends with an empty path in the buffer. */
  lemma {:induction false} EmptySlash(o: Options, id: FileId)
    ensures Walk(map[id := []], o, [Arg("/", Directory(id))]) == [Event(D, 0, "/", "/"), Event(DP, 0, "/", "")]
  {
    var fs: FileSystem := map[id := []];
    var n := Root(o, "/", Directory(id));
    assert n.info == D && n.id == id;
    LastReport(fs, o, n, {});
    assert Roots(o, [Arg("/", Directory(id))]) == [n];
    assert VisitAll(fs, o, [n], {}) == Visit(fs, o, n, {}) + VisitAll(fs, o, [], {});
  }

  // ----- paths of moderate length never stop the stream -----

  /** A path this long or shorter always finds room: fts_palloc at most doubles what was needed. */
  const SAFE_PATH: nat := 32638

  predicate Short(es: seq<Event>) {
    forall i | 0 <= i < |es| :: |es[i].path| <= SAFE_PATH
  }

  lemma {:induction false} RoomForShort(entries: seq<Entry>, len: nat, size: nat)
    requires size <= 2 * SAFE_PATH + 257 && forall i | 0 <= i < |entries| :: len + |entries[i].name| <= SAFE_PATH
    ensures MakeRoom(entries, len, size).ok && MakeRoom(entries, len, size).size <= 2 * SAFE_PATH + 257
    decreases entries
  {
    if entries != [] {
      var name := entries[0].name;
      RoomForShort(entries[1..], len, if |name| >= size - len then Enlarged(size, |name| + len + 1) else size);
    }
  }

  lemma {:induction false} VisitsEach(fs: FileSystem, o: Options, cs: seq<Node>, above: set<FileId>, i: nat)
    requires i < |cs|
    ensures Report(cs[i]) in VisitAll(fs, o, cs, above)
    decreases |cs|
  {
    hide After, Report;
    if i == 0 {
      assert Visit(fs, o, cs[0], above)[0] == Report(cs[0]);
    } else {
      VisitsEach(fs, o, cs[1..], above, i - 1);
    }
  }

  lemma {:induction false} DescendHasRoom(fs: FileSystem, o: Options, s: Stream)
    requires Sound(s) && !s.stop && s.nodes != [] && s.nodes[0].info == D && OwnType(s.nodes[0])
    requires Short(Remaining(fs, o, s.nodes)) && s.size <= 2 * SAFE_PATH + 257
    ensures !Descend(fs, o, s).0.stop && Descend(fs, o, s).0.size <= 2 * SAFE_PATH + 257
  {
    var n := s.nodes[0];
    var above := Above(n.level, s.nodes[1..]);
    NotAbove(s);
    OwnContents(fs, o, n);
    if n.id in fs {
      hide Sound, Held, Above, Pending, MakeRoom, Visible, Child;
      var entries := Listing(fs, o, n);
      var cs := Children(o, n, above + {n.id}, entries);
      forall i | 0 <= i < |entries| ensures |Prefix(n)| + 1 + |entries[i].name| <= SAFE_PATH {
        VisitsEach(fs, o, cs, above + {n.id}, i);
        assert Report(cs[i]) in After(fs, o, n, above);
        assert Report(cs[i]) in Remaining(fs, o, s.nodes);
        ChildPath(o, n, above + {n.id}, entries[i]);
      }
      RoomForShort(entries, |Prefix(n)| + 1, s.size);
    }
  }

  lemma {:induction false} ChildPath(o: Options, dir: Node, above: set<FileId>, e: Entry)
    ensures |Child(o, dir, above, e).path| == |Prefix(dir)| + 1 + |e.name|
  {
  }

  lemma {:induction false} AdvanceKeepsSize(o: Options, s: Stream, named: File)
    requires s.nodes != []
    ensures Advance(o, s, named).0.size == s.size && Advance(o, s, named).0.stop == s.stop
    decreases |s.nodes|
  {
    var rest := s.nodes[1..];
    if rest != [] && rest[0].level >= s.nodes[0].level && rest[0].level != 0 && rest[0].instr == Skip {
      AdvanceKeepsSize(o, s.(nodes := rest), named);
    }
  }

  lemma {:induction false} ShortNeverStops(fs: FileSystem, o: Options, s: Stream, k: nat)
    requires WellFormed(fs) && Sound(s) && !s.stop && NoInstructions(s.nodes)
    requires Short(Remaining(fs, o, s.nodes)) && s.size <= 2 * SAFE_PATH + 257
    ensures !StateAfter(fs, o, s, k).stop
    decreases k
  {
    hide Sound, Remaining, Descend, Advance, Followed;
    if k > 0 {
      ReadReports(fs, o, s);
      ReadKeepsSound(fs, o, s);
      if s.nodes != [] {
        assert s.nodes[0] == s.nodes[0].(instr := NoInstr) && [s.nodes[0]] + s.nodes[1..] == s.nodes;
        if s.nodes[0].info == D {
          DescendHasRoom(fs, o, s);
        } else {
          AdvanceKeepsSize(o, s, s.nodes[0].file);
        }
      }
      var (s', got) := Read(fs, o, s);
      if got {
        var es := Remaining(fs, o, s.nodes);
        assert forall i | 0 <= i < |Remaining(fs, o, s'.nodes)| :: Remaining(fs, o, s'.nodes)[i] == es[i + 1];
        ShortNeverStops(fs, o, s', k - 1);
      } else {
        FinishedForever(fs, o, s', k - 1);
      }
    }
  }

  /** A walk none of whose paths has more than 32638 characters is carried out to its end. */
  lemma {:induction false} ShortWalkCompletes(fs: FileSystem, o: Options, args: seq<Arg>, k: nat)
    requires WellFormed(fs) && args != [] && AreStrings(args) && Short(Walk(fs, o, args)) && k > |Walk(fs, o, args)|
    ensures FirstSize(args) < USHRT_MAX
    ensures StateAfter(fs, o, Opened(o, args), k).nodes == [] && Reads(fs, o, Opened(o, args), k) == Walk(fs, o, args)
  {
    hide Reads, StateAfter, Pending, Sound, LongestArg, After, Roots, NoInstructions;
    forall i: nat | i < |args| ensures |args[i].path| <= SAFE_PATH {
      VisitsEach(fs, o, Roots(o, args), {}, i);
      assert Report(Roots(o, args)[i]).path == args[i].path;
    }
    LongestAtMost(args, SAFE_PATH);
    OpenedSound(o, args);
    var s := Opened(o, args);
    PendingRoots(fs, o, args);
    RemainingOf(fs, o, DUMMY, Roots(o, args));
    NoMore(fs, o, DUMMY, Above(0, Roots(o, args)));
    OpenedFresh(o, args);
    ShortNeverStops(fs, o, s, k);
    DepthFirst(fs, o, args, k);
  }

  lemma {:induction false} LongestAtMost(args: seq<Arg>, m: nat)
    requires forall i: nat | i < |args| :: |args[i].path| <= m
    ensures LongestArg(args) <= m
    decreases args
  {
    if args != [] {
      assert |args[0].path| <= m;
      forall i: nat | i < |args[1..]| ensures |args[1..][i].path| <= m { assert |args[i + 1].path| <= m; }
      LongestAtMost(args[1..], m);
    }
  }
}
