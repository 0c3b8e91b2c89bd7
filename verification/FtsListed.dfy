/**
 What the depth-first walk of fts shows of a directory, in terms of the entries that the directory lists:
 which of them, in what order, under what path and with what type.
 */
module FtsListed {
  import opened FtsWalk
  import opened FtsRuns

  /** The report on a directory that is left, or could not be read: it has been reported before. */
  predicate IsSecond(info: Info) {
    info == DP || info == DNR
  }

  /** The first reports on the nodes of one level. */
  function FirstAt(level: int, es: seq<Event>): seq<Event> {
    if es == [] then []
    else (if es[0].level == level && !IsSecond(es[0].info) then [es[0]] else []) + FirstAt(level, es[1..])
  }

  lemma {:induction false} FirstJoin(level: int, a: seq<Event>, b: seq<Event>)
    ensures FirstAt(level, a + b) == FirstAt(level, a) + FirstAt(level, b)
    decreases a
  {
    if a == [] {
      assert a + b == b;
    } else {
      assert (a + b)[1..] == a[1..] + b;
      FirstJoin(level, a[1..], b);
    }
  }

  lemma {:induction false} FirstOne(level: int, e: Event)
    ensures FirstAt(level, [e]) == if e.level == level && !IsSecond(e.info) then [e] else []
  {
    assert [e][1..] == [];
  }

  function Reports(nodes: seq<Node>): (r: seq<Event>)
    ensures |r| == |nodes| && forall i | 0 <= i < |nodes| :: r[i] == Report(nodes[i])
  {
    seq(|nodes|, i requires 0 <= i < |nodes| => Report(nodes[i]))
  }

  /** What is reported about a directory after its first visit is below it, or its last report. */
  lemma {:induction false} InsideIsBelow(fs: FileSystem, o: Options, n: Node, above: set<FileId>, level: int)
    requires level <= n.level
    ensures FirstAt(level, Inside(fs, o, n, above)) == []
    decreases |fs.Keys - above|, 0
  {
    hide FirstAt, Children, Visible;
    FirstOne(level, Report(n.(info := DNR)));
    FirstOne(level, EmptyReport(n));
    FirstOne(level, Report(n.(info := DP)));
    if n.id in fs && n.id !in above && Listing(fs, o, n) != [] {
      Smaller(fs, n.id, above);
      var cs := Children(o, n, above + {n.id}, Listing(fs, o, n));
      VisitsAreBelow(fs, o, cs, above + {n.id}, level);
      FirstJoin(level, VisitAll(fs, o, cs, above + {n.id}), [Report(n.(info := DP))]);
    }
  }

  lemma {:induction false} VisitsAreBelow(fs: FileSystem, o: Options, nodes: seq<Node>, above: set<FileId>, level: int)
    requires forall i | 0 <= i < |nodes| :: nodes[i].level > level
    ensures FirstAt(level, VisitAll(fs, o, nodes, above)) == []
    decreases |fs.Keys - above|, 1, |nodes|
  {
    if nodes != [] {
      VisitFirsts(fs, o, nodes[0], above, level);
      VisitsAreBelow(fs, o, nodes[1..], above, level);
      hide FirstAt, Inside;
      FirstJoin(level, Visit(fs, o, nodes[0], above), VisitAll(fs, o, nodes[1..], above));
    }
  }

  lemma {:induction false} VisitFirsts(fs: FileSystem, o: Options, n: Node, above: set<FileId>, level: int)
    requires level <= n.level
    ensures FirstAt(level, Visit(fs, o, n, above)) == FirstAt(level, [Report(n)])
    decreases |fs.Keys - above|, 1, 0
  {
    hide FirstAt, Inside;
    FirstNone(level);
    if n.info == D {
      InsideIsBelow(fs, o, n, above, level);
    }
    FirstJoin(level, [Report(n)], After(fs, o, n, above));
  }

  lemma {:induction false} FirstNone(level: int)
    ensures FirstAt(level, []) == []
  {
  }

  /** The first reports of a list of nodes of one level are the reports of these nodes, in order. */
  lemma {:induction false} VisitsInOrder(fs: FileSystem, o: Options, nodes: seq<Node>, above: set<FileId>, level: int)
    requires forall i | 0 <= i < |nodes| :: nodes[i].level == level && !IsSecond(nodes[i].info)
    ensures FirstAt(level, VisitAll(fs, o, nodes, above)) == Reports(nodes)
    decreases nodes
  {
    if nodes == [] {
      FirstNone(level);
    } else {
      VisitFirsts(fs, o, nodes[0], above, level);
      FirstOne(level, Report(nodes[0]));
      VisitsInOrder(fs, o, nodes[1..], above, level);
      hide FirstAt, Inside;
      FirstJoin(level, Visit(fs, o, nodes[0], above), VisitAll(fs, o, nodes[1..], above));
      assert Reports(nodes) == [Report(nodes[0])] + Reports(nodes[1..]);
    }
  }

  // ----- the entries that are reported, and their types -----

  /** All entries but "." and ".."; these as well with FTS_SEEDOT. */
  function Kept(o: Options, entries: seq<Entry>): seq<Entry> {
    if entries == [] then []
    else
      var e := entries[0];
      (if o.seeDot || (e.name != "." && e.name != "..") then [e] else []) + Kept(o, entries[1..])
  }

  lemma {:induction false} KeptIsVisible(o: Options, entries: seq<Entry>)
    ensures Visible(o, entries) == Kept(o, entries)
    decreases entries
  {
    if entries != [] {
      KeptIsVisible(o, entries[1..]);
    }
  }

  /**
   The type of a file, seen through links or not, below the directories `above`; `dots` says that its name is
   "." or "..".
   */
  predicate RightType(through: bool, dots: bool, file: File, above: set<FileId>, info: Info) {
    var seen := if through then Resolve(file) else file;
    && (info == F <==> seen.Regular?)
    && (info == DEFAULT <==> seen.Special?)
    && (info == SL <==> seen.Link?)
    && (info == NS <==> file.Absent?)
    && (info == SLNONE <==> seen.Absent? && file.Link?)
    && (info == DOT <==> seen.Directory? && dots)
    && (info == DC <==> seen.Directory? && !dots && seen.id in above)
    && (info == D <==> seen.Directory? && !dots && seen.id !in above)
  }

  lemma {:induction false} StatIsRight(o: Options, follow: bool, name: string, f: File, above: set<FileId>)
    ensures RightType(o.logical || follow, name == "." || name == "..", f, above, Stat(o, follow, name, f, above))
  {
    if !f.Link? {
      assert Resolve(f) == f;
    }
  }

  /**
   A directory that can be read and is not open already: its entries, but "." and ".." unless FTS_SEEDOT asks
   for them, are reported in the order of the listing, each under the directory's path and its own name,
   and with its own type; only "." and ".." are ever FTS_DOT.
   */
  lemma {:induction false} ListingReported(fs: FileSystem, o: Options, n: Node, above: set<FileId>)
    requires n.id in fs && n.id !in above
    ensures var es := FirstAt(n.level + 1, Inside(fs, o, n, above));
            var kept := Kept(o, fs[n.id]);
            var base := if n.level == 0 && n.path == "/" then "" else n.path;
            && |es| == |kept|
            && forall i | 0 <= i < |kept| ::
                 && es[i].path == base + "/" + kept[i].name
                 && RightType(o.logical, kept[i].name == "." || kept[i].name == "..", kept[i].file, above + {n.id},
                              es[i].info)
  {
    hide FirstAt, Visible, Children, Kept;
    var level := n.level + 1;
    var entries := Listing(fs, o, n);
    KeptIsVisible(o, fs[n.id]);
    FirstOne(level, EmptyReport(n));
    if entries != [] {
      Smaller(fs, n.id, above);
      var cs := Children(o, n, above + {n.id}, entries);
      forall i | 0 <= i < |cs|
        ensures cs[i].level == level && !IsSecond(cs[i].info)
        ensures RightType(o.logical, entries[i].name == "." || entries[i].name == "..", entries[i].file, above + {n.id},
                          cs[i].info)
      {
        StatIsRight(o, false, entries[i].name, entries[i].file, above + {n.id});
      }
      VisitsInOrder(fs, o, cs, above + {n.id}, level);
      FirstOne(level, Report(n.(info := DP)));
      FirstJoin(level, VisitAll(fs, o, cs, above + {n.id}), [Report(n.(info := DP))]);
    }
  }

  /** The arguments of fts_open are reported in order, under their own paths and with their own types. */
  lemma {:induction false} ArgumentsReported(fs: FileSystem, o: Options, args: seq<Arg>)
    ensures var es := FirstAt(0, Walk(fs, o, args));
            && |es| == |args|
            && forall i | 0 <= i < |args| ::
                 es[i].path == args[i].path && RightType(o.logical || o.comFollow, false, args[i].file, {}, es[i].info)
  {
    hide FirstAt, Stat;
    var roots := Roots(o, args);
    forall i | 0 <= i < |roots|
      ensures roots[i].level == 0 && !IsSecond(roots[i].info) && roots[i].path == args[i].path
      ensures RightType(o.logical || o.comFollow, false, args[i].file, {}, roots[i].info)
    {
      StatIsRight(o, o.comFollow, args[i].path, args[i].file, {});
    }
    VisitsInOrder(fs, o, roots, {}, 0);
  }

  /** A file whose name only starts with a dot is reported like any other. */
  lemma {:induction false} DotFile(id: FileId)
    ensures var (o, fs) := (Options(false, false, false), map[id := [Entry(".profile", Regular)]]);
            Walk(fs, o, [Arg("r", Directory(id))])
            == [Event(D, 0, "r", "r"), Event(F, 1, "r/.profile", "r/.profile"), Event(DP, 0, "r", "r")]
  {
    var (o, e) := (Options(false, false, false), Entry(".profile", Regular));
    var fs: FileSystem := map[id := [e]];
    var n := Root(o, "r", Directory(id));
    var c := Child(o, n, {id}, e);
    assert n == Node(0, "r", "r", Directory(id), id, D, NoInstr, false);
    assert "r" + "/" + ".profile" == "r/.profile";
    assert c == Node(1, "r/.profile", ".profile", Regular, NO_ID, F, NoInstr, false);
    OneVisible(o, e);
    OneVisit(fs, o, c, {id});
    OneVisit(fs, o, n, {});
    assert Children(o, n, {id}, [e]) == [c];
    assert {} + {id} == {id};
    assert Inside(fs, o, n, {}) == [Report(c)] + [Report(n.(info := DP))];
    assert Roots(o, [Arg("r", Directory(id))]) == [n];
  }

  lemma {:induction false} OneVisible(o: Options, e: Entry)
    requires e.name != "." && e.name != ".."
    ensures Visible(o, [e]) == [e]
  {
    assert [e][1..] == [];
  }

  lemma {:induction false} OneVisit(fs: FileSystem, o: Options, n: Node, above: set<FileId>)
    ensures VisitAll(fs, o, [n], above) == [Report(n)] + After(fs, o, n, above)
  {
    hide Inside;
    assert [n][1..] == [];
    assert VisitAll(fs, o, [], above) == [];
  }
}
