/**
 Applications of the fts stream, from fts_open to fts_close: what they are shown is what the machine
 reports, and at the end every node has been freed, and none twice.
 */
module FtsClient {
  import opened FtsWalk
  import opened FtsRuns
  import opened FtsEnds
  import opened Fts

  /** What an application sees of a node: its type, its depth, and the string in the path buffer. */
  datatype Seen = Seen(info: Info, level: int, text: string)

  function Shown(e: Event): Seen {
    Seen(e.info, e.level, e.text)
  }

  function ShownAll(es: seq<Event>): (r: seq<Seen>)
    ensures |r| == |es|
    ensures forall i | 0 <= i < |es| :: r[i] == Shown(es[i])
  {
    seq(|es|, i requires 0 <= i < |es| => Shown(es[i]))
  }

  /** What the reads of a run report. */
  function Answers(fs: FileSystem, o: Options, s: Stream, actions: seq<Action>): seq<Event>
    decreases actions
  {
    if actions == [] then []
    else
      var s' := Do(fs, o, s, actions[0]);
      (if actions[0].Next? && FtsWalk.Read(fs, o, s).1 && s'.nodes != [] then [Reported(s')] else [])
      + Answers(fs, o, s', actions[1..])
  }

  // ----- finding a node by its place in the list -----

  /** From the node at place k, or from the parent of the roots behind the last one. */
  lemma {:induction false} PlaceAt(ents: map<nat, Ent>, ids: seq<nat>, nodes: seq<Node>, root: nat, size: nat, k: nat)
    requires Linked(ents, ids, nodes, root) && Held(nodes, size) && Keys(ents, ids, [], root) && k <= |ids|
    ensures var p := PtrAt(ids, root, k).id;
            && p in ents && (ents[p].level >= 0 <==> k < |ids|)
            && (k < |ids| ==> (if ents[p].link.To? then ents[p].link else ents[p].parent) == PtrAt(ids, root, k + 1))
  {
    hide Linked, Held, EntIs, Keys;
    RootKey(ents, ids, [], root);
    if k < |ids| {
      LinkedSuffix(ents, ids, nodes, root, k);
      HeldSuffix(nodes, size, k);
      NextPtr(ents, ids[k..], nodes[k..], root, size);
      HeadIs(ents, ids[k..], nodes[k..], root);
      NodeFacts(nodes[k..], size);
      SameId(ents[ids[k]], nodes[k]);
      assert ids[k..][1..] == ids[k + 1..];
    }
  }

  /** The node at place i of the list, by following links and, at the end of a directory, parents. */
  method NodeAt(st: FtsStream, i: nat) returns (p: Ptr)
    requires st.Valid()
    ensures p == if i < |st.ids| then To(st.ids[i]) else Nil
  {
    hide Held, Linked, Keys, Distinct, FreedOrLive, WellFormed;
    if st.cur.Nil? {
      return Nil;
    }
    var q: nat := st.cur.id;
    var k := 0;
    PlaceAt(st.ents, st.ids, st.nodes, st.root, st.pathlen, 0);
    while k < i && st.ents[q].level >= 0
      invariant 0 <= k <= i && k <= |st.ids| && q in st.ents && To(q) == PtrAt(st.ids, st.root, k)
      invariant st.ents[q].level >= 0 <==> k < |st.ids|
      decreases i - k
    {
      PlaceAt(st.ents, st.ids, st.nodes, st.root, st.pathlen, k);
      q := if st.ents[q].link.To? then st.ents[q].link.id else st.ents[q].parent.id;
      k := k + 1;
      PlaceAt(st.ents, st.ids, st.nodes, st.root, st.pathlen, k);
    }
    return if st.ents[q].level >= 0 then To(q) else Nil;
  }

  // ----- a whole session -----

  /** One action of the application, and what it is shown. */
  method Act(st: FtsStream, a: Action) returns (seen: seq<Seen>)
    requires st.Valid()
    modifies st
    ensures st.Valid() && st.View() == Do(st.fs, st.o, old(st.View()), a)
    ensures seen == ShownAll(Answers(st.fs, st.o, old(st.View()), [a]))
  {
    hide Held, Linked, Keys, Distinct, FreedOrLive, WellFormed, EntIs, FtsWalk.Read, CString;
    assert [a][1..] == [];
    seen := [];
    match a
    case Next =>
      var p := st.Read();
      if p.To? {
        HeadIs(st.ents, st.ids, st.nodes, st.root);
        SameId(st.ents[p.id], st.nodes[0]);
        seen := [Seen(st.ents[p.id].info, st.ents[p.id].level, CString(st.path))];
      }
    case SetInstr(i, instr) =>
      var p := NodeAt(st, i);
      if st.cur.To? {
        ListLength(st.ents, st.ids, st.nodes, st.root);
      }
      if p.To? {
        st.Set(p.id, instr, i);
      }
  }

  lemma {:induction false} AnswersFirst(fs: FileSystem, o: Options, s: Stream, actions: seq<Action>)
    requires actions != []
    ensures Answers(fs, o, s, actions)
         == Answers(fs, o, s, [actions[0]]) + Answers(fs, o, Do(fs, o, s, actions[0]), actions[1..])
  {
    hide Do, FtsWalk.Read, Reported;
    assert [actions[0]][1..] == [];
  }

  /**
   fts_open, any reads and instructions, and fts_close.  The application is shown what the machine
   reports, nothing is left allocated, and every node that there ever was has been freed.
   */
  method Session(fs: FileSystem, o: Options, args: seq<Arg>, actions: seq<Action>)
    returns (ok: bool, seen: seq<Seen>, st: FtsStream)
    requires WellFormed(fs) && args != [] && AreStrings(args)
    ensures ok <==> FirstSize(args) < USHRT_MAX
    ensures seen == if ok then ShownAll(Answers(fs, o, Opened(o, args), actions)) else []
    ensures st.ents == map[] && forall x: nat :: x in st.freed <==> x < st.next
  {
    hide Held, Linked, Keys, Distinct, FreedOrLive, WellFormed, Opened, Answers, Do, Sound;
    st := new FtsStream(fs, o);
    seen := [];
    Freed(st.freed, st.ents.Keys, st.next);
    ok := st.Open(args);
    if ok {
      ghost var all, events := Answers(fs, o, Opened(o, args), actions), [];
      assert actions[0..] == actions;
      for j := 0 to |actions|
        invariant st.Valid() && st.fs == fs && st.o == o
        invariant all == events + Answers(fs, o, st.View(), actions[j..]) && seen == ShownAll(events)
      {
        AnswersFirst(fs, o, st.View(), actions[j..]);
        assert actions[j..][1..] == actions[j + 1..];
        events := events + Answers(fs, o, st.View(), [actions[j]]);
        var more := Act(st, actions[j]);
        seen := seen + more;
      }
      NoAnswers(fs, o, st.View());
      assert actions[|actions|..] == [];
      st.Close();
    }
  }

  lemma {:induction false} NoAnswers(fs: FileSystem, o: Options, s: Stream)
    ensures Answers(fs, o, s, []) == []
  {
  }

  // ----- a walk without instructions -----

  function Nexts(k: nat): (r: seq<Action>)
    ensures |r| == k
  {
    seq(k, _ => Next)
  }

  lemma {:induction false} AnswersAreReads(fs: FileSystem, o: Options, s: Stream, k: nat)
    ensures Answers(fs, o, s, Nexts(k)) == Reads(fs, o, s, k)
    decreases k
  {
    hide FtsWalk.Read, Reported;
    if k > 0 {
      assert Nexts(k)[1..] == Nexts(k - 1);
      AnswersAreReads(fs, o, FtsWalk.Read(fs, o, s).0, k - 1);
    }
  }

  /**
   fts_open, k reads and fts_close, on any directory graph: what is shown is the beginning of the
   depth-first walk, and all of it if there are more reads than it has reports and the stream does not
   stop at a name that is too long.  Every node is freed once.
   */
  method WalkTree(fs: FileSystem, o: Options, args: seq<Arg>, k: nat) returns (ok: bool, seen: seq<Seen>, st: FtsStream)
    requires WellFormed(fs) && args != [] && AreStrings(args)
    ensures ok <==> FirstSize(args) < USHRT_MAX
    ensures ok ==> seen == ShownAll(Reads(fs, o, Opened(o, args), k)) && seen <= ShownAll(Walk(fs, o, args))
    ensures ok && k > |Walk(fs, o, args)| && !StateAfter(fs, o, Opened(o, args), k).stop ==>
              seen == ShownAll(Walk(fs, o, args))
    ensures st.ents == map[] && forall x: nat :: x in st.freed <==> x < st.next
  {
    hide WellFormed, Opened, Answers, Reads, Walk, StateAfter;
    ok, seen, st := Session(fs, o, args, Nexts(k));
    AnswersAreReads(fs, o, Opened(o, args), k);
    if ok {
      DepthFirst(fs, o, args, k);
    }
  }
}
