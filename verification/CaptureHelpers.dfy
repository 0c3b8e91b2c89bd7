/**
 The generic copy and dispose helpers (HelperBase in libclosure/runtime.cpp) and the code around
 them that cleans up when a helper throws (generic_helpers.c).  The helper steps its decoder, its
 capture pointers and its counter in place; what it does to each capture is appended to a log.
 Copying or disposing of a capture may throw at any capture in `fails`.
 */
module CaptureHelpers {
  import opened CaptureLayout

  datatype Act =
    | Copied(c: Capture, src: nat)   // a capture acquired into the destination, from offset src of the source
    | Disposed(c: Capture)           // a dispose attempted, whether or not it throws
    | CustomCopy
    | CustomDispose
    | Freed                          // free(block)

  // ----- lists of captures and where a walk over them stops -----

  /** The index of the first capture at an offset in `stop`, or the length of the list. */
  function FirstAt(cs: seq<Capture>, stop: set<nat>): (n: nat)
    ensures n <= |cs|
    ensures forall i | 0 <= i < n :: cs[i].offset !in stop
    ensures n < |cs| ==> cs[n].offset in stop
  {
    if cs == [] || cs[0].offset in stop then 0 else 1 + FirstAt(cs[1..], stop)
  }

  function Copies(cs: seq<Capture>): (r: seq<Act>)
    ensures |r| == |cs|
  {
    seq(|cs|, i requires 0 <= i < |cs| => Copied(cs[i], cs[i].offset))
  }

  function Disposals(cs: seq<Capture>): (r: seq<Act>)
    ensures |r| == |cs|
  {
    seq(|cs|, i requires 0 <= i < |cs| => Disposed(cs[i]))
  }

  lemma {:induction false} CopiesAppend(a: seq<Capture>, b: seq<Capture>)
    ensures Copies(a + b) == Copies(a) + Copies(b)
    ensures Disposals(a + b) == Disposals(a) + Disposals(b)
  {
  }

  // ----- the state of a walk in progress -----

  /** What is left of a walk at pair k of which c captures are done, the capture pointer being at off. */
  function Rest(ps: seq<Pair>, k: nat, c: nat, off: nat): seq<Capture>
    requires k <= |ps| && (k < |ps| ==> c <= ps[k].count)
  {
    if k == |ps| then []
    else if IsObject(ps[k].opcode) then
      Run(KindOf(ps[k].opcode), ps[k].count - c, off) + Walk(ps[k + 1..], off + POINTER_SIZE * (ps[k].count - c))
    else Walk(ps[k..], off)
  }

  lemma {:induction false} RestAtPair(ps: seq<Pair>, k: nat, off: nat)
    requires k <= |ps|
    ensures Rest(ps, k, 0, off) == Walk(ps[k..], off)
    ensures k < |ps| ==> Rest(ps, k, 0, off) == Captures(ps[k], off) + Rest(ps, k + 1, 0, off + Width(ps[k]))
  {
    if k < |ps| {
      assert ps[k..][1..] == ps[k + 1..];
      if k + 1 < |ps| {
        assert ps[k + 1..][0] == ps[k + 1] && ps[k + 1..][1..] == ps[k + 2..];
      }
    }
  }

  class Helper {
    const layout: Layout
    var pos: int
    var capptr: nat
    var srccapptr: nat
    var capcounter: nat
    var acts: seq<Act>

    constructor (l: Layout)
      requires WellFormed(l)
      ensures layout == l && acts == []
    {
      layout := l;
      pos, capptr, srccapptr, capcounter, acts := 0, 0, 0, 0, [];
    }

    ghost function All(): seq<Capture>
      requires WellFormed(layout)
    {
      CapturesOf(layout)
    }

    /** The decoder is at pair k, of which capcounter captures are done. */
    ghost predicate At(k: nat)
      reads this
    {
      WellFormed(layout) && k <= |Pairs(layout)| && pos == PosAt(layout, k) &&
      (if k < |Pairs(layout)| then capcounter <= Pairs(layout)[k].count else capcounter == 0) &&
      (k < |Pairs(layout)| && !IsObject(Pairs(layout)[k].opcode) ==> capcounter == 0)
    }

    ghost function Left(k: nat): seq<Capture>
      requires At(k)
      reads this
    {
      Rest(Pairs(layout), k, capcounter, capptr)
    }

    method InitState()
      requires WellFormed(layout)
      modifies this`pos, this`capcounter, this`capptr
      ensures At(0) && capcounter == 0 && capptr == FIRST_CAPTURE && Left(0) == All()
    {
      pos := InitPos(layout);
      capcounter := 0;
      capptr := FIRST_CAPTURE;
      RestAtPair(Pairs(layout), 0, FIRST_CAPTURE);
      assert Pairs(layout)[0..] == Pairs(layout);
    }

    method NextState()
      modifies this`pos, this`capcounter
      ensures pos == NextPos(layout, old(pos)) && capcounter == 0
    {
      pos := NextPos(layout, pos);
      capcounter := 0;
    }

    /** copyCapture: a run of captures of one kind, up to the first that throws. */
    method CopyCapture(kind: Kind, count: nat, fails: set<nat>) returns (threw: bool)
      requires capcounter == 0 && srccapptr == capptr
      modifies this`capcounter, this`capptr, this`srccapptr, this`acts
      ensures capcounter <= count && (threw <==> capcounter < count)
      ensures capptr == srccapptr == old(capptr) + POINTER_SIZE * capcounter
      ensures acts == old(acts) + Copies(Run(kind, capcounter, old(capptr)))
      ensures forall i: nat | i < capcounter :: old(capptr) + POINTER_SIZE * i !in fails
      ensures threw ==> capptr in fails
    {
      hide Run, Copies;
      threw := false;
      RunGrows(kind, 0, capptr);
      while capcounter < count
        invariant 0 <= capcounter <= count
        invariant capptr == srccapptr == old(capptr) + POINTER_SIZE * capcounter
        invariant acts == old(acts) + Copies(Run(kind, capcounter, old(capptr)))
        invariant forall i: nat | i < capcounter :: old(capptr) + POINTER_SIZE * i !in fails
      {
        if capptr in fails {
          threw := true;
          return;
        }
        acts := acts + [Copied(Capture(kind, capptr), srccapptr)];
        RunGrows(kind, capcounter, old(capptr));
        capptr := capptr + POINTER_SIZE;
        srccapptr := srccapptr + POINTER_SIZE;
        capcounter := capcounter + 1;
      }
    }

    /**
     disposeCapture: the rest of a run of captures of one kind.  It stops early at the capture at
     endptr, without touching it; a dispose that throws has been attempted, and leaves the pointer on it.
     */
    method DisposeCapture(kind: Kind, count: nat, endptr: int, fails: set<nat>) returns (threw: bool, early: bool)
      requires capcounter <= count
      modifies this`capcounter, this`capptr, this`acts
      ensures old(capcounter) <= capcounter <= count && (capcounter < count <==> threw || early) && !(threw && early)
      ensures capptr == old(capptr) + POINTER_SIZE * (capcounter - old(capcounter))
      ensures var n := capcounter - old(capcounter) + if threw then 1 else 0;
              acts == old(acts) + Disposals(Run(kind, n, old(capptr)))
      ensures forall i: nat | i < capcounter - old(capcounter) ::
                old(capptr) + POINTER_SIZE * i !in fails && old(capptr) + POINTER_SIZE * i != endptr
      ensures threw ==> capptr in fails && capptr != endptr
      ensures early ==> capptr == endptr
    {
      hide Run, Disposals;
      threw, early := false, false;
      ghost var c0 := capcounter;
      RunGrows(kind, 0, capptr);
      while capcounter < count
        invariant c0 <= capcounter <= count
        invariant capptr == old(capptr) + POINTER_SIZE * (capcounter - c0)
        invariant acts == old(acts) + Disposals(Run(kind, capcounter - c0, old(capptr)))
        invariant forall i: nat | i < capcounter - c0 ::
          old(capptr) + POINTER_SIZE * i !in fails && old(capptr) + POINTER_SIZE * i != endptr
      {
        if capptr == endptr {
          early := true;
          return;
        }
        acts := acts + [Disposed(Capture(kind, capptr))];
        RunGrows(kind, capcounter - c0, old(capptr));
        if capptr in fails {
          threw := true;
          return;
        }
        capptr := capptr + POINTER_SIZE;
        capcounter := capcounter + 1;
      }
    }

    /** copyBlock: every capture in order, up to the first that throws, on which the pointer is left. */
    method CopyBlock(fails: set<nat>) returns (threw: bool)
      requires WellFormed(layout)
      modifies this
      ensures var n := FirstAt(All(), fails);
              && acts == old(acts) + Copies(All()[..n])
              && (threw <==> n < |All()|)
              && (threw ==> capptr == All()[n].offset)
    {
      hide Run, Copies, Rest, Walk, Pairs, Decode, PosAt, InRange, Captures, CapturesOf, FirstAt;
      InitState();
      srccapptr := FIRST_CAPTURE;
      ghost var k: nat, n: nat := 0, 0;
      assert Copies(All()[..0]) == [];
      assert All()[0..] == All();
      while true
        invariant At(k) && capcounter == 0 && srccapptr == capptr
        invariant n <= |All()| && Left(k) == All()[n..]
        invariant forall i | 0 <= i < n :: All()[i].offset !in fails
        invariant acts == old(acts) + Copies(All()[..n])
        decreases |Pairs(layout)| - k
      {
        DecodeAt(layout, k);
        var p := Decode(layout, pos);
        if p.opcode == BCK_DONE {
          LeftNothing(Pairs(layout), capptr);
          FirstAtIs(All(), fails, n);
          return false;
        }
        RestAtPair(Pairs(layout), k, capptr);
        StepDecoder(layout, k);
        ghost var off, rest := capptr, Rest(Pairs(layout), k + 1, 0, capptr + Width(p));
        if IsObject(p.opcode) {
          ghost var kind := KindOf(p.opcode);
          CapturesAre(p, off);
          threw := CopyCapture(KindOf(p.opcode), p.count, fails);
          Entering(All(), n, kind, p.count, capcounter, off, rest);
          CopiedSlice(All(), n, kind, p.count, capcounter, off, rest);
          assert !threw ==> Run(kind, 0, capptr) + rest == rest;
          n := n + capcounter;
          if threw {
            FirstAtIs(All(), fails, n);
            return;
          }
        } else {
          CapturesAre(p, off);
          capptr := capptr + Width(p);
          srccapptr := srccapptr + Width(p);
        }
        NextState();
        k := k + 1;
      }
    }

    // The object case of the destroy loop: the rest of pair k, from capture n of the list onwards.
    method DestroyRun(p: Pair, endptr: int, fails: set<nat>, ghost k: nat, ghost todo: seq<Capture>, ghost n: nat)
      returns (threw: bool, early: bool, ghost m: nat)
      requires At(k) && k < |Pairs(layout)| && p == Pairs(layout)[k] && IsObject(p.opcode)
      requires n <= |todo| && Left(k) == todo[n..]
      modifies this`capcounter, this`capptr, this`acts
      ensures n <= m <= |todo| && forall i | n <= i < m :: todo[i].offset !in StopSet(endptr, fails)
      ensures At(k) && (capcounter < p.count <==> threw || early) && Left(k) == todo[m..] && !(threw && early)
      ensures threw || early ==>
                m < |todo| && todo[m].offset in StopSet(endptr, fails) && (early <==> todo[m].offset == endptr)
      ensures acts == old(acts) + Disposals(todo[n..if threw then m + 1 else m])
    {
      hide Run, Disposals, Rest, Walk, Pairs, Captures, StopSet;
      RestIs(Pairs(layout), k, capcounter, capptr);
      StopSetIs(endptr, fails);
      ghost var kind, off, c0 := KindOf(p.opcode), capptr, capcounter;
      ghost var rest := Walk(Pairs(layout)[k + 1..], off + POINTER_SIZE * (p.count - c0));
      threw, early := DisposeCapture(KindOf(p.opcode), p.count, endptr, fails);
      ghost var d := capcounter - c0;
      m := n + d;
      Entering(todo, n, kind, p.count - c0, d, off, rest);
      RestIs(Pairs(layout), k, capcounter, capptr);
      DisposedSlice(todo, n, kind, p.count - c0, if threw then d + 1 else d, off, rest);
    }

    /**
     destroyBlock: every capture from the start of the block, or what is left of an interrupted walk.
     It stops before the capture at endptr (-1 for none), and at the first dispose that throws.
     */
    method DestroyBlock(initialize: bool, endptr: int, fails: set<nat>, ghost k0: nat, ghost todo: seq<Capture>)
      returns (threw: bool, ghost k: nat)
      requires WellFormed(layout)
      requires if initialize then todo == All() else At(k0) && todo == Left(k0)
      modifies this
      ensures var n := FirstAt(todo, StopSet(endptr, fails));
              if n == |todo| || todo[n].offset == endptr then
                !threw && acts == old(acts) + Disposals(todo[..n])
              else
                && threw && acts == old(acts) + Disposals(todo[..n + 1])
                && At(k) && k < |Pairs(layout)| && IsObject(Pairs(layout)[k].opcode)
                && capcounter < Pairs(layout)[k].count
                && Left(k) == todo[n..]
    {
      hide Run, Disposals, Rest, Walk, Pairs, Decode, PosAt, InRange, Captures, CapturesOf, FirstAt, StopSet;
      k := k0;
      if initialize {
        InitState();
        k := 0;
      }
      ghost var n: nat, stop := 0, StopSet(endptr, fails);
      assert Disposals(todo[..0]) == [];
      assert todo[0..] == todo;
      while true
        invariant At(k)
        invariant n <= |todo| && Left(k) == todo[n..]
        invariant forall i | 0 <= i < n :: todo[i].offset !in stop
        invariant acts == old(acts) + Disposals(todo[..n])
        decreases |Pairs(layout)| - k
      {
        DecodeAt(layout, k);
        var p := Decode(layout, pos);
        if p.opcode == BCK_DONE {
          LeftNothing(Pairs(layout), capptr);
          FirstAtIs(todo, stop, n);
          return false, k;
        }
        StepDecoder(layout, k);
        if IsObject(p.opcode) {
          var early;
          ghost var m;
          threw, early, m := DestroyRun(p, endptr, fails, k, todo, n);
          DisposalsJoin(todo, n, if threw then m + 1 else m);
          n := m;
          if threw || early {
            FirstAtIs(todo, stop, n);
            return threw, k;
          }
          RestInPair(Pairs(layout), k, p.count, capptr);
          assert Captures(Pair(p.opcode, 0), capptr) == [];
        } else {
          RestInPair(Pairs(layout), k, 0, capptr);
          capptr := capptr + Width(p);
        }
        NextState();
        k := k + 1;
      }
    }

    /** cleanup_captures: what is still to be released when a helper has thrown. */
    method CleanupCaptures(state: ExcpState, ghost k: nat, ghost n: nat)
      requires WellFormed(layout) && state != None
      requires state == InCopyGeneric ==> n < |All()| && capptr == All()[n].offset
      requires state == InDestroyGeneric ==>
                 && n < |All()| && At(k) && k < |Pairs(layout)| && IsObject(Pairs(layout)[k].opcode)
                 && capcounter < Pairs(layout)[k].count && Left(k) == All()[n..]
      modifies this
      ensures acts == old(acts) + Disposals(match state
                                            case InCopyGeneric => All()[..n]
                                            case InDestroyGeneric => All()[n + 1..]
                                            case _ => All())
    {
      hide Run, Disposals, Rest, Walk, Pairs, Captures, CapturesOf, FirstAt, StopSet;
      var threw;
      ghost var k';
      if state == InCopyCustom || state == InDestroyCustom {
        threw, k' := DestroyBlock(true, -1, {}, 0, All());
        NoStop(All());
      } else if state == InCopyGeneric {
        threw, k' := DestroyBlock(true, capptr, {}, 0, All());
        StopsAt(layout, n);
      } else {
        SkipOne(Pairs(layout), k, capcounter, capptr);
        capptr := capptr + POINTER_SIZE;
        capcounter := capcounter + 1;
        threw, k' := DestroyBlock(false, -1, {}, k, Left(k));
        NoStop(All()[n + 1..]);
      }
    }

    /**
     _call_copy_helpers_excp with its cleanup.  A generic copy that throws releases exactly the captures
     before the throwing one; a custom copy helper that throws releases them all; either way the
     destination block is freed.
     */
    method CallCopyHelpers(fails: set<nat>, customThrows: bool) returns (threw: bool)
      requires WellFormed(layout)
      modifies this
      ensures var n := FirstAt(All(), fails);
              if n < |All()| then
                threw && acts == old(acts) + Copies(All()[..n]) + Disposals(All()[..n]) + [Freed]
              else if customThrows then
                threw && acts == old(acts) + Copies(All()) + [CustomCopy] + Disposals(All()) + [Freed]
              else
                !threw && acts == old(acts) + Copies(All()) + [CustomCopy]
    {
      hide Run, Copies, Disposals, CapturesOf, FirstAt, Pairs;
      var state := InCopyGeneric;
      ghost var n := FirstAt(All(), fails);
      threw := CopyBlock(fails);
      assert All()[..|All()|] == All();
      if !threw {
        state := InCopyCustom;
        acts := acts + [CustomCopy];
        threw := customThrows;
      }
      if threw {
        CleanupCaptures(state, 0, n);
        acts := acts + [Freed];
      }
    }

    /**
     _call_dispose_helpers_excp: if a dispose throws, the cleanup disposes of the captures that are left
     and frees the block.
     */
    method CallDisposeHelpers(fails: set<nat>, customThrows: bool) returns (threw: bool)
      requires WellFormed(layout)
      modifies this
      ensures threw <==> customThrows || FirstAt(All(), fails) < |All()|
      ensures acts == old(acts) + [CustomDispose] + Disposals(All()) + (if threw then [Freed] else [])
    {
      hide Run, Disposals, CapturesOf, FirstAt, Pairs, StopSet;
      var state := InDestroyCustom;
      ghost var n, k := FirstAt(All(), fails), 0;
      acts := acts + [CustomDispose];
      threw := customThrows;
      if !threw {
        state := InDestroyGeneric;
        threw, k := DestroyBlock(true, -1, fails, 0, All());
        NoEnd(All(), fails);
      }
      assert All()[..|All()|] == All();
      if threw {
        CleanupCaptures(state, k, n);
        if n < |All()| {
          DisposalsSplit(All(), n + 1);
        }
        acts := acts + [Freed];
      }
    }

    /**
     The end of _Block_release, which an exception from the dispose helpers leaves before it frees the
     block: whatever throws, every capture's dispose is attempted exactly once, in order, and the block
     is freed once.
     */
    method DisposeAndFree(fails: set<nat>, customThrows: bool) returns (threw: bool)
      requires WellFormed(layout)
      modifies this
      ensures threw <==> customThrows || FirstAt(All(), fails) < |All()|
      ensures acts == old(acts) + [CustomDispose] + Disposals(All()) + [Freed]
    {
      hide Disposals, CapturesOf, FirstAt;
      threw := CallDisposeHelpers(fails, customThrows);
      if !threw {
        acts := acts + [Freed];
      }
    }
  }

  datatype ExcpState = None | InCopyGeneric | InCopyCustom | InDestroyGeneric | InDestroyCustom

  lemma {:induction false} NoStop(cs: seq<Capture>)
    ensures FirstAt(cs, StopSet(-1, {})) == |cs|
    ensures cs[..|cs|] == cs
  {
    FirstAtIs(cs, StopSet(-1, {}), |cs|);
  }

  lemma {:induction false} NoEnd(cs: seq<Capture>, fails: set<nat>)
    ensures StopSet(-1, fails) == fails
    ensures cs[..|cs|] == cs
  {
  }

  /** In a walk the offsets grow, so stopping at the offset of capture n stops at capture n. */
  lemma {:induction false} StopsAt(l: Layout, n: nat)
    requires WellFormed(l) && n < |CapturesOf(l)|
    ensures var all := CapturesOf(l);
            FirstAt(all, StopSet(all[n].offset, {})) == n
  {
    var all := CapturesOf(l);
    WalkBounds(Pairs(l), FIRST_CAPTURE);
    FirstAtIs(all, StopSet(all[n].offset, {}), n);
  }

  lemma {:induction false} SkipOne(ps: seq<Pair>, k: nat, c: nat, off: nat)
    requires k < |ps| && IsObject(ps[k].opcode) && c < ps[k].count
    ensures Rest(ps, k, c + 1, off + POINTER_SIZE) == Rest(ps, k, c, off)[1..]
  {
    RunStep(KindOf(ps[k].opcode), ps[k].count - c, off);
  }

  lemma {:induction false} DisposalsSplit(cs: seq<Capture>, n: nat)
    requires n <= |cs|
    ensures Disposals(cs[..n]) + Disposals(cs[n..]) == Disposals(cs)
  {
  }

  lemma {:induction false} RestIs(ps: seq<Pair>, k: nat, c: nat, off: nat)
    requires k < |ps| && IsObject(ps[k].opcode) && c <= ps[k].count
    ensures Rest(ps, k, c, off)
         == Run(KindOf(ps[k].opcode), ps[k].count - c, off) + Walk(ps[k + 1..], off + POINTER_SIZE * (ps[k].count - c))
  {
  }

  /** Going m captures into a run that starts at capture n. */
  lemma {:induction false} Entering(all: seq<Capture>, n: nat, kind: Kind, count: nat, m: nat, off: nat,
                                    rest: seq<Capture>)
    requires n <= |all| && m <= count && all[n..] == Run(kind, count, off) + rest
    ensures n + m <= |all|
    ensures all[n + m..] == Run(kind, count - m, off + POINTER_SIZE * m) + rest
    ensures forall i: nat | n <= i < n + m :: all[i].offset == off + POINTER_SIZE * (i - n)
    ensures m < count ==> n + m < |all| && all[n + m].offset == off + POINTER_SIZE * m
  {
    assert all[n + m..] == all[n..][m..];
    forall i: nat | n <= i < n + count
      ensures all[i] == Capture(kind, off + POINTER_SIZE * (i - n))
    {
      assert all[i] == all[n..][i - n];
    }
  }

  lemma {:induction false} DisposedSlice(all: seq<Capture>, n: nat, kind: Kind, count: nat, m: nat, off: nat,
                                         rest: seq<Capture>)
    requires n <= |all| && m <= count && all[n..] == Run(kind, count, off) + rest
    ensures n + m <= |all| && Disposals(all[n..n + m]) == Disposals(Run(kind, m, off))
  {
    assert all[n..n + m] == all[n..][..m] == Run(kind, m, off);
  }

  lemma {:induction false} DisposalsJoin(all: seq<Capture>, n: nat, m: nat)
    requires n <= m <= |all|
    ensures Disposals(all[..n]) + Disposals(all[n..m]) == Disposals(all[..m])
  {
  }

  /** The offsets at which a destroy walk ends. */
  function StopSet(endptr: int, fails: set<nat>): set<nat> {
    if endptr >= 0 then fails + {endptr} else fails
  }

  lemma {:induction false} StopSetIs(endptr: int, fails: set<nat>)
    ensures forall o: nat :: o in StopSet(endptr, fails) <==> o in fails || o == endptr
  {
  }

  lemma {:induction false} RestInPair(ps: seq<Pair>, k: nat, c: nat, off: nat)
    requires k < |ps| && c <= ps[k].count && (!IsObject(ps[k].opcode) ==> c == 0)
    ensures var q := Pair(ps[k].opcode, ps[k].count - c);
            && Rest(ps, k, c, off) == Captures(q, off) + Rest(ps, k + 1, 0, off + Width(q))
            && (IsObject(q.opcode) ==>
                  Captures(q, off) == Run(KindOf(q.opcode), q.count, off) && Width(q) == POINTER_SIZE * q.count)
            && (!IsObject(q.opcode) ==> Captures(q, off) == [] && q == ps[k])
  {
    RestAtPair(ps, k, off);
    var q := Pair(ps[k].opcode, ps[k].count - c);
    RestAtPair(ps, k + 1, off + Width(q));
  }

  lemma {:induction false} LeftNothing(ps: seq<Pair>, off: nat)
    ensures Rest(ps, |ps|, 0, off) == []
  {
  }

  lemma {:induction false} CapturesAre(p: Pair, off: nat)
    ensures Captures(p, off) == if IsObject(p.opcode) then Run(KindOf(p.opcode), p.count, off) else []
    ensures IsObject(p.opcode) ==> Width(p) == POINTER_SIZE * p.count
  {
  }

  lemma {:induction false} StepDecoder(l: Layout, k: nat)
    ensures NextPos(l, PosAt(l, k)) == PosAt(l, k + 1)
  {
  }

  lemma {:induction false} FirstAtIs(cs: seq<Capture>, stop: set<nat>, n: nat)
    requires n <= |cs| && (forall i | 0 <= i < n :: cs[i].offset !in stop) && (n < |cs| ==> cs[n].offset in stop)
    ensures FirstAt(cs, stop) == n
    decreases n
  {
    if n > 0 {
      FirstAtIs(cs[1..], stop, n - 1);
    }
  }

  lemma {:induction false} CopiedSlice(all: seq<Capture>, n: nat, kind: Kind, count: nat, m: nat, off: nat,
                                       rest: seq<Capture>)
    requires n <= |all| && m <= count && all[n..] == Run(kind, count, off) + rest
    ensures n + m <= |all| && Copies(all[..n + m]) == Copies(all[..n]) + Copies(Run(kind, m, off))
  {
    assert all[..n + m] == all[..n] + all[n..][..m];
    assert all[n..][..m] == Run(kind, m, off);
    CopiesAppend(all[..n], Run(kind, m, off));
  }

  lemma {:induction false} RunGrows(kind: Kind, n: nat, off: nat)
    ensures var c := Capture(kind, off + POINTER_SIZE * n);
            && Copies(Run(kind, n + 1, off)) == Copies(Run(kind, n, off)) + [Copied(c, c.offset)]
            && Disposals(Run(kind, n + 1, off)) == Disposals(Run(kind, n, off)) + [Disposed(c)]
    ensures Copies(Run(kind, 0, off)) == [] == Disposals(Run(kind, 0, off))
  {
  }
}
