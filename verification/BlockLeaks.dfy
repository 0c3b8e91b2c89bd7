/**
 What the Blocks runtime never frees.  Cells that hold one another outlive every release, and with
 nothing in the hands of client code whatever is left is held, through other cells, by such a cycle, by
 the variable of a live frame, or by a cell whose count has latched.
 */
module BlockLeaks {
  import opened LatchingCount
  import opened BlockHeap
  import opened BlockRuntime

  /** Cell k holds a reference to cell i. */
  predicate Refers(cells: seq<Cell>, k: nat, i: nat) {
    k < |cells| && i < |cells| && At(cells[i], i) in Out(cells[k])
  }

  // ----- cells that hold one another -----

  /** Each cell of the set is held by one of the set. */
  predicate HoldsItself(cells: seq<Cell>, c: set<nat>) {
    forall i | i in c :: exists k | k in c :: Refers(cells, k, i)
  }

  lemma {:induction false} StillHeld(cells: seq<Cell>, keep: multiset<Target>, c: set<nat>, g: set<nat>, i: nat)
    requires HoldsItself(cells, c) && i in c && i < |cells| && g !! c
    ensures Total(Without(cells, g), keep, At(cells[i], i)) > 0
  {
    hide Out, Refs;
    var k :| k in c && Refers(cells, k, i);
    assert Without(cells, g)[k] == cells[k];
    RefsAtLeast(Without(cells, g), k, At(cells[i], i));
  }

  /** No release frees any of a set of cells each of which is held by one of them. */
  lemma {:induction false} CycleSurvives(before: seq<Cell>, after: seq<Cell>, keep: multiset<Target>, c: set<nat>)
    requires FreesExactly(before, after, keep) && HoldsItself(before, c)
    ensures c !! FreedBetween(before, after)
  {
    hide Out, Refs, Total, Collectable, FreedBetween, HoldsItself;
    var g := set i: nat | i < |before| && i !in c;
    assert Closed(g, before, keep) by {
      forall i: nat | i < |before| && Total(Without(before, g), keep, At(before[i], i)) == 0 ensures i in g {
        if i in c {
          StillHeld(before, keep, c, g, i);
        }
      }
    }
  }

  /** A variable on the heap and the block that it holds, which captures the variable. */
  predicate HoldEachOther(cells: seq<Cell>, f: nat, b: nat) {
    && f < |cells| && b < |cells|
    && Managed(cells[f]) && cells[f].ByrefCell? && DeallocatingBit(cells[f].flags) == 0 && cells[f].held == Heap(b)
    && Managed(cells[b]) && cells[b].BlockCell? && DeallocatingBit(cells[b].flags) == 0
    && OfByref(f) in cells[b].captures
  }

  lemma {:induction false} PairHoldsItself(cells: seq<Cell>, f: nat, b: nat)
    requires HoldEachOther(cells, f, b)
    ensures HoldsItself(cells, {f, b})
  {
    hide HeldByAll, NeedsFree;
    var k :| 0 <= k < |cells[b].captures| && cells[b].captures[k] == OfByref(f);
    HeldByAt(cells[b].captures, k);
    assert ToByref(f) in HeldByCapture(cells[b].captures[k]);
    assert Refers(cells, f, b) && Refers(cells, b, f);
    assert f in {f, b} && b in {f, b};
  }

  lemma {:induction false} SurvivorKept(c: Cell, d: Cell)
    requires Shrunk(c, d) && !d.Freed?
    ensures !c.Freed? && d == WithFlags(c, d.flags)
    ensures NeedsFree(d.flags) == NeedsFree(c.flags) && DeallocatingBit(d.flags) == DeallocatingBit(c.flags)
  {
    hide HighBits, DeallocatingBit, Count, Latched;
    assert c.Freed? || HighBits(c.flags) == HighBits(d.flags);
  }

  lemma {:induction false} NotFreed(before: seq<Cell>, after: seq<Cell>, i: nat)
    requires Shrinks(before, after) && i < |before| && !before[i].Freed? && i !in FreedBetween(before, after)
    ensures !after[i].Freed? && Shrunk(before[i], after[i])
  {
    hide Shrunk;
  }

  /**
   What the end of a frame leaves of a variable that was copied and whose block captures the variable
   itself: the heap byref and the block, which nothing that is released from then on frees.
   */
  lemma {:induction false} SelfCaptureLeaks(before: seq<Cell>, after: seq<Cell>, keep: multiset<Target>, f: nat, b: nat)
    requires HoldEachOther(before, f, b) && Shrinks(before, after) && FreesExactly(before, after, keep)
    ensures HoldEachOther(after, f, b)
  {
    hide FreesExactly, HoldsItself, Shrinks, Shrunk, NeedsFree, DeallocatingBit, FreedBetween;
    PairHoldsItself(before, f, b);
    CycleSurvives(before, after, keep, {f, b});
    assert f in {f, b} && b in {f, b};
    SameLength(before, after);
    NotFreed(before, after, f);
    NotFreed(before, after, b);
    SurvivorKept(before[f], after[f]);
    SurvivorKept(before[b], after[b]);
  }

  lemma {:induction false} SameLength(before: seq<Cell>, after: seq<Cell>)
    requires Shrinks(before, after)
    ensures |before| == |after|
  {
    hide Shrunk;
  }

  // ----- references to a variable in a frame -----

  lemma {:induction false} HeldByNone(captures: seq<Capture>, cells: seq<Cell>, s: nat)
    requires forall k | 0 <= k < |captures| :: Moved(cells, captures[k])
    requires !IsHeapByref(cells, s)
    ensures HeldByAll(captures)[ToByref(s)] == 0
    decreases captures
  {
    hide IsHeapByref;
    if captures != [] {
      assert Moved(cells, captures[0]);
      assert HeldByCapture(captures[0])[ToByref(s)] == 0 by {
        match captures[0]
        case OfBlock(b) => assert HeldBy(b)[ToByref(s)] == 0;
        case OfByref(_) =>
        case Object(_) =>
        case Weak(_) =>
      }
      HeldByNone(captures[1..], cells, s);
    }
  }

  /** Nothing on the heap refers to a variable in a frame. */
  lemma {:induction false} HeapOut(cells: seq<Cell>, i: nat, s: nat)
    requires Shapes(cells) && i < |cells| && Managed(cells[i]) && !IsHeapByref(cells, s) && i != s
    ensures Out(cells[i])[ToByref(s)] == 0
  {
    hide HeldByAll, NeedsFree, HasCopyDispose, DeallocatingBit, LowBits;
    ShapeOf(cells, i);
    if cells[i].BlockCell? && DeallocatingBit(cells[i].flags) == 0 {
      HeldByNone(cells[i].captures, cells, s);
    }
  }

  /** Copying makes no new reference to a variable in a frame. */
  lemma {:induction false} GrownOut(before: seq<Cell>, after: seq<Cell>, i: nat, s: nat)
    requires Shapes(after) && Grows(before, after) && s < |before| && i < |after| && i != s
    requires before[s].ByrefCell? && !NeedsFree(before[s].flags)
    ensures Out(after[i])[ToByref(s)] <= if i < |before| then Out(before[i])[ToByref(s)] else 0
  {
    hide HeldBy, HeldByAll, HighBits, Count, LowBits;
    GrownSteady(before, after);
    assert Steady(s, before[s], after[s]);
    if Managed(after[i]) {
      HeapOut(after, i, s);
    } else {
      assert Grown(i, before[i], after[i]);
      ShapeOf(after, i);
    }
  }

  lemma {:induction false} RefsOnly(cells: seq<Cell>, s: nat, t: Target)
    requires s < |cells| && forall i: nat | i < |cells| && i != s :: Out(cells[i])[t] == 0
    ensures Refs(cells, t) == Out(cells[s])[t]
  {
    hide Out;
    RefsUpdate(cells, s, Freed, t);
    var none := cells[s := Freed];
    FreedOut(t);
    forall i: nat | i < |none| ensures Out(none[i])[t] == 0 {
      assert i != s ==> none[i] == cells[i];
    }
    RefsNone(none, t);
  }

  lemma {:induction false} RefsNone(cells: seq<Cell>, t: Target)
    requires forall i: nat | i < |cells| :: Out(cells[i])[t] == 0
    ensures Refs(cells, t) == 0
    decreases cells
  {
    hide Out;
    if cells != [] {
      assert forall i: nat | i < |cells[1..]| :: cells[1..][i] == cells[i + 1];
      RefsNone(cells[1..], t);
    }
  }

  /** After copying and releasing, a new variable is mentioned only by what it holds itself. */
  lemma {:induction false} OnlyByItself(before: seq<Cell>, c: Cell, copied: seq<Cell>, after: seq<Cell>, s: nat)
    requires s == |before| && c.ByrefCell? && !NeedsFree(c.flags) && Refs(before, ToByref(s)) == 0
    requires Grows(before + [c], copied) && Shapes(copied) && Shrinks(copied, after)
    ensures s < |after| && Refs(after, ToByref(s)) == Out(after[s])[ToByref(s)]
  {
    hide Out, Shrunk, Shapes, Grows, Refs, NeedsFree;
    var t := ToByref(s);
    SizeGrows(before + [c], copied);
    forall i: nat | i < |after| && i != s ensures Out(after[i])[t] == 0 {
      GrownOut(before + [c], copied, i, s);
      if i < |before| {
        assert (before + [c])[i] == before[i];
        RefsAtLeast(before, i, t);
      }
      ShrunkOut(copied[i], after[i]);
      FreedOut(t);
    }
    RefsOnly(after, s, t);
  }

  lemma {:induction false} SizeGrows(before: seq<Cell>, after: seq<Cell>)
    requires Grows(before, after)
    ensures |before| <= |after|
  {
  }

  /** The copy of a variable and of the block in it that captures the variable. */
  lemma {:induction false} CopyIsCycle(cells: seq<Cell>, objects: multiset<nat>, ext: multiset<Target>, s: nat, f: nat,
                                       flags: Int32)
    requires Sound(cells, objects, ext) && s < |cells| && cells[s].ByrefCell? && cells[s].forwarding == f
    requires Alive(cells, ToByref(f)) && NeedsFree(cells[f].flags)
    requires IsCopy(cells, f, Stack(flags, [OfByref(s)]), cells[f].held)
    ensures cells[f].held.Heap? && cells[f].held.addr >= f && HoldEachOther(cells, f, cells[f].held.addr)
  {
    hide HighBits, Refs, NeedsFree, DeallocatingBit, Counts, Retained, OneFrame, Shape, HeapFlags;
    var b := cells[f].held.addr;
    assert IsCaptureCopy(cells, f, OfByref(s), cells[b].captures[0]);
    assert ToBlock(b) in Out(cells[f]);
    RefsAtLeast(cells, f, ToBlock(b));
    assert Total(cells, ext, ToBlock(b)) > 0;
    assert Alive(cells, ToBlock(b));
    ShapeOf(cells, b);
    BlockIsManaged(cells, b);
  }

  lemma {:induction false} BlockIsManaged(cells: seq<Cell>, b: nat)
    requires b < |cells| && Shape(cells, b) && cells[b].BlockCell?
    ensures NeedsFree(cells[b].flags)
  {
    hide NeedsFree;
  }

  /** Such a variable is declared and copied, and the copy given back. */
  method CopySelf(rt: Runtime, flags: Int32, blockFlags: Int32) returns (s: nat, f: nat, b: nat)
    requires rt.Valid() && !NeedsFree(flags) && LowBits(flags) == 0 && HasCopyDispose(flags)
    modifies rt
    ensures rt.Valid() && rt.ext == old(rt.ext) && HoldEachOther(rt.cells, f, b)
    ensures s == |old(rt.cells)| < f && s < b && s < |rt.cells|
    ensures rt.cells[s] == ByrefCell(flags, f, Stack(blockFlags, [OfByref(s)]))
    ensures Refs(rt.cells, ToByref(s)) == 1 && rt.ext[ToByref(s)] == 0
  {
    hide Sound, Refs, Shrinks, FreesExactly, Grows, Out, NeedsFree, HasCopyDispose, HeldBy, IsCopy, Live, Shapes,
         OneMore,
         Latched, HoldEachOther;
    ghost var before, ext0 := rt.cells, rt.ext;
    AlsoUnreferenced(before, rt.objects, ext0, ToByref(|before|));
    var held := Stack(blockFlags, [OfByref(|rt.cells|)]);
    HeldIs(blockFlags, |rt.cells|);
    s := rt.DeclareByref(flags, held);
    var c := rt.cells[s];
    assert rt.ext == ext0;
    assert DeallocatingBit(flags) == 0;
    f := rt.ByrefCopy(s);
    ghost var copied := rt.cells;
    CopyIsCycle(copied, rt.objects, rt.ext, s, f, blockFlags);
    SoundShapes(copied, rt.objects, rt.ext);
    b := rt.cells[f].held.addr;
    rt.ByrefRelease(f);
    SelfCaptureLeaks(copied, rt.cells, rt.ext, f, b);
    StackKept(before + [c], copied, rt.cells, s);
    OnlyByItself(before, c, copied, rt.cells, s);
  }

  /**
   A recursive block: the variable holds a block that captures the variable.  Copying the variable once,
   giving the copy back and ending the frame leaves nothing in the hands of client code, and leaves
   behind a byref and a block that hold each other.
   */
  method SelfCapture(rt: Runtime, flags: Int32, blockFlags: Int32) returns (f: nat, b: nat)
    requires rt.Valid() && !NeedsFree(flags) && LowBits(flags) == 0 && HasCopyDispose(flags)
    modifies rt
    ensures rt.Valid() && rt.ext == old(rt.ext)
    ensures f >= |old(rt.cells)| && b >= |old(rt.cells)| && HoldEachOther(rt.cells, f, b)
  {
    hide Sound, Refs, Shrinks, FreesExactly, NeedsFree, HasCopyDispose, HeldBy, LeftBy;
    var s;
    s, f, b := CopySelf(rt, flags, blockFlags);
    ghost var left := rt.cells[s := Freed];
    HeldIs(blockFlags, s);
    rt.EndFrame(s);
    SelfCaptureLeaks(left, rt.cells, rt.ext, f, b);
  }

  lemma {:induction false} SoundShapes(cells: seq<Cell>, objects: multiset<nat>, ext: multiset<Target>)
    requires Sound(cells, objects, ext)
    ensures Shapes(cells)
  {
  }

  /** Copying may move a variable, but neither copying nor releasing changes what it holds. */
  lemma {:induction false} StackKept(before: seq<Cell>, copied: seq<Cell>, after: seq<Cell>, s: nat)
    requires Grows(before, copied) && Shrinks(copied, after) && s < |before|
    requires before[s].ByrefCell? && !NeedsFree(before[s].flags) && DeallocatingBit(before[s].flags) == 0
    ensures s < |copied| == |after| && copied[s].ByrefCell?
    ensures after[s] == before[s].(forwarding := copied[s].forwarding)
    ensures Out(after[s]) == HeldBy(before[s].held) + multiset{ToByref(copied[s].forwarding)}
  {
    hide HighBits, Count, DeallocatingBit, HeldBy;
    assert Grown(s, before[s], copied[s]) && Shrunk(copied[s], after[s]);
  }

  lemma {:induction false} HeldIs(flags: Int32, s: nat)
    ensures HeldBy(Stack(flags, [OfByref(s)])) == multiset{ToByref(s)}
    ensures LeftBy(Stack(flags, [OfByref(s)]), s) == multiset{}
  {
    assert [OfByref(s)][1..] == [];
    assert HeldByAll([OfByref(s)]) == HeldByCapture(OfByref(s)) + HeldByAll([]);
  }

  // ----- what is left when client code holds nothing -----

  /** The variable of a live frame, or a cell whose count has latched. */
  predicate Anchor(c: Cell) {
    !c.Freed? && (!NeedsFree(c.flags) || Latched(c.flags))
  }

  predicate IsPath(cells: seq<Cell>, p: seq<nat>) {
    p != [] && p[0] < |cells| && forall j | 0 < j < |p| :: Refers(cells, p[j - 1], p[j])
  }

  lemma {:induction false} RefsWitness(cells: seq<Cell>, t: Target) returns (k: nat)
    requires Refs(cells, t) > 0
    ensures k < |cells| && t in Out(cells[k])
    decreases cells
  {
    hide Out;
    if Out(cells[0])[t] > 0 {
      return 0;
    }
    var j := RefsWitness(cells[1..], t);
    return j + 1;
  }

  /** A cell that holds something is collectable unless it is an anchor. */
  lemma {:induction false} HolderIs(cells: seq<Cell>, k: nat, t: Target)
    requires k < |cells| && t in Out(cells[k])
    ensures Anchor(cells[k]) || Collectable(cells[k])
  {
    hide HeldBy, HeldByAll;
  }

  lemma {:induction false} PathBack(cells: seq<Cell>, objects: multiset<nat>, q: seq<nat>) returns (p: seq<nat>)
    requires Sound(cells, objects, multiset{}) && IsPath(cells, q) && (Anchor(cells[q[0]]) || Collectable(cells[q[0]]))
    ensures IsPath(cells, p) && p[|p| - 1] == q[|q| - 1]
    ensures Anchor(cells[p[0]]) || p[0] in p[1..]
    decreases set i: nat | i < |cells| && i !in q
  {
    hide Sound, Out, Refs, Anchor, Collectable;
    if Anchor(cells[q[0]]) {
      return q;
    }
    var i := q[0];
    CountedAt(cells, objects, multiset{}, i);
    var k := RefsWitness(cells, At(cells[i], i));
    HolderIs(cells, k, At(cells[i], i));
    p := [k] + q;
    assert p[1..] == q;
    forall j | 0 < j < |p| ensures Refers(cells, p[j - 1], p[j]) {
      assert j > 1 ==> Refers(cells, q[j - 2], q[j - 1]);
    }
    if k !in q {
      ghost var left := set i: nat | i < |cells| && i !in q;
      assert k in left && k !in (set i: nat | i < |cells| && i !in p);
      p := PathBack(cells, objects, p);
    }
  }

  /**
   When client code holds nothing, every unlatched block or byref that is still there is at the end of a
   path of references that starts in a cycle, in the variable of a live frame, or in a latched cell.
   */
  lemma {:induction false} OnlyCyclesLeak(cells: seq<Cell>, objects: multiset<nat>, i: nat) returns (p: seq<nat>)
    requires Sound(cells, objects, multiset{}) && i < |cells| && Collectable(cells[i])
    ensures IsPath(cells, p) && p[|p| - 1] == i
    ensures Anchor(cells[p[0]]) || p[0] in p[1..]
  {
    hide Sound, Out, Anchor, Collectable;
    p := PathBack(cells, objects, [i]);
  }
}
