/**
 Programs that use the Blocks runtime as they should: what they copy is freed when they have given up
 what they were given.
 */
module BlockClients {
  import opened LatchingCount
  import opened BlockHeap
  import opened BlockRuntime
  import opened BlockLeaks

  /** A cell to which there is no reference any more has been freed. */
  lemma {:induction false} UnreferencedIsFreed(before: seq<Cell>, after: seq<Cell>, keep: multiset<Target>, i: nat)
    requires Shrinks(before, after) && FreesExactly(before, after, keep) && i < |before|
    requires Collectable(before[i]) && keep[At(before[i], i)] == 0 && Refs(before, At(before[i], i)) == 0
    ensures after[i].Freed?
  {
    hide Out, Refs, Least, Collectable, Shrunk;
    var freed := FreedBetween(before, after);
    var rest := Without(before, freed);
    FreedOut(At(before[i], i));
    forall k: nat | k < |rest| ensures Out(rest[k])[At(before[i], i)] <= Out(before[k])[At(before[i], i)] {
      assert rest[k] == before[k] || rest[k] == Freed;
    }
    RefsMonotone(rest, before, At(before[i], i));
    assert Closed(freed, before, keep);
  }

  /** One reference, in the hands of client code, to a block that it has just been given. */
  lemma {:induction false} OnlyReference(cells: seq<Cell>, objects: multiset<nat>, ext: multiset<Target>, a: nat)
    requires Sound(cells, objects, ext) && ToBlock(a) in ext && a < |cells| && cells[a].BlockCell?
    requires Count(cells[a].flags) == 1
    ensures Collectable(cells[a]) && ext[ToBlock(a)] == 1 && Refs(cells, ToBlock(a)) == 0
  {
    hide Refs, HighBits;
    ExtIsBlock(cells, objects, ext, a);
    assert Counted(cells[a].flags, Total(cells, ext, ToBlock(a)));
  }

  /** _Block_copy of a block on the stack and one _Block_release of the result: the heap block is freed. */
  method CopyAndRelease(rt: Runtime, b: Block) returns (a: nat)
    requires rt.Valid() && b.Stack? && AllAlive(rt.cells, HeldBy(b))
    modifies rt
    ensures rt.Valid() && rt.ext == old(rt.ext)
    ensures |old(rt.cells)| <= a < |rt.cells| && rt.cells[a].Freed?
  {
    hide Sound, Shrinks, FreesExactly, Grows, AllAlive, Count, Refs, IsCaptureCopy;
    var r := rt.BlockCopy(b);
    a := r.addr;
    ghost var copied := rt.cells;
    assert ToBlock(a) in HeldBy(r);
    OnlyReference(copied, rt.objects, rt.ext, a);
    rt.BlockRelease(r);
    UnreferencedIsFreed(copied, rt.cells, rt.ext, a);
    SameLength(copied, rt.cells);
  }

  /** After the client's reference is given up, only the frame of the variable refers to the heap byref. */
  lemma {:induction false} OnlyTheFrame(before: seq<Cell>, objects: multiset<nat>, ext: multiset<Target>, s: nat,
                                        f: nat, after: seq<Cell>, objects': multiset<nat>, ext': multiset<Target>)
    requires Sound(before, objects, ext) && s != f && s < |before| && IsHeapByref(before, f)
    requires ToByref(f) in ext && Count(before[f].flags) == 2
    requires Shrinks(before, after) && Sound(after, objects', ext') && ext' == ext - multiset{ToByref(f)}
    requires s < |after| && ToByref(f) in Out(after[s])
    ensures ext'[ToByref(f)] == 0 && Refs(after[s := Freed], ToByref(f)) == 0
    ensures f < |after| && Collectable(after[f]) && At(after[f], f) == ToByref(f)
  {
    var t := ToByref(f);
    assert Counted(before[f].flags, Total(before, ext, t));
    hide Refs, HighBits, Out, Shrunk, Sound;
    forall k: nat | k < |after| ensures Out(after[k])[t] <= Out(before[k])[t] {
      assert Shrunk(before[k], after[k]);
      ShrunkOut(before[k], after[k]);
      FreedOut(t);
    }
    RefsMonotone(after, before, t);
    RefsUpdate(after, s, Freed, t);
    FreedOut(t);
    StillCollectable(before, after, objects', ext', s, f);
  }

  lemma {:induction false} StillCollectable(before: seq<Cell>, after: seq<Cell>, objects: multiset<nat>,
                                            ext: multiset<Target>, s: nat, f: nat)
    requires Shrinks(before, after) && Sound(after, objects, ext) && s < |after| && ToByref(f) in Out(after[s])
    requires IsHeapByref(before, f) && Count(before[f].flags) == 2
    ensures f < |after| && Collectable(after[f]) && At(after[f], f) == ToByref(f)
  {
    hide Refs, HighBits, Out, DeallocatingBit;
    RefsAtLeast(after, s, ToByref(f));
    assert Total(after, ext, ToByref(f)) > 0;
    assert Shrunk(before[f], after[f]);
    SurvivorKept(before[f], after[f]);
  }

  /**
   A __block variable that is copied once: when the copy has been given back and the frame has ended,
   neither the variable nor its heap byref is left.
   */
  method CopyVariable(rt: Runtime, flags: Int32) returns (s: nat, f: nat)
    requires rt.Valid() && !NeedsFree(flags) && LowBits(flags) == 0
    modifies rt
    ensures rt.Valid() && rt.ext == old(rt.ext)
    ensures s == |old(rt.cells)| && f == s + 1 < |rt.cells| && rt.cells[s].Freed? && rt.cells[f].Freed?
  {
    hide Sound, Shrinks, FreesExactly, Grows, Count, Refs, Out, NeedsFree, Shapes, Live, OneMore, Latched, IsCopy;
    ghost var before, ext0 := rt.cells, rt.ext;
    AlsoUnreferenced(before, rt.objects, ext0, ToByref(|before|));
    NullHoldsNothing();
    s := rt.DeclareByref(flags, Null);
    ghost var c := rt.cells[s];
    assert rt.ext == ext0;
    assert DeallocatingBit(flags) == 0;
    f := rt.ByrefCopy(s);
    ghost var copied, objs, refs := rt.cells, rt.objects, rt.ext;
    SoundShapes(copied, objs, refs);
    rt.ByrefRelease(f);
    ghost var after := rt.cells;
    StackKept(before + [c], copied, after, s);
    OnlyByItself(before, c, copied, after, s);
    OnlyTheFrame(copied, objs, refs, s, f, after, rt.objects, rt.ext);
    rt.EndFrame(s);
    UnreferencedIsFreed(after[s := Freed], rt.cells, rt.ext, f);
    SameLength(after[s := Freed], rt.cells);
    FreedForGood(after[s := Freed], rt.cells, s);
  }

  lemma {:induction false} FreedForGood(before: seq<Cell>, after: seq<Cell>, i: nat)
    requires Shrinks(before, after) && i < |before| && before[i].Freed?
    ensures i < |after| && after[i].Freed?
  {
    assert Shrunk(before[i], after[i]);
  }
}
