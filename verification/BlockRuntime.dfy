/**
 The copy and release entry points of libclosure/runtime.cpp, on one heap of blocks and __block
 variables.  `ext` lists the references in the hands of client code, or of a copy or dispose that is
 in progress; every entry point keeps the invariant that ties the counts to the references.
 */
module BlockRuntime {
  import opened LatchingCount
  import opened BlockHeap
  import opened BlockCounts

  // ----- measures for the recursion of copying -----

  function Size(b: Block): nat
    decreases b
  {
    if b.Stack? then 1 + SizeAll(b.captures) else 1
  }

  function SizeCapture(c: Capture): nat
    decreases c
  {
    if c.OfBlock? then 1 + Size(c.block) else 1
  }

  function SizeAll(captures: seq<Capture>): nat
    decreases captures
  {
    if captures == [] then 0 else 1 + SizeCapture(captures[0]) + SizeAll(captures[1..])
  }

  lemma {:induction false} SizeAt(captures: seq<Capture>, k: nat)
    requires k < |captures|
    ensures SizeCapture(captures[k]) < SizeAll(captures)
    decreases captures
  {
    hide SizeCapture;
    if k > 0 {
      SizeAt(captures[1..], k - 1);
    }
  }

  /** The cells that could still be freed: each last release takes one away. */
  function Live(cells: seq<Cell>): set<nat> {
    set i: nat | i < |cells| && Managed(cells[i]) && DeallocatingBit(cells[i].flags) == 0
  }

  ghost predicate AllAlive(cells: seq<Cell>, refs: multiset<Target>) {
    forall t | t in refs :: Alive(cells, t)
  }

  lemma {:induction false} AllAliveGrows(before: seq<Cell>, after: seq<Cell>, refs: multiset<Target>)
    requires Grows(before, after) && AllAlive(before, refs)
    ensures AllAlive(after, refs)
  {
    hide Grows, Alive;
    forall t | t in refs ensures Alive(after, t) {
      GrowsAlive(before, after, t);
    }
  }

  lemma {:induction false} GrowsSame(cells: seq<Cell>)
    ensures Grows(cells, cells)
  {
  }

  lemma {:induction false} HeldIsAlive(cells: seq<Cell>, objects: multiset<nat>, ext: multiset<Target>, a: nat)
    requires Sound(cells, objects, ext) && AllAlive(cells, HeldBy(Heap(a)))
    ensures a < |cells| && cells[a].BlockCell? && Managed(cells[a]) && Alive(cells, At(cells[a], a))
  {
    assert ToBlock(a) in HeldBy(Heap(a));
    ShapeOf(cells, a);
  }

  lemma {:induction false} BlockIsManaged(cells: seq<Cell>, objects: multiset<nat>, ext: multiset<Target>, a: nat)
    requires Sound(cells, objects, ext) && Alive(cells, ToBlock(a))
    ensures Managed(cells[a])
  {
    ShapeOf(cells, a);
  }

  lemma {:induction false} ByrefIsAlive(cells: seq<Cell>, s: nat)
    requires AllAlive(cells, HeldByCapture(OfByref(s)))
    ensures Alive(cells, ToByref(s))
  {
    assert ToByref(s) in HeldByCapture(OfByref(s));
  }

  lemma {:induction false} AliveAt(cells: seq<Cell>, captures: seq<Capture>, k: nat)
    requires AllAlive(cells, HeldByAll(captures)) && k < |captures|
    ensures AllAlive(cells, HeldByCapture(captures[k]))
  {
    hide HeldByAll, HeldByCapture, Alive;
    HeldByAt(captures, k);
  }

  lemma {:induction false} HeldByNone(ext: multiset<Target>)
    ensures ext + HeldByAll([]) == ext
  {
  }

  lemma {:induction false} LengthGrows(before: seq<Cell>, after: seq<Cell>)
    requires Grows(before, after)
    ensures |before| <= |after|
  {
  }

  lemma {:induction false} SoundStack(before: seq<Cell>, objects: multiset<nat>, ext: multiset<Target>,
                                      after: seq<Cell>)
    requires Sound(before, objects, ext) && Grows(before, after)
    ensures OnStack(after) <= OnStack(before)
  {
    hide Grows, OnStack, Shapes;
    GrowsLeavesStack(before, after);
  }

  lemma {:induction false} CopiesPersist(before: seq<Cell>, after: seq<Cell>, lo: nat, captures: seq<Capture>,
                                         taken: seq<Capture>)
    requires Grows(before, after) && |captures| == |taken|
    requires forall k | 0 <= k < |taken| :: IsCaptureCopy(before, lo, captures[k], taken[k])
    ensures forall k | 0 <= k < |taken| :: IsCaptureCopy(after, lo, captures[k], taken[k])
  {
    hide IsCaptureCopy, Grown, Steady;
    GrownSteady(before, after);
    forall k | 0 <= k < |taken| ensures IsCaptureCopy(after, lo, captures[k], taken[k]) {
      CaptureCopyPersists(before, after, lo, lo, captures[k], taken[k]);
    }
  }

  lemma {:induction false} LowerBound(cells: seq<Cell>, lo: nat, lo': nat, x: Capture, y: Capture)
    requires IsCaptureCopy(cells, lo, x, y) && lo' <= lo
    ensures IsCaptureCopy(cells, lo', x, y)
  {
    GrowsSame(cells);
    GrownSteady(cells, cells);
    CaptureCopyPersists(cells, cells, lo, lo', x, y);
  }

  /** malloc of a new heap block, before its captures are copied. */
  lemma {:induction false} NewBlock(cells: seq<Cell>, objects: multiset<nat>, ext: multiset<Target>, flags: Int32)
    requires Sound(cells, objects, ext)
    ensures var after := cells + [BlockCell(HeapFlags(flags, 1), [])];
            && Sound(after, objects, ext + multiset{ToBlock(|cells|)}) && Grows(cells, after)
            && Alive(after, ToBlock(|cells|)) && after[..|cells|] == cells
  {
    hide Sound;
    var c := BlockCell(HeapFlags(flags, 1), []);
    GrowsSame(cells);
    assert Out(c) == multiset{};
    AlsoUnreferenced(cells, objects, ext, ToBlock(|cells|));
    AppendKeepsInv(cells, objects, ext, c, ext + multiset{ToBlock(|cells|)});
  }

  lemma {:induction false} AlsoUnreferenced(cells: seq<Cell>, objects: multiset<nat>, ext: multiset<Target>, t: Target)
    requires Sound(cells, objects, ext) && !Alive(cells, t)
    ensures ext[t] == 0 && Refs(cells, t) == 0
  {
    assert Total(cells, ext, t) == 0;
  }

  /** The new block takes its captures, none of which refers to it. */
  lemma {:induction false} FillBlock(before: seq<Cell>, cells: seq<Cell>, n: nat, captures: seq<Capture>,
                                     taken: seq<Capture>)
    requires n + 1 == |before| && Alive(before, ToBlock(n)) && Managed(before[n]) && before[n].captures == []
    requires Grows(before, cells)
    requires |captures| == |taken| && forall k | 0 <= k < |taken| :: IsCaptureCopy(cells, n + 1, captures[k], taken[k])
    ensures n < |cells| && cells[n].BlockCell? && cells[n].captures == [] && Alive(cells, ToBlock(n))
    ensures HighBits(cells[n].flags) == HighBits(before[n].flags)
    ensures var after := cells[n := cells[n].(captures := taken)];
            && (forall k | 0 <= k < |taken| :: IsCaptureCopy(after, n, captures[k], taken[k]))
            && Grows(before[..n], after) && Alive(after, ToBlock(n))
  {
    hide IsCaptureCopy, HighBits, DeallocatingBit, Count;
    assert Grown(n, before[n], cells[n]);
    assert NeedsFree(before[n].flags) == NeedsFree(cells[n].flags);
    var after := cells[n := cells[n].(captures := taken)];
    forall i: nat | i < n ensures Grown(i, before[..n][i], after[i]) {
      assert Grown(i, before[i], cells[i]);
    }
    forall k | 0 <= k < |taken| ensures IsCaptureCopy(after, n, captures[k], taken[k]) {
      CaptureCopyPersists(cells, after, n + 1, n, captures[k], taken[k]);
    }
  }

  /** A __block variable moves to the heap: a new byref with two references, one of them for the frame. */
  lemma {:induction false} NewByref(cells: seq<Cell>, objects: multiset<nat>, ext: multiset<Target>, s: nat)
    requires Sound(cells, objects, ext) && Alive(cells, ToByref(s)) && cells[s].forwarding == s
    requires !NeedsFree(cells[s].flags)
    ensures var n := |cells|;
            var after := (cells + [ByrefCell(HeapFlags(cells[s].flags, 2), n, Null)])[s := cells[s].(forwarding := n)];
            && Sound(after, objects, ext + multiset{ToByref(n)}) && Grows(cells, after)
            && OnStack(after) < OnStack(cells)
  {
    hide Sound, Shape, HeldBy, HighBits;
    var n := |cells|;
    var c := ByrefCell(HeapFlags(cells[s].flags, 2), n, Null);
    var mid := cells + [c];
    HeapShape(cells, n, c);
    assert Out(c) == multiset{} by { NullHoldsNothing(); }
    AlsoUnreferenced(cells, objects, ext, ToByref(n));
    var ext' := ext + multiset{ToByref(n), ToByref(n)};
    AppendKeepsInv(cells, objects, ext, c, ext');
    NoneForwards(cells, objects, ext, mid, n);
    ForwardKeepsInv(mid, objects, ext', s, n);
    assert ext' - multiset{ToByref(n)} == ext + multiset{ToByref(n)};
    var after := mid[s := mid[s].(forwarding := n)];
    assert Grows(cells, after);
    SoundStack(cells, objects, ext, after);
    assert s in OnStack(cells) && s !in OnStack(after);
  }

  lemma {:induction false} NullHoldsNothing()
    ensures HeldBy(Null) == multiset{}
  {
  }

  lemma {:induction false} HeapShape(cells: seq<Cell>, n: nat, c: Cell)
    requires n == |cells| && c.ByrefCell? && NeedsFree(c.flags) && c.forwarding == n && c.held == Null
    ensures Shape(cells + [c], n)
  {
  }

  lemma {:induction false} NoneForwards(cells: seq<Cell>, objects: multiset<nat>, ext: multiset<Target>,
                                        after: seq<Cell>, n: nat)
    requires Sound(cells, objects, ext) && n == |cells| && |after| == n + 1 && after[..n] == cells
    requires after[n].ByrefCell? && NeedsFree(after[n].flags)
    ensures forall u: nat | Forwarded(after, u) :: after[u].forwarding != n
  {
    forall u: nat | Forwarded(after, u) ensures after[u].forwarding != n {
      assert after[u] == cells[u];
      ShapeOf(cells, u);
    }
  }

  /** The keep helper has copied what the variable s holds; the heap byref n takes it over. */
  lemma {:induction false} KeepHeld(first: seq<Cell>, before: seq<Cell>, cells: seq<Cell>, objects: multiset<nat>,
                                    ext: multiset<Target>,
                 s: nat, n: nat, b: Block, held: Block)
    requires |first| == n && n + 1 == |before| && Grows(first, before) && Grows(before, cells)
    requires before[n].ByrefCell? && DeallocatingBit(before[n].flags) == 0 && NeedsFree(before[n].flags)
    requires HasCopyDispose(before[n].flags) && before[n].held == Null && before[n].forwarding == n
    requires s < n && before[s].ByrefCell? && before[s].forwarding == n && DeallocatingBit(before[s].flags) == 0
    requires Sound(cells, objects, ext) && IsCopy(cells, n + 1, b, held) && !held.Stack? && HeldBy(held) <= ext
    ensures Alive(cells, ToByref(n)) && NeedsFree(cells[n].flags) && cells[n].held == Null
    ensures var after := cells[n := cells[n].(held := held)];
            && Sound(after, objects, ext - HeldBy(held)) && Grows(first, after)
            && IsCopy(after, n, b, held) && Alive(after, ToByref(n))
            && NeedsFree(after[n].flags) && after[n].forwarding == n
            && Alive(after, ToByref(s)) && after[s].forwarding == n && after[s].held == before[s].held
  {
    hide Sound, HighBits, DeallocatingBit, Count, IsCopy, HeldBy;
    assert Grown(n, before[n], cells[n]) && Grown(s, before[s], cells[s]);
    assert NeedsFree(before[n].flags) == NeedsFree(cells[n].flags);
    assert HasCopyDispose(before[n].flags) == HasCopyDispose(cells[n].flags);
    HoldKeepsInv(cells, objects, ext, n, held);
    var after := cells[n := cells[n].(held := held)];
    GrowsThrough(first, before, cells);
    GrowsSame(cells);
    GrownSteady(cells, cells);
    CopyPersists(cells, after, n + 1, n, b, held);
  }

  /** What a live __block variable holds is alive. */
  lemma {:induction false} HeldAlive(cells: seq<Cell>, objects: multiset<nat>, ext: multiset<Target>, s: nat)
    requires Sound(cells, objects, ext) && Alive(cells, ToByref(s))
    ensures AllAlive(cells, HeldBy(cells[s].held))
    ensures HasCopyDispose(cells[s].flags) || cells[s].held == Null
  {
    hide HeldBy, Refs;
    ShapeOf(cells, s);
    forall t | t in HeldBy(cells[s].held) ensures Alive(cells, t) {
      assert t in Out(cells[s]);
      RefsUpdate(cells, s, cells[s], t);
      assert Total(cells, ext, t) > 0;
    }
  }

  lemma {:induction false} WordKept(v: Int32, w: Int32)
    requires SameWord(v, w)
    ensures NeedsFree(v) == NeedsFree(w) && DeallocatingBit(v) == DeallocatingBit(w)
  {
  }

  lemma {:induction false} CopyIsMoved(cells: seq<Cell>, objects: multiset<nat>, ext: multiset<Target>, lo: nat,
                                       x: Capture, y: Capture)
    requires Sound(cells, objects, ext) && IsCaptureCopy(cells, lo, x, y)
    ensures Moved(cells, y)
  {
    if x.OfByref? {
      ShapeOf(cells, x.addr);
    } else if x.OfBlock? {
      assert IsCopy(cells, lo, x.block, y.block);
    }
  }

  // ----- the effect of a release -----

  lemma {:induction false} NothingFreed(cells: seq<Cell>, objects: multiset<nat>, ext: multiset<Target>)
    requires Sound(cells, objects, ext)
    ensures Shrinks(cells, cells) && FreesExactly(cells, cells, ext)
  {
    hide Sound, Closed, Shrunk;
    forall i: nat | i < |cells| ensures Shrunk(cells[i], cells[i]) {
      ShrunkSame(cells[i]);
    }
    FreedIsClosed(cells, cells, objects, ext);
    assert FreedBetween(cells, cells) == {};
  }

  lemma {:induction false} ExtIsBlock(cells: seq<Cell>, objects: multiset<nat>, ext: multiset<Target>, a: nat)
    requires Sound(cells, objects, ext) && ToBlock(a) in ext
    ensures a < |cells| && cells[a].BlockCell? && Managed(cells[a]) && Out(cells[a]) == HeldByAll(cells[a].captures)
    ensures forall k | 0 <= k < |cells[a].captures| :: Moved(cells, cells[a].captures[k])
  {
    assert Total(cells, ext, ToBlock(a)) > 0;
    ShapeOf(cells, a);
  }

  lemma {:induction false} ExtIsByref(cells: seq<Cell>, objects: multiset<nat>, ext: multiset<Target>, a: nat)
    requires Sound(cells, objects, ext) && ToByref(a) in ext && IsHeapByref(cells, a)
    ensures Alive(cells, ToByref(a)) && Out(cells[a]) == HeldBy(cells[a].held) && !cells[a].held.Stack?
    ensures cells[a].forwarding == a
    ensures HasCopyDispose(cells[a].flags) || cells[a].held == Null
  {
    assert Total(cells, ext, ToByref(a)) > 0;
    ShapeOf(cells, a);
  }

  /** A release that was not the last only lowers a count. */
  lemma {:induction false} OnlyCounted(before: seq<Cell>, after: seq<Cell>, objects: multiset<nat>,
                                       ext: multiset<Target>, i: nat)
    requires i < |before| && !before[i].Freed? && |after| == |before| && !after[i].Freed?
    requires after == before[i := after[i]]
    requires Shrunk(before[i], after[i]) && Sound(after, objects, ext)
    ensures Shrinks(before, after) && FreesExactly(before, after, ext) && Live(after) <= Live(before)
  {
    hide Sound, Closed, Shrunk;
    forall k: nat | k < |before| ensures Shrunk(before[k], after[k]) {
      if k != i { ShrunkSame(before[k]); }
    }
    FreedIsClosed(before, after, objects, ext);
    assert FreedBetween(before, after) == {};
    ShrinksLive(before, after);
  }

  lemma {:induction false} ShrinksLive(before: seq<Cell>, after: seq<Cell>)
    requires Shrinks(before, after)
    ensures Live(after) <= Live(before)
  {
    hide HighBits, DeallocatingBit, Count;
    forall i | i in Live(after) ensures i in Live(before) {
      assert Shrunk(before[i], after[i]);
      assert NeedsFree(before[i].flags) == NeedsFree(after[i].flags);
    }
  }

  /** The heap just after the last release of cell i: marked, its own references in the hands of the releaser. */
  ghost predicate Marked(before: seq<Cell>, refs: multiset<Target>, after: seq<Cell>, ext: multiset<Target>, i: nat) {
    && i < |before| == |after| && Collectable(before[i])
    && At(before[i], i) in refs && Total(before, refs, At(before[i], i)) == 1
    && Managed(after[i]) && after == before[i := WithFlags(before[i], after[i].flags)]
    && HighBits(after[i].flags) == HighBits(before[i].flags) && DeallocatingBit(after[i].flags) == 1
    && ext == refs - multiset{At(before[i], i)} + Out(before[i]) && Live(after) < Live(before)
  }

  lemma {:induction false} MarkedBlock(before: seq<Cell>, refs: multiset<Target>, after: seq<Cell>,
                                       ext: multiset<Target>, i: nat)
    requires Marked(before, refs, after, ext, i) && before[i].BlockCell?
    requires forall k | 0 <= k < |before[i].captures| :: Moved(before, before[i].captures[k])
    ensures Live(after) < Live(before) && HeldByAll(before[i].captures) <= ext
    ensures ext - HeldByAll(before[i].captures) == refs - multiset{ToBlock(i)}
    ensures forall k | 0 <= k < |before[i].captures| :: Moved(after, before[i].captures[k])
  {
    hide NeedsFree, Live, Refs, HeldByAll;
    forall k | 0 <= k < |before[i].captures| ensures Moved(after, before[i].captures[k]) {
      assert Moved(before, before[i].captures[k]);
    }
  }

  lemma {:induction false} MarkedByref(before: seq<Cell>, refs: multiset<Target>, after: seq<Cell>,
                                       ext: multiset<Target>, i: nat)
    requires Marked(before, refs, after, ext, i) && before[i].ByrefCell? && Out(before[i]) == HeldBy(before[i].held)
    ensures i < |after| && after[i].ByrefCell? && Live(after) < Live(before) && HeldBy(before[i].held) <= ext
    ensures HasCopyDispose(after[i].flags) == HasCopyDispose(before[i].flags)
    ensures ext - HeldBy(before[i].held) == refs - multiset{ToByref(i)}
  {
    hide NeedsFree, Live, Refs, HeldBy;
  }

  /** Cell i lost its last reference and was marked, its contents were given up, and it is freed. */
  lemma {:induction false} DisposedCell(before: seq<Cell>, refs: multiset<Target>, marked: seq<Cell>,
                                        ext0: multiset<Target>,
                     after: seq<Cell>, objects: multiset<nat>, ext: multiset<Target>, i: nat)
    requires Marked(before, refs, marked, ext0, i) && ext == refs - multiset{At(before[i], i)}
    requires Shrinks(marked, after) && Least(marked, after, ext) && Sound(after, objects, ext)
    ensures i < |after|
    ensures var final := after[i := Freed];
            && Sound(final, objects, ext) && Shrinks(before, final) && FreesExactly(before, final, ext)
            && Live(final) <= Live(before)
  {
    hide Sound, Closed, HighBits, DeallocatingBit, Count, Refs, Shrunk, NeedsFree, Live;
    var final := after[i := Freed];
    MarkedStays(marked[i], after[i]);
    FreeKeepsInv(after, objects, ext, i);
    forall k: nat | k < |before| ensures Shrunk(before[k], final[k]) {
      if k == i {
        ShrunkFreed(before[i]);
      } else {
        assert Shrunk(marked[k], after[k]);
      }
    }
    FreedIsClosed(before, final, objects, ext);
    forall g | Closed(g, before, ext) ensures FreedBetween(before, final) <= g {
      LastIsClosed(g, before, refs, ext, i);
      forall k: nat | k < |before| && k !in g ensures Shrunk(before[k], marked[k]) {
        ShrunkSame(before[k]);
      }
      ClosedPersists(g, before, marked, ext, ext);
      assert FreedBetween(marked, after) <= g;
    }
    ShrinksLive(before, final);
  }

  lemma {:induction false} MarkedStays(c: Cell, d: Cell)
    requires Shrunk(c, d) && Managed(c) && DeallocatingBit(c.flags) == 1
    ensures d == c
  {
  }

  lemma {:induction false} ShrunkFreed(c: Cell)
    requires Collectable(c)
    ensures Shrunk(c, Freed)
  {
  }

  lemma {:induction false} HeldByRest(captures: seq<Capture>, i: nat)
    requires i < |captures|
    ensures HeldByAll(captures[i..]) == HeldByCapture(captures[i]) + HeldByAll(captures[i + 1..])
  {
    assert captures[i..][1..] == captures[i + 1..];
  }

  /** The captures still to be given up are alive, and so still on the heap. */
  lemma {:induction false} MovedPersists(before: seq<Cell>, after: seq<Cell>, objects: multiset<nat>,
                                         ext: multiset<Target>, captures: seq<Capture>)
    requires Shrinks(before, after) && Sound(after, objects, ext) && HeldByAll(captures) <= ext
    requires forall k | 0 <= k < |captures| :: Moved(before, captures[k])
    ensures forall k | 0 <= k < |captures| :: Moved(after, captures[k])
  {
    hide HeldByAll, HighBits, DeallocatingBit, Count, Refs;
    forall k | 0 <= k < |captures| ensures Moved(after, captures[k]) {
      assert Moved(before, captures[k]);
      if captures[k].OfByref? {
        var a := captures[k].addr;
        HeldByAt(captures, k);
        assert ToByref(a) in HeldByCapture(captures[k]);
        assert Total(after, ext, ToByref(a)) > 0;
        assert Shrunk(before[a], after[a]);
        assert NeedsFree(before[a].flags) == NeedsFree(after[a].flags);
      }
    }
  }

  /** The count after one retain: it sticks at its maximum. */
  function OneMore(v: Int32): nat {
    if Latched(v) then 0x7fff else Count(v) + 1
  }

  lemma {:induction false} LeastOf(before: seq<Cell>, after: seq<Cell>, keep: multiset<Target>)
    requires FreesExactly(before, after, keep)
    ensures Least(before, after, keep)
  {
    hide Least, Closed;
  }

  // ----- how the steps of a copy keep account of the counts -----

  lemma {:induction false} NewBlockFair(cells: seq<Cell>, objects: multiset<nat>, ext: multiset<Target>, flags: Int32,
                                        m: multiset<Target>)
    requires Sound(cells, objects, ext) && AllAlive(cells, m)
    ensures var c := BlockCell(HeapFlags(flags, 1), []);
            && Out(c) == multiset{} && Private(cells + [c], |cells|, m)
            && Earned(cells, ext, cells + [c], ext + multiset{ToBlock(|cells|)})
  {
    hide Sound, Earned;
    var c := BlockCell(HeapFlags(flags, 1), []);
    assert Out(c) == multiset{};
    AlsoUnreferenced(cells, objects, ext, ToBlock(|cells|));
    NewIsPrivate(cells, c, m);
    EarnedAppend(cells, ext, c, ext + multiset{ToBlock(|cells|)});
  }

  lemma {:induction false} SparedAll(before: seq<Cell>, after: seq<Cell>, m: multiset<Target>)
    requires Spared(before, after, m)
    ensures |before| <= |after| && forall i: nat | Private(before, i, m) :: i < |before| && after[i] == before[i]
  {
    hide Refs;
  }

  lemma {:induction false} EarnedCaptures(cells: seq<Cell>, ext: multiset<Target>, n: nat, taken: seq<Capture>)
    requires n < |cells| && cells[n].BlockCell? && cells[n].captures == [] && DeallocatingBit(cells[n].flags) == 0
    requires HeldByAll(taken) <= ext
    ensures Earned(cells, ext, cells[n := cells[n].(captures := taken)], ext - HeldByAll(taken))
  {
    hide Earned, DeallocatingBit, NeedsFree;
    EarnedMove(cells, ext, n, cells[n].(captures := taken), ext - HeldByAll(taken));
  }

  lemma {:induction false} EarnedHeld(cells: seq<Cell>, ext: multiset<Target>, n: nat, held: Block)
    requires Alive(cells, ToByref(n)) && NeedsFree(cells[n].flags) && cells[n].held == Null && HeldBy(held) <= ext
    ensures Earned(cells, ext, cells[n := cells[n].(held := held)], ext - HeldBy(held))
  {
    hide Earned, DeallocatingBit, NeedsFree;
    NullHoldsNothing();
    EarnedMove(cells, ext, n, cells[n].(held := held), ext - HeldBy(held));
  }

  lemma {:induction false} NewByrefFair(cells: seq<Cell>, objects: multiset<nat>, ext: multiset<Target>, s: nat)
    requires Sound(cells, objects, ext) && Alive(cells, ToByref(s)) && cells[s].forwarding == s
    requires !NeedsFree(cells[s].flags)
    ensures var c := ByrefCell(HeapFlags(cells[s].flags, 2), |cells|, Null);
            var after := (cells + [c])[s := cells[s].(forwarding := |cells|)];
            && Out(c) == multiset{} && Count(c.flags) == 2 && Spared(cells, after, multiset{ToByref(s)})
            && Earned(cells, ext, after, ext + multiset{ToByref(|cells|)})
  {
    var n := |cells|;
    var c := ByrefCell(HeapFlags(cells[s].flags, 2), n, Null);
    assert Out(c) == multiset{} by { NullHoldsNothing(); }
    StackOut(cells, s);
    hide Sound, Earned, HeldBy, Out, HeapFlags, HighBits;
    var mid := cells + [c];
    var ext' := ext + multiset{ToByref(n)} + multiset{ToByref(n)};
    EarnedAppend(cells, ext, c, ext');
    EarnedMove(mid, ext', s, mid[s].(forwarding := n), ext + multiset{ToByref(n)});
    EarnedThrough(cells, ext, mid, ext', mid[s := mid[s].(forwarding := n)], ext + multiset{ToByref(n)});
    assert forall i: nat | Private(cells, i, multiset{ToByref(s)}) :: i != s;
  }

  lemma {:induction false} SparedForwardHeld(cells: seq<Cell>, objects: multiset<nat>, ext: multiset<Target>, s: nat,
                                             after: seq<Cell>)
    requires Sound(cells, objects, ext) && s < |cells| && cells[s].ByrefCell? && !NeedsFree(cells[s].flags)
    requires cells[s].forwarding == s
    requires var c := ByrefCell(HeapFlags(cells[s].flags, 2), |cells|, Null);
             Spared((cells + [c])[s := cells[s].(forwarding := |cells|)], after, HeldBy(cells[s].held))
    ensures Spared(cells, after, multiset{ToByref(s)})
  {
    hide HeldBy, Refs, HeapFlags, Shapes;
    var c := ByrefCell(HeapFlags(cells[s].flags, 2), |cells|, Null);
    NullHoldsNothing();
    SparedForward(cells, s, c, after);
  }

  lemma {:induction false} SparedElsewhere(before: seq<Cell>, after: seq<Cell>, n: nat, c: Cell, m: multiset<Target>)
    requires Spared(before, after, m) && |before| <= n < |after|
    ensures Spared(before, after[n := c], m)
  {
    hide Refs;
  }

  /** The heap byref that a variable forwards to is not private. */
  lemma {:induction false} SparedForwarded(cells: seq<Cell>, objects: multiset<nat>, ext: multiset<Target>, s: nat,
                                           after: seq<Cell>)
    requires Sound(cells, objects, ext) && Alive(cells, ToByref(s)) && cells[s].forwarding < |cells|
    requires cells[cells[s].forwarding].ByrefCell?
    requires Spared(cells, after, multiset{ToByref(cells[s].forwarding)})
    ensures Spared(cells, after, multiset{ToByref(s)})
  {
    hide Refs, HeldBy, HighBits, Counts, NoDangling, Retained, OneFrame;
    var f := cells[s].forwarding;
    ShapeOf(cells, s);
    RefsAtLeast(cells, s, ToByref(f));
    forall i: nat | Private(cells, i, multiset{ToByref(s)}) ensures after[i] == cells[i] {
      assert Private(cells, i, multiset{ToByref(f)});
    }
  }

  class Runtime {
    var cells: seq<Cell>
    var objects: multiset<nat>         // the retains that objects have received and not yet lost
    ghost var ext: multiset<Target>

    ghost predicate Valid()
      reads this
    {
      Sound(cells, objects, ext)
    }

    constructor ()
      ensures Valid() && cells == [] && objects == multiset{} && ext == multiset{}
    {
      cells, objects, ext := [], multiset{}, multiset{};
      new;
    }

    /** latching_incr_int on a cell's flags. */
    method Retain(i: nat)
      requires Valid() && i < |cells| && Managed(cells[i]) && Alive(cells, At(cells[i], i))
      modifies this`cells, this`ext
      ensures Valid() && Grows(old(cells), cells)
      ensures |cells| == |old(cells)| && !cells[i].Freed? && SameWord(old(cells[i].flags), cells[i].flags)
      ensures cells == old(cells)[i := WithFlags(old(cells[i]), cells[i].flags)]
      ensures Count(cells[i].flags) == OneMore(old(cells[i].flags))
      ensures ext == old(ext) + multiset{old(At(cells[i], i))}
      ensures Earned(old(cells), old(ext), cells, ext)
      ensures Spared(old(cells), cells, multiset{old(At(cells[i], i))})
    {
      hide Shapes, OneFrame, Counts, NoDangling, Retained, Earned, Spared;
      RetainKeepsInv(cells, objects, ext, i);
      SwapArithmetic(cells[i].flags);
      hide HighBits, Count, DeallocatingBit, LowBits;
      ghost var v := if Incr(cells[i].flags).Swap? then Incr(cells[i].flags).newValue else cells[i].flags;
      EarnedRetain(cells, objects, ext, i, v);
      SparedUpdate(cells, i, WithFlags(cells[i], v), multiset{At(cells[i], i)});
      ext := ext + multiset{At(cells[i], i)};
      match Incr(cells[i].flags)
      case Return(_) =>
        assert cells == cells[i := WithFlags(cells[i], cells[i].flags)];
      case Swap(v, _) => cells := cells[i := WithFlags(cells[i], v)];
    }

    /**
     _Block_copy.  A heap block is retained; a stack block becomes a new heap block that captures
     copies of everything the stack block captured.
     */
    method BlockCopy(b: Block) returns (r: Block)
      requires Valid() && AllAlive(cells, HeldBy(b))
      modifies this
      ensures Valid() && Grows(old(cells), cells)
      ensures !r.Stack? && ext == old(ext) + HeldBy(r) && IsCopy(cells, |old(cells)|, b, r)
      ensures b.Null? || b.Global? ==> cells == old(cells) && objects == old(objects)
      ensures b.Heap? ==> && b.addr < |old(cells)| && old(cells)[b.addr].BlockCell? && objects == old(objects)
                          && cells == old(cells)[b.addr := WithFlags(old(cells)[b.addr], cells[b.addr].flags)]
                          && Count(cells[b.addr].flags) == OneMore(old(cells)[b.addr].flags)
      ensures b.Stack? ==> Count(cells[r.addr].flags) == 1
      ensures Earned(old(cells), old(ext), cells, ext) && Spared(old(cells), cells, HeldBy(b))
      decreases OnStack(cells), Size(b)
    {
      hide Sound, AllAlive, Grows, IsCaptureCopy, Earned, Spared, Private;
      SparedSame(cells, HeldBy(b));
      EarnedOutside(cells, ext, ext);
      match b
      case Null =>
        GrowsSame(cells);
        return Null;
      case Global =>
        GrowsSame(cells);
        return Global;
      case Heap(a) =>
        HeldIsAlive(cells, objects, ext, a);
        Retain(a);
        return b;
      case Stack(flags, captures) =>
        var n := |cells|;
        NewBlock(cells, objects, ext, flags);
        NewBlockFair(cells, objects, ext, flags, HeldBy(b));
        AllAliveGrows(cells, cells + [BlockCell(HeapFlags(flags, 1), [])], HeldBy(b));
        cells := cells + [BlockCell(HeapFlags(flags, 1), [])];
        ext := ext + multiset{ToBlock(n)};
        ghost var mid, refs := cells, ext;
        CopyCaptures(n, captures);
        EarnedThrough(old(cells), old(ext), mid, refs, cells, ext);
        SparedBehind(old(cells), mid[n], cells, HeldBy(b));
        return Heap(n);
    }

    /** The copy helper of the new heap block n: takes over a copy of each capture, in order. */
    method CopyCaptures(n: nat, captures: seq<Capture>)
      requires Valid() && AllAlive(cells, HeldByAll(captures))
      requires n + 1 == |cells| && Alive(cells, ToBlock(n)) && cells[n].captures == []
      modifies this
      ensures Valid() && Grows(old(cells)[..n], cells) && ext == old(ext)
      ensures Alive(cells, ToBlock(n)) && HighBits(cells[n].flags) == old(HighBits(cells[n].flags))
      ensures |cells[n].captures| == |captures|
      ensures forall k | 0 <= k < |captures| :: IsCaptureCopy(cells, n, captures[k], cells[n].captures[k])
      ensures Earned(old(cells), old(ext), cells, ext)
      ensures forall i: nat | i < n && Private(old(cells), i, HeldByAll(captures)) :: cells[i] == old(cells)[i]
      ensures Private(old(cells), n, HeldByAll(captures)) ==> cells[n].flags == old(cells[n].flags)
      decreases OnStack(cells), SizeAll(captures), 0
    {
      hide Sound, AllAlive, Grows, IsCaptureCopy, HeldByAll, HeldByCapture, SizeAll, SizeCapture, HighBits, OnStack,
           DeallocatingBit, Earned, Spared, Private;
      SparedSame(cells, HeldByAll(captures));
      EarnedOutside(cells, ext, ext);
      var taken: seq<Capture> := [];
      GrowsSame(cells);
      HeldByNone(ext);
      BlockIsManaged(cells, objects, ext, n);
      for i := 0 to |captures|
        invariant Valid() && Grows(old(cells), cells) && AllAlive(cells, HeldByAll(captures))
        invariant OnStack(cells) <= OnStack(old(cells))
        invariant |taken| == i && ext == old(ext) + HeldByAll(taken)
        invariant forall k | 0 <= k < i :: IsCaptureCopy(cells, n + 1, captures[k], taken[k])
        invariant Earned(old(cells), old(ext), cells, ext) && Spared(old(cells), cells, HeldByAll(captures))
      {
        ghost var before, objs, refs, lo := cells, objects, ext, |cells|;
        HeldByAt(captures, i);
        AliveAt(cells, captures, i);
        SizeAt(captures, i);
        var y := CopyCapture(captures[i]);
        HeldByAppend(taken, y);
        AllAliveGrows(before, cells, HeldByAll(captures));
        LengthGrows(old(cells), before);
        CopiesPersist(before, cells, n + 1, captures[..i], taken);
        LowerBound(cells, lo, n + 1, captures[i], y);
        SoundStack(before, objs, refs, cells);
        GrowsThrough(old(cells), before, cells);
        EarnedThrough(old(cells), old(ext), before, refs, cells, ext);
        SparedMore(before, cells, HeldByCapture(captures[i]), HeldByAll(captures));
        SparedThrough(old(cells), old(objects), old(ext), before, objs, refs, cells, HeldByAll(captures));
        taken := taken + [y];
      }
      ghost var copied, refs := cells, ext;
      SparedAll(old(cells), cells, HeldByAll(captures));
      FillBlock(old(cells), cells, n, captures, taken);
      forall k | 0 <= k < |taken| ensures Moved(cells, taken[k]) {
        CopyIsMoved(cells, objects, ext, n + 1, captures[k], taken[k]);
      }
      CapturesKeepInv(cells, objects, ext, n, taken);
      EarnedCaptures(cells, ext, n, taken);
      ext := ext - HeldByAll(taken);
      cells := cells[n := cells[n].(captures := taken)];
      EarnedThrough(old(cells), old(ext), copied, refs, cells, ext);
    }

    method CopyCapture(x: Capture) returns (y: Capture)
      requires Valid() && AllAlive(cells, HeldByCapture(x))
      modifies this
      ensures Valid() && Grows(old(cells), cells)
      ensures ext == old(ext) + HeldByCapture(y) && IsCaptureCopy(cells, |old(cells)|, x, y)
      ensures OnStack(cells) <= OnStack(old(cells))
      ensures Earned(old(cells), old(ext), cells, ext) && Spared(old(cells), cells, HeldByCapture(x))
      decreases OnStack(cells), SizeCapture(x), 1
    {
      hide Sound, AllAlive, Grows, HeldByAll, HeldBy, HighBits, OnStack, Earned, Spared;
      y := x;
      SparedSame(cells, HeldByCapture(x));
      EarnedOutside(cells, ext, ext);
      GrowsSame(cells);
      match x
      case Object(o) =>
        ObjectKeepsInv(cells, objects, ext, o);
        EarnedOutside(cells, ext, ext + multiset{ToObject(o)});
        objects := objects + multiset{o};
        ext := ext + multiset{ToObject(o)};
      case Weak(_) =>
      case OfBlock(b) =>
        var r := BlockCopy(b);
        SoundStack(old(cells), old(objects), old(ext), cells);
        y := OfBlock(r);
      case OfByref(s) =>
        ByrefIsAlive(cells, s);
        var f := ByrefCopy(s);
        SoundStack(old(cells), old(objects), old(ext), cells);
        y := OfByref(f);
    }

    /**
     The first copy of a __block variable: a heap byref with one reference for the caller and one for
     the frame.  The variable forwards to it before the keep helper runs, so a block in it may
     capture the variable itself.
     */
    method MoveByref(s: nat)
      requires Valid() && Alive(cells, ToByref(s)) && cells[s].forwarding == s && !NeedsFree(cells[s].flags)
      modifies this
      ensures Valid() && Grows(old(cells), cells) && ext == old(ext) + multiset{ToByref(|old(cells)|)}
      ensures Alive(cells, ToByref(s)) && cells[s].forwarding == |old(cells)|
      ensures Alive(cells, ToByref(|old(cells)|)) && NeedsFree(cells[|old(cells)|].flags)
      ensures IsCopy(cells, |old(cells)|, old(cells[s].held), cells[|old(cells)|].held)
      ensures !old(cells[s].held).Stack? ==> Count(cells[|old(cells)|].flags) == 2
      ensures Earned(old(cells), old(ext), cells, ext) && Spared(old(cells), cells, multiset{ToByref(s)})
      decreases OnStack(cells), 0, 0
    {
      hide Sound, Grows, HeldBy, HighBits, OnStack, AllAlive, DeallocatingBit, Earned, Spared, Count;
      var n := |cells|;
      NewByref(cells, objects, ext, s);
      NewByrefFair(cells, objects, ext, s);
      cells := cells + [ByrefCell(HeapFlags(cells[s].flags, 2), n, Null)];
      cells := cells[s := cells[s].(forwarding := n)];
      ext := ext + multiset{ToByref(n)};
      HeldAlive(cells, objects, ext, s);
      ghost var before, refs := cells, ext;
      if HasCopyDispose(cells[s].flags) {
        var held := BlockCopy(cells[s].held);
        KeepHeld(old(cells), before, cells, objects, ext, s, n, before[s].held, held);
        SparedForwardHeld(old(cells), old(objects), old(ext), s, cells);
        ghost var copied, got := cells, ext;
        EarnedThrough(old(cells), old(ext), before, refs, copied, got);
        EarnedHeld(copied, got, n, held);
        cells := cells[n := cells[n].(held := held)];
        ext := ext - HeldBy(held);
        SparedElsewhere(old(cells), copied, n, cells[n], multiset{ToByref(s)});
        EarnedThrough(old(cells), old(ext), copied, got, cells, ext);
      }
    }

    /** _Block_byref_copy: the first copy moves the variable to the heap, every later one retains the heap byref. */
    method ByrefCopy(s: nat) returns (f: nat)
      requires Valid() && Alive(cells, ToByref(s))
      modifies this
      ensures Valid() && Grows(old(cells), cells)
      ensures Alive(cells, ToByref(s)) && f == cells[s].forwarding && ext == old(ext) + multiset{ToByref(f)}
      ensures Alive(cells, ToByref(f)) && NeedsFree(cells[f].flags) && cells[f].forwarding == f
      ensures old(cells[s].forwarding != s || NeedsFree(cells[s].flags)) ==>
                && f == old(cells[s].forwarding) && f < |old(cells)| && old(cells)[f].ByrefCell?
                && cells == old(cells)[f := WithFlags(old(cells)[f], cells[f].flags)]
                && Count(cells[f].flags) == OneMore(old(cells)[f].flags)
      ensures !old(cells[s].forwarding != s || NeedsFree(cells[s].flags)) ==>
                && f == |old(cells)| && IsCopy(cells, f, old(cells[s].held), cells[f].held)
                && (!old(cells[s].held).Stack? ==> Count(cells[f].flags) == 2)
      ensures Earned(old(cells), old(ext), cells, ext) && Spared(old(cells), cells, multiset{ToByref(s)})
      decreases OnStack(cells), 0, 1
    {
      hide Sound, Grows, HeldBy, HighBits, OnStack, DeallocatingBit, Count, Earned, Spared;
      var f0 := cells[s].forwarding;
      ForwardIsAlive(cells, objects, ext, s);
      if RefcountBits(cells[f0].flags) == 0 {
        MoveByref(s);
      } else if NeedsFree(cells[f0].flags) {
        Retain(f0);
        SparedForwarded(old(cells), old(objects), old(ext), s, cells);
        WordKept(old(cells)[f0].flags, cells[f0].flags);
      }
      f := cells[s].forwarding;
      ForwardIsAlive(cells, objects, ext, s);
    }

    // ----- releasing -----

    /**
     latching_decr_int_should_deallocate on a cell's flags.  If it answers yes, the cell has lost its
     last reference, and the references that it held are now the caller's to give up.
     */
    method Decrement(i: nat) returns (last: bool)
      requires Valid() && i < |cells| && Managed(cells[i]) && At(cells[i], i) in ext
      modifies this`cells, this`ext
      ensures Valid() && old(Count(cells[i].flags)) >= 1
      ensures last ==> Marked(old(cells), old(ext), cells, ext, i)
      ensures !last ==> ext == old(ext) - multiset{old(At(cells[i], i))}
      ensures !last ==> |cells| == |old(cells)| && cells == old(cells)[i := cells[i]]
                        && Shrunk(old(cells[i]), cells[i]) && !cells[i].Freed?
    {
      hide Sound, Out;
      ReleaseKeepsInv(cells, objects, ext, i);
      SwapArithmetic(cells[i].flags);
      hide HighBits, Count, DeallocatingBit, LowBits, Refs;
      var (v, report) := Decremented(cells[i].flags);
      assert NeedsFree(v) == NeedsFree(cells[i].flags);
      ext := ext - multiset{At(cells[i], i)} + (if report then Out(cells[i]) else multiset{});
      cells := cells[i := WithFlags(cells[i], v)];
      last := report;
      assert last ==> i in Live(old(cells)) && i !in Live(cells);
    }

    /** _Block_release. */
    method BlockRelease(b: Block)
      requires Valid() && (b.Heap? ==> ToBlock(b.addr) in ext)
      modifies this
      ensures Valid() && ext == old(ext) - (if b.Heap? then multiset{ToBlock(b.addr)} else multiset{})
      ensures !b.Heap? ==> cells == old(cells) && objects == old(objects)
      ensures Shrinks(old(cells), cells) && FreesExactly(old(cells), cells, ext) && Live(cells) <= Live(old(cells))
      decreases Live(cells), 0
    {
      hide Sound, Shrinks, FreesExactly, Live, Least, HeldByAll, HighBits, Count, DeallocatingBit, Refs, Moved, Out,
           NeedsFree, Shrunk, Marked;
      if !b.Heap? {
        NothingFreed(cells, objects, ext);
        return;
      }
      ExtIsBlock(cells, objects, ext, b.addr);
      var captures := cells[b.addr].captures;
      var last := Decrement(b.addr);
      if last {
        ghost var marked, refs := cells, ext;
        MarkedBlock(old(cells), old(ext), marked, refs, b.addr);
        DisposeCaptures(captures);
        DisposedCell(old(cells), old(ext), marked, refs, cells, objects, ext, b.addr);
        cells := cells[b.addr := Freed];
      } else {
        OnlyCounted(old(cells), cells, objects, ext, b.addr);
      }
    }

    /** The dispose helper: gives up each capture, in order. */
    method DisposeCaptures(captures: seq<Capture>)
      requires Valid() && HeldByAll(captures) <= ext && forall k | 0 <= k < |captures| :: Moved(cells, captures[k])
      modifies this
      ensures Valid() && ext == old(ext) - HeldByAll(captures)
      ensures Shrinks(old(cells), cells) && Least(old(cells), cells, ext) && Live(cells) <= Live(old(cells))
      decreases Live(cells), 2
    {
      hide Sound, Shrinks, Live, Least, HeldByAll, HeldByCapture, Moved;
      NothingFreed(cells, objects, ext);
      assert captures[0..] == captures;
      for i := 0 to |captures|
        invariant Valid() && HeldByAll(captures[i..]) <= ext
        invariant ext - HeldByAll(captures[i..]) == old(ext) - HeldByAll(captures)
        invariant Shrinks(old(cells), cells) && Least(old(cells), cells, ext) && Live(cells) <= Live(old(cells))
        invariant forall k | 0 <= k < |captures[i..]| :: Moved(cells, captures[i..][k])
      {
        ghost var before, refs := cells, ext;
        HeldByRest(captures, i);
        assert captures[i..][0] == captures[i];
        DisposeCapture(captures[i]);
        assert captures[i + 1..] == captures[i..][1..];
        MovedPersists(before, cells, objects, ext, captures[i + 1..]);
        LeastThrough(old(cells), before, cells, refs, ext);
      }
      assert captures[|captures|..] == [];
      HeldByNone(ext);
    }

    method DisposeCapture(x: Capture)
      requires Valid() && HeldByCapture(x) <= ext && Moved(cells, x)
      modifies this
      ensures Valid() && ext == old(ext) - HeldByCapture(x)
      ensures Shrinks(old(cells), cells) && Least(old(cells), cells, ext) && Live(cells) <= Live(old(cells))
      decreases Live(cells), 1
    {
      hide Sound, Shrinks, Live, Least, FreesExactly, Refs, HighBits, Count, DeallocatingBit, HeldByAll, Out;
      NothingFreed(cells, objects, ext);
      LeastOf(cells, cells, ext);
      match x
      case Object(o) =>
        assert ToObject(o) in HeldByCapture(x);
        ObjectKeepsInv(cells, objects, ext, o);
        objects := objects - multiset{o};
        ext := ext - multiset{ToObject(o)};
        NothingFreed(cells, objects, ext);
        LeastOf(cells, cells, ext);
      case Weak(_) =>
      case OfBlock(b) =>
        assert b.Heap? ==> ToBlock(b.addr) in HeldByCapture(x);
        BlockRelease(b);
        LeastOf(old(cells), cells, ext);
      case OfByref(s) =>
        assert ToByref(s) in HeldByCapture(x);
        ExtIsByref(cells, objects, ext, s);
        ForwardIsAlive(cells, objects, ext, s);
        ByrefRelease(s);
        LeastOf(old(cells), cells, ext);
    }

    /** _Block_byref_release: gives up a reference to the heap byref that s forwards to, if it is on the heap. */
    method ByrefRelease(s: nat)
      requires Valid() && Alive(cells, ToByref(s))
      requires IsHeapByref(cells, cells[s].forwarding) ==> ToByref(cells[s].forwarding) in ext
      modifies this
      ensures Valid()
      ensures ext == old(ext) -
                     (if old(IsHeapByref(cells, cells[s].forwarding)) then multiset{ToByref(old(cells[s].forwarding))}
                      else multiset{})
      ensures !old(IsHeapByref(cells, cells[s].forwarding)) ==> cells == old(cells) && objects == old(objects)
      ensures Shrinks(old(cells), cells) && FreesExactly(old(cells), cells, ext) && Live(cells) <= Live(old(cells))
      decreases Live(cells), 0
    {
      hide Sound, Shrinks, Closed, Live, Least, HighBits, HeldBy, Out, Refs, Shrunk, DeallocatingBit, Marked;
      ForwardIsAlive(cells, objects, ext, s);
      var byref := cells[s].forwarding;
      if NeedsFree(cells[byref].flags) {
        ExtIsByref(cells, objects, ext, byref);
        var held := cells[byref].held;
        assert RefcountBits(cells[byref].flags) != 0;  // os_assert(refcount)
        var last := Decrement(byref);
        if last {
          ghost var marked, refs := cells, ext;
          MarkedByref(old(cells), old(ext), marked, refs, byref);
          DisposeHeld(HasCopyDispose(cells[byref].flags), held);
          DisposedCell(old(cells), old(ext), marked, refs, cells, objects, ext, byref);
          cells := cells[byref := Freed];
        } else {
          OnlyCounted(old(cells), cells, objects, ext, byref);
        }
      } else {
        NothingFreed(cells, objects, ext);
      }
    }

    /** byref_destroy, for the variables that have one. */
    method DisposeHeld(hasHelper: bool, held: Block)
      requires Valid() && !held.Stack? && HeldBy(held) <= ext && (hasHelper || held == Null)
      modifies this
      ensures Valid() && ext == old(ext) - HeldBy(held)
      ensures Shrinks(old(cells), cells) && Least(old(cells), cells, ext) && Live(cells) <= Live(old(cells))
      decreases Live(cells), 1
    {
      hide Sound, Shrinks, Closed, Live, Least;
      if hasHelper {
        assert held.Heap? ==> ToBlock(held.addr) in HeldBy(held);
        BlockRelease(held);
      } else {
        NothingFreed(cells, objects, ext);
      }
    }

    /**
     _Block_tryRetain, by code that does not hold a reference: it fails only for a block that is
     being disposed of.
     */
    method TryRetain(a: nat) returns (ok: bool)
      requires Valid() && a < |cells| && cells[a].BlockCell?
      modifies this`cells, this`ext
      ensures Valid() && (ok <==> old(DeallocatingBit(cells[a].flags)) == 0)
      ensures ext == old(ext) + (if ok then multiset{ToBlock(a)} else multiset{})
      ensures ok ==> Grows(old(cells), cells) && |cells| == |old(cells)| && cells[a].BlockCell?
      ensures ok ==> cells == old(cells)[a := WithFlags(old(cells[a]), cells[a].flags)]
      ensures ok ==> Count(cells[a].flags) == OneMore(old(cells[a].flags))
      ensures Earned(old(cells), old(ext), cells, ext)
      ensures !ok ==> cells == old(cells)
    {
      hide Shapes, OneFrame, Counts, NoDangling, Retained, Grows, Earned;
      EarnedOutside(cells, ext, ext);
      ok := IncrNotDeallocating(cells[a].flags).ok;
      if ok {
        BlockIsManaged(cells, objects, ext, a);
        assert IncrNotDeallocating(cells[a].flags) == Incr(cells[a].flags);
        Retain(a);
      }
    }

    // ----- __block variables in stack frames -----

    /** A frame declares a __block variable; a block that it holds may capture the variable itself. */
    method DeclareByref(flags: Int32, held: Block) returns (s: nat)
      requires Valid() && !NeedsFree(flags) && LowBits(flags) == 0 && (HasCopyDispose(flags) || held == Null)
      requires forall t | t in HeldBy(held) && t != ToByref(|cells|) :: HeldBy(held)[t] <= ext[t]
      modifies this
      ensures Valid() && s == |old(cells)| && cells == old(cells) + [ByrefCell(flags, s, held)]
      ensures objects == old(objects)
      ensures ext[ToByref(s)] == 0 && forall t | t != ToByref(s) :: ext[t] == old(ext)[t] - HeldBy(held)[t]
    {
      hide Sound, HeldBy, HighBits;
      s := |cells|;
      var c := ByrefCell(flags, s, held);
      AlsoUnreferenced(cells, objects, ext, ToByref(s));
      AppendKeepsInv(cells, objects, ext, c, ext - HeldBy(held));
      cells := cells + [c];
      ext := ext - HeldBy(held);
    }

    /** A block on the stack captures a variable of a live frame: that takes no count. */
    ghost method MentionVariable(s: nat)
      requires Valid() && s < |cells| && cells[s].ByrefCell? && !NeedsFree(cells[s].flags)
      modifies this`ext
      ensures Valid() && ext == old(ext) + multiset{ToByref(s)}
    {
      StackMention(cells, objects, ext, s);
      ext := ext + multiset{ToByref(s)};
    }

    /** A block on the stack that captured the variable goes away. */
    ghost method ForgetVariable(s: nat)
      requires Valid() && s < |cells| && cells[s].ByrefCell? && !NeedsFree(cells[s].flags) && ToByref(s) in ext
      modifies this`ext
      ensures Valid() && ext == old(ext) - multiset{ToByref(s)}
    {
      StackMention(cells, objects, ext, s);
      ext := ext - multiset{ToByref(s)};
    }

    /**
     The frame of variable s ends, when no stack block mentions it any more but one that the variable
     holds itself.  The frame gives up its reference to the heap byref, if there is one; what else the
     variable held is left to the frame's code.
     */
    method EndFrame(s: nat)
      requires Valid() && s < |cells| && cells[s].ByrefCell? && !NeedsFree(cells[s].flags)
      requires Total(cells, ext, ToByref(s))
            == (if cells[s].forwarding == s then 1 else 0) + HeldBy(cells[s].held)[ToByref(s)]
      modifies this
      ensures Valid() && ext == old(ext) + LeftBy(old(cells[s].held), s)
      ensures Shrinks(old(cells)[s := Freed], cells) && FreesExactly(old(cells)[s := Freed], cells, ext)
    {
      StackIsAlive(cells, s);
      hide Sound, Shrinks, Closed, Least, FreesExactly, HighBits, Refs, HeldBy, LeftBy;
      ForwardIsAlive(cells, objects, ext, s);
      EndKeepsInv(cells, objects, ext, s);
      var f := cells[s].forwarding;
      ext := ext + LeftBy(cells[s].held, s) + (if f == s then multiset{} else multiset{ToByref(f)});
      cells := cells[s := Freed];
      if f != s {
        ByrefRelease(f);
      } else {
        NothingFreed(cells, objects, ext);
      }
    }
  }

  lemma {:induction false} StackMention(cells: seq<Cell>, objects: multiset<nat>, ext: multiset<Target>, s: nat)
    requires Sound(cells, objects, ext) && s < |cells| && cells[s].ByrefCell? && !NeedsFree(cells[s].flags)
    ensures Sound(cells, objects, ext + multiset{ToByref(s)})
    ensures ToByref(s) in ext ==> Sound(cells, objects, ext - multiset{ToByref(s)})
  {
    hide Refs, Counted;
    StackIsAlive(cells, s);
  }

  // ----- what the invariant says about one heap byref -----

  /** The references to t among what a cell captures or holds. */
  function Holding(c: Cell, t: Target): nat {
    if c.ByrefCell? && !NeedsFree(c.flags) then HeldBy(c.held)[t] else Out(c)[t]
  }

  function Holdings(cells: seq<Cell>, t: Target): nat {
    if cells == [] then 0 else Holding(cells[0], t) + Holdings(cells[1..], t)
  }

  lemma {:induction false} HoldingsAre(x: seq<Cell>, y: seq<Cell>, t: Target)
    requires |x| == |y| && forall i: nat | i < |x| :: Out(x[i])[t] == Holding(y[i], t)
    ensures Refs(x, t) == Holdings(y, t)
    decreases x
  {
    hide Out, Holding;
    if x != [] {
      forall i: nat | i < |x[1..]| ensures Out(x[1..][i])[t] == Holding(y[1..][i], t) {
        assert Out(x[i + 1])[t] == Holding(y[i + 1], t);
      }
      HoldingsAre(x[1..], y[1..], t);
    }
  }

  /**
   The count of a heap byref is the number of captures that hold it, besides the references in the
   hands of client code, plus one while the frame of its variable is alive.
   */
  lemma {:induction false} HeapByrefCount(cells: seq<Cell>, objects: multiset<nat>, ext: multiset<Target>, f: nat)
    requires Sound(cells, objects, ext) && IsHeapByref(cells, f) && !Latched(cells[f].flags)
    ensures Count(cells[f].flags) == ext[ToByref(f)] + Holdings(cells, ToByref(f))
              + (if exists s: nat :: Forwarded(cells, s) && cells[s].forwarding == f then 1 else 0)
  {
    hide Count, HighBits, NeedsFree, HeldBy, HeldByAll, Refs, Holdings;
    var t := ToByref(f);
    assert Counted(cells[f].flags, Total(cells, ext, t));
    if s: nat :| Forwarded(cells, s) && cells[s].forwarding == f {
      ShapeOf(cells, s);
      var alone := cells[s := cells[s].(forwarding := s)];
      RefsUpdate(cells, s, alone[s], t);
      forall i: nat | i < |cells| ensures Out(alone[i])[t] == Holding(cells[i], t) {
        FrameOut(cells, i, f);
      }
      HoldingsAre(alone, cells, t);
    } else {
      forall i: nat | i < |cells| ensures Out(cells[i])[t] == Holding(cells[i], t) {
        FrameOut(cells, i, f);
      }
      HoldingsAre(cells, cells, t);
    }
  }

  lemma {:induction false} FrameOut(cells: seq<Cell>, i: nat, f: nat)
    requires Shapes(cells) && i < |cells| && IsHeapByref(cells, f)
    ensures Out(cells[i])[ToByref(f)] == Holding(cells[i], ToByref(f)) +
                  (if Forwarded(cells, i) && cells[i].forwarding == f then 1 else 0)
    ensures Forwarded(cells, i) ==> Out(cells[i].(forwarding := i))[ToByref(f)] == Holding(cells[i], ToByref(f))
  {
    hide HighBits, HeldBy, HeldByAll, NeedsFree;
    ShapeOf(cells, i);
  }
}
