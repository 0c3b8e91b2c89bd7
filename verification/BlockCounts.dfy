/**
 What copying does to the counts of a heap of blocks and __block variables, beyond what the invariant
 says: a count latches only where that many references to the cell exist, and a cell to which nothing
 refers is not touched.
 */
module BlockCounts {
  import opened LatchingCount
  import opened BlockHeap

  // ----- counts latch only where they are earned -----

  predicate LatchedAt(cells: seq<Cell>, i: nat) {
    i < |cells| && Managed(cells[i]) && Latched(cells[i].flags)
  }

  predicate EarnedAt(before: seq<Cell>, ext: multiset<Target>, after: seq<Cell>, ext': multiset<Target>, i: nat)
    requires i < |after|
  {
    && (i < |before| ==> (Managed(before[i]) <==> Managed(after[i])) && At(before[i], i) == At(after[i], i))
    && (i < |before| && Managed(before[i]) ==>
          Total(before, ext, At(before[i], i)) <= Total(after, ext', At(before[i], i)))
    && (LatchedAt(after, i) && !LatchedAt(before, i) ==> Total(after, ext', At(after[i], i)) >= 0x7fff)
  }

  /** No reference to a heap cell is lost, and a cell that has latched meanwhile has 32767 references to it. */
  ghost predicate Earned(before: seq<Cell>, ext: multiset<Target>, after: seq<Cell>, ext': multiset<Target>) {
    |before| <= |after| && forall i: nat | i < |after| :: EarnedAt(before, ext, after, ext', i)
  }

  lemma {:induction false} EarnedThrough(a: seq<Cell>, x: multiset<Target>, b: seq<Cell>, y: multiset<Target>,
                                         c: seq<Cell>, z: multiset<Target>)
    requires Earned(a, x, b, y) && Earned(b, y, c, z)
    ensures Earned(a, x, c, z)
  {
    hide Total, Latched, Earned, Managed, At;
    EarnedSizes(a, x, b, y);
    EarnedSizes(b, y, c, z);
    forall i: nat | i < |c| ensures EarnedAt(a, x, c, z, i) {
      EarnedHere(b, y, c, z, i);
      if i < |b| {
        EarnedHere(a, x, b, y, i);
      }
    }
    EarnedAll(a, x, c, z);
  }

  lemma {:induction false} EarnedSizes(a: seq<Cell>, x: multiset<Target>, b: seq<Cell>, y: multiset<Target>)
    requires Earned(a, x, b, y)
    ensures |a| <= |b|
  {
  }

  lemma {:induction false} EarnedHere(a: seq<Cell>, x: multiset<Target>, b: seq<Cell>, y: multiset<Target>, i: nat)
    requires Earned(a, x, b, y) && i < |b|
    ensures EarnedAt(a, x, b, y, i)
  {
    hide EarnedAt;
  }

  lemma {:induction false} EarnedAll(a: seq<Cell>, x: multiset<Target>, b: seq<Cell>, y: multiset<Target>)
    requires |a| <= |b| && forall i: nat | i < |b| :: EarnedAt(a, x, b, y, i)
    ensures Earned(a, x, b, y)
  {
    hide EarnedAt;
  }

  /** Only client code gains references. */
  lemma {:induction false} EarnedOutside(cells: seq<Cell>, ext: multiset<Target>, ext': multiset<Target>)
    requires ext <= ext'
    ensures Earned(cells, ext, cells, ext')
  {
    hide Refs, Latched;
    forall i: nat | i < |cells| ensures EarnedAt(cells, ext, cells, ext', i) {
      assert ext[At(cells[i], i)] <= ext'[At(cells[i], i)];
    }
  }

  /** One cell is counted up, for a reference in the hands of client code. */
  lemma {:induction false} EarnedRetain(cells: seq<Cell>, objects: multiset<nat>, ext: multiset<Target>, i: nat,
                                        v: Int32)
    requires Sound(cells, objects, ext) && i < |cells| && Managed(cells[i])
    requires SameWord(cells[i].flags, v) && Count(v) <= Count(cells[i].flags) + 1
    ensures Earned(cells, ext, cells[i := WithFlags(cells[i], v)], ext + multiset{At(cells[i], i)})
  {
    hide Out, Refs, Shapes, OneFrame, NoDangling, Retained, HighBits, DeallocatingBit;
    var (c, t) := (WithFlags(cells[i], v), At(cells[i], i));
    var after := cells[i := c];
    SameOut(cells[i], v);
    assert Counted(cells[i].flags, Total(cells, ext, t));
    forall k: nat | k < |after| ensures EarnedAt(cells, ext, after, ext + multiset{t}, k) {
      RefsUpdate(cells, i, c, At(cells[k], k));
      LatchedCount(after[k]);
      LatchedCount(cells[k]);
    }
  }

  lemma {:induction false} LatchedCount(c: Cell)
    ensures !c.Freed? ==> (Latched(c.flags) <==> Count(c.flags) == 0x7fff)
  {
  }

  lemma {:induction false} SameOut(c: Cell, v: Int32)
    requires !c.Freed? && SameWord(c.flags, v)
    ensures Out(WithFlags(c, v)) == Out(c) && Managed(WithFlags(c, v)) == Managed(c)
  {
    hide HighBits, DeallocatingBit, Count, HeldBy, HeldByAll;
    assert NeedsFree(v) == NeedsFree(c.flags);
  }

  /** A new cell whose count has not latched. */
  lemma {:induction false} EarnedAppend(cells: seq<Cell>, ext: multiset<Target>, c: Cell, ext': multiset<Target>)
    requires ext <= ext' && !c.Freed? && !Latched(c.flags)
    ensures Earned(cells, ext, cells + [c], ext')
  {
    hide Out, Refs, Latched;
    var after := cells + [c];
    forall k: nat | k < |after| ensures EarnedAt(cells, ext, after, ext', k) {
      if k < |cells| {
        assert after[k] == cells[k];
        RefsAppend(cells, c, At(cells[k], k));
        assert ext[At(cells[k], k)] <= ext'[At(cells[k], k)];
      }
    }
  }

  /** References to heap cells move between client code and one cell, whose flags stay. */
  lemma {:induction false} EarnedMove(cells: seq<Cell>, ext: multiset<Target>, n: nat, c: Cell, ext': multiset<Target>)
    requires n < |cells| && !cells[n].Freed? && !c.Freed? && c.flags == cells[n].flags && At(c, n) == At(cells[n], n)
    requires forall k: nat | k < |cells| && Managed(cells[k]) ::
               ext'[At(cells[k], k)] + Out(c)[At(cells[k], k)] >= ext[At(cells[k], k)] + Out(cells[n])[At(cells[k], k)]
    ensures Earned(cells, ext, cells[n := c], ext')
  {
    hide Out, Refs, Latched;
    var after := cells[n := c];
    forall k: nat | k < |after| ensures EarnedAt(cells, ext, after, ext', k) {
      if Managed(cells[k]) {
        RefsUpdate(cells, n, c, At(cells[k], k));
      }
    }
  }

  // ----- cells that copying does not touch -----

  /** A heap cell to which no cell refers, nor any of the references in m. */
  predicate Private(cells: seq<Cell>, i: nat, m: multiset<Target>) {
    && i < |cells| && Managed(cells[i]) && !Latched(cells[i].flags)
    && Refs(cells, At(cells[i], i)) == 0 && At(cells[i], i) !in m
  }

  ghost predicate Spared(before: seq<Cell>, after: seq<Cell>, m: multiset<Target>) {
    |before| <= |after| && forall i: nat | Private(before, i, m) :: after[i] == before[i]
  }

  /** A cell that is as it was still has no reference from a cell. */
  lemma {:induction false} StaysPrivate(a: seq<Cell>, os: multiset<nat>, x: multiset<Target>, b: seq<Cell>,
                                        ps: multiset<nat>, y: multiset<Target>, i: nat, m: multiset<Target>)
    requires Sound(a, os, x) && Sound(b, ps, y) && x <= y && i < |b| && Private(a, i, m) && b[i] == a[i]
    ensures Refs(b, At(b[i], i)) == 0
  {
    hide Refs, Shapes, OneFrame, NoDangling, Retained, Count, DeallocatingBit;
    var t := At(a[i], i);
    assert Counted(a[i].flags, Total(a, x, t)) && Counted(b[i].flags, Total(b, y, t));
    assert x[t] <= y[t];
  }

  lemma {:induction false} SparedThrough(a: seq<Cell>, os: multiset<nat>, x: multiset<Target>, b: seq<Cell>,
                                         ps: multiset<nat>, y: multiset<Target>, c: seq<Cell>, m: multiset<Target>)
    requires Sound(a, os, x) && Sound(b, ps, y) && x <= y && Spared(a, b, m) && Spared(b, c, m)
    ensures Spared(a, c, m)
  {
    hide Refs, Sound;
    forall i: nat | Private(a, i, m) ensures c[i] == a[i] {
      StaysPrivate(a, os, x, b, ps, y, i, m);
      assert Private(b, i, m);
    }
  }

  lemma {:induction false} SparedMore(a: seq<Cell>, b: seq<Cell>, m: multiset<Target>, m': multiset<Target>)
    requires Spared(a, b, m) && m <= m'
    ensures Spared(a, b, m')
  {
    hide Refs;
    forall i: nat | Private(a, i, m') ensures b[i] == a[i] {
      assert Private(a, i, m);
    }
  }

  /** A cell changes to which there is a reference, in m or from a cell. */
  lemma {:induction false} SparedUpdate(cells: seq<Cell>, i: nat, c: Cell, m: multiset<Target>)
    requires i < |cells| && (At(cells[i], i) in m || Refs(cells, At(cells[i], i)) > 0)
    ensures Spared(cells, cells[i := c], m)
  {
    hide Refs;
  }

  lemma {:induction false} SparedSame(cells: seq<Cell>, m: multiset<Target>)
    ensures Spared(cells, cells, m)
  {
    hide Refs;
  }

  lemma {:induction false} SparedAppend(cells: seq<Cell>, c: Cell, m: multiset<Target>)
    ensures Spared(cells, cells + [c], m)
  {
    hide Refs;
  }

  /** A new block that has not captured anything yet. */
  lemma {:induction false} NewIsPrivate(cells: seq<Cell>, c: Cell, m: multiset<Target>)
    requires Managed(c) && c.BlockCell? && !Latched(c.flags) && Out(c) == multiset{}
    requires Refs(cells, ToBlock(|cells|)) == 0 && ToBlock(|cells|) !in m
    ensures Private(cells + [c], |cells|, m)
  {
    hide Refs, Out;
    RefsAppend(cells, c, ToBlock(|cells|));
  }

  /** What was private before it was appended is so afterwards, and is spared with the rest. */
  lemma {:induction false} SparedBehind(cells: seq<Cell>, c: Cell, after: seq<Cell>, m: multiset<Target>)
    requires Out(c) == multiset{} && |cells| < |after|
    requires forall i: nat | i < |cells| && Private(cells + [c], i, m) :: after[i] == cells[i]
    ensures Spared(cells, after, m)
  {
    hide Refs, Out;
    forall i: nat | Private(cells, i, m) ensures after[i] == cells[i] {
      assert (cells + [c])[i] == cells[i];
      RefsAppend(cells, c, At(cells[i], i));
      assert Private(cells + [c], i, m);
    }
  }

  /** A variable s in a frame comes to forward to a new heap byref, and what it holds is copied. */
  lemma {:induction false} SparedForward(cells: seq<Cell>, s: nat, c: Cell, after: seq<Cell>)
    requires Shapes(cells) && s < |cells| && cells[s].ByrefCell? && !NeedsFree(cells[s].flags) && Out(c) == multiset{}
    requires cells[s].forwarding == s
    requires Spared((cells + [c])[s := cells[s].(forwarding := |cells|)], after, HeldBy(cells[s].held))
    ensures |cells| < |after|
    ensures forall i: nat | Private(cells, i, multiset{ToByref(s)}) :: after[i] == cells[i]
  {
    hide Refs, HeldBy, Shapes, Latched;
    StackOut(cells, s);
    var (n, held) := (|cells|, HeldBy(cells[s].held));
    var mid := (cells + [c])[s := cells[s].(forwarding := n)];
    forall i: nat | Private(cells, i, multiset{ToByref(s)}) ensures after[i] == cells[i] {
      var t := At(cells[i], i);
      assert i != s && mid[i] == cells[i];
      RefsAppend(cells, c, t);
      RefsUpdate(cells + [c], s, mid[s], t);
      RefsAtLeast(cells, s, t);
      assert t != ToByref(n) && t != ToByref(s);
      assert Private(mid, i, held);
    }
  }

  lemma {:induction false} StackOut(cells: seq<Cell>, s: nat)
    requires Shapes(cells) && s < |cells| && cells[s].ByrefCell? && !NeedsFree(cells[s].flags)
    ensures Out(cells[s]) == HeldBy(cells[s].held) + multiset{ToByref(cells[s].forwarding)}
    ensures forall n: nat ::
              Out(cells[s].(forwarding := n)) == HeldBy(cells[s].held) + multiset{ToByref(n)}
  {
    hide HeldBy;
    StackIsAlive(cells, s);
  }
}
