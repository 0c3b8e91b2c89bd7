/**
 The heap of blocks and __block variables that the Blocks runtime maintains (libclosure/runtime.cpp),
 and the invariant that ties every reference count to the references that exist.

 A cell is a copied block, or a __block variable ("byref") in a stack frame or on the heap.  Blocks
 that are still on the stack are values: they only ever capture things that existed before them.
 */
module BlockHeap {
  import opened LatchingCount

  /** A pointer to a block, with the block itself where it is still on the stack. */
  datatype Block = Null | Global | Heap(addr: nat) | Stack(flags: Int32, captures: seq<Capture>)

  datatype Capture =
    | Object(id: nat)
    | OfBlock(block: Block)
    | OfByref(addr: nat)
    | Weak(id: nat)

  /**
   A byref whose flags say BLOCK_BYREF_HAS_COPY_DISPOSE holds a block, which its keep helper copies
   and its destroy helper releases; any other byref holds plain data, here Null.
   */
  datatype Cell =
    | Freed
    | BlockCell(flags: Int32, captures: seq<Capture>)
    | ByrefCell(flags: Int32, forwarding: nat, held: Block)

  /** What a reference refers to. */
  datatype Target = ToBlock(addr: nat) | ToByref(addr: nat) | ToObject(id: nat)

  // ----- the flags word -----

  const HIGH_NEEDS_FREE: nat := 0x100        // bit 24, counted from bit 16
  const HIGH_HAS_COPY_DISPOSE: nat := 0x200  // bit 25

  predicate NeedsFree(v: Int32) {
    HighBits(v) / HIGH_NEEDS_FREE % 2 == 1
  }

  predicate HasCopyDispose(v: Int32) {
    HighBits(v) / HIGH_HAS_COPY_DISPOSE % 2 == 1
  }

  /** (v & ~0xffff) | BLOCK_NEEDS_FREE | 2 * count: every other high bit is kept. */
  function HeapFlags(v: Int32, count: nat): (r: Int32)
    requires count <= 0x7fff
    ensures NeedsFree(r) && Count(r) == count && DeallocatingBit(r) == 0
    ensures HasCopyDispose(r) <==> HasCopyDispose(v)
    ensures HighBits(r) == HighBits(v) + (if NeedsFree(v) then 0 else HIGH_NEEDS_FREE)
  {
    HighRange(v);
    var h := HighBits(v) + (if NeedsFree(v) then 0 else HIGH_NEEDS_FREE);
    SetBit(HighBits(v));
    WordParts(h, count, 0);
    0x1_0000 * h + 2 * count
  }

  lemma {:induction false} HighRange(v: Int32)
    ensures -0x8000 <= HighBits(v) < 0x8000
  {
  }

  lemma {:induction false} SetBit(h: int)
    requires -0x8000 <= h < 0x8000
    ensures var g := h + (if h / 0x100 % 2 == 1 then 0 else 0x100);
            -0x8000 <= g < 0x8000 && g / 0x100 % 2 == 1 && g / 0x200 == h / 0x200
  {
    if h / 0x100 % 2 != 1 {
      assert (h + 0x100) / 0x100 == h / 0x100 + 1;
      HalveTwice(h);
      HalveTwice(h + 0x100);
    }
  }

  lemma {:induction false} HalveTwice(h: int)
    ensures h / 0x200 == h / 0x100 / 2
  {
  }

  // ----- references -----

  /** What the holder of a block pointer holds a reference to; a block on the stack, all that it captures. */
  function HeldBy(b: Block): multiset<Target>
    decreases b
  {
    match b
    case Null => multiset{}
    case Global => multiset{}
    case Heap(a) => multiset{ToBlock(a)}
    case Stack(_, captures) => HeldByAll(captures)
  }

  function HeldByCapture(c: Capture): multiset<Target>
    decreases c
  {
    match c
    case Object(o) => multiset{ToObject(o)}
    case OfBlock(b) => HeldBy(b)
    case OfByref(a) => multiset{ToByref(a)}
    case Weak(_) => multiset{}
  }

  function HeldByAll(captures: seq<Capture>): multiset<Target>
    decreases captures
  {
    if captures == [] then multiset{} else HeldByCapture(captures[0]) + HeldByAll(captures[1..])
  }

  /** The references that a cell holds; a cell that is being disposed of has handed them over. */
  function Out(c: Cell): multiset<Target> {
    match c
    case Freed => multiset{}
    case BlockCell(flags, captures) => if DeallocatingBit(flags) == 1 then multiset{} else HeldByAll(captures)
    case ByrefCell(flags, forwarding, held) =>
      if DeallocatingBit(flags) == 1 then multiset{}
      else if NeedsFree(flags) then HeldBy(held)
      else HeldBy(held) + multiset{ToByref(forwarding)}
  }

  /** How many references to t all the cells hold. */
  function Refs(cells: seq<Cell>, t: Target): nat {
    if cells == [] then 0 else Out(cells[0])[t] + Refs(cells[1..], t)
  }

  lemma {:induction false} RefsUpdate(cells: seq<Cell>, i: nat, c: Cell, t: Target)
    requires i < |cells|
    ensures Refs(cells[i := c], t) == Refs(cells, t) - Out(cells[i])[t] + Out(c)[t]
    ensures Out(cells[i])[t] <= Refs(cells, t)
    decreases cells
  {
    hide Out;
    if i == 0 {
      assert cells[i := c][1..] == cells[1..];
    } else {
      assert cells[i := c][1..] == cells[1..][i - 1 := c];
      RefsUpdate(cells[1..], i - 1, c, t);
    }
  }

  lemma {:induction false} RefsAtLeast(cells: seq<Cell>, k: nat, t: Target)
    requires k < |cells|
    ensures Out(cells[k])[t] <= Refs(cells, t)
    decreases cells
  {
    hide Out;
    if k > 0 {
      RefsAtLeast(cells[1..], k - 1, t);
    }
  }

  lemma {:induction false} RefsAppend(cells: seq<Cell>, c: Cell, t: Target)
    ensures Refs(cells + [c], t) == Refs(cells, t) + Out(c)[t]
    decreases cells
  {
    hide Out;
    if cells == [] {
      assert (cells + [c])[1..] == [];
    } else {
      assert (cells + [c])[1..] == cells[1..] + [c];
      RefsAppend(cells[1..], c, t);
    }
  }

  lemma {:induction false} HeldByAppend(captures: seq<Capture>, c: Capture)
    ensures HeldByAll(captures + [c]) == HeldByAll(captures) + HeldByCapture(c)
    decreases captures
  {
    hide HeldByCapture;
    if captures == [] {
      assert (captures + [c])[1..] == [];
    } else {
      assert (captures + [c])[1..] == captures[1..] + [c];
      HeldByAppend(captures[1..], c);
    }
  }

  lemma {:induction false} HeldByAt(captures: seq<Capture>, k: nat)
    requires k < |captures|
    ensures HeldByCapture(captures[k]) <= HeldByAll(captures)
    decreases captures
  {
    hide HeldByCapture;
    if k > 0 {
      HeldByAt(captures[1..], k - 1);
    }
  }

  // ----- the invariant -----

  /** The references to t: those that client code, or a dispose in progress, holds, and those that cells hold. */
  function Total(cells: seq<Cell>, ext: multiset<Target>, t: Target): nat {
    ext[t] + Refs(cells, t)
  }

  /** A cell that references may point to: not freed, and not being disposed of. */
  predicate Alive(cells: seq<Cell>, t: Target) {
    match t
    case ToBlock(a) => a < |cells| && cells[a].BlockCell? && DeallocatingBit(cells[a].flags) == 0
    case ToByref(a) => a < |cells| && cells[a].ByrefCell? && DeallocatingBit(cells[a].flags) == 0
    case ToObject(_) => true
  }

  predicate Managed(c: Cell) {
    !c.Freed? && NeedsFree(c.flags)
  }

  function At(c: Cell, i: nat): Target {
    if c.ByrefCell? then ToByref(i) else ToBlock(i)
  }

  predicate IsHeapByref(cells: seq<Cell>, a: nat) {
    a < |cells| && cells[a].ByrefCell? && NeedsFree(cells[a].flags)
  }

  /** A capture of a heap block: it refers to nothing on the stack. */
  predicate Moved(cells: seq<Cell>, c: Capture) {
    match c
    case OfBlock(b) => !b.Stack?
    case OfByref(a) => IsHeapByref(cells, a)
    case Object(_) => true
    case Weak(_) => true
  }

  predicate Shape(cells: seq<Cell>, i: nat)
    requires i < |cells|
  {
    match cells[i]
    case Freed => true
    case BlockCell(flags, captures) =>
      NeedsFree(flags) && (DeallocatingBit(flags) == 0 ==> forall k | 0 <= k < |captures| :: Moved(cells, captures[k]))
    case ByrefCell(flags, f, held) =>
      && (HasCopyDispose(flags) || held == Null)
      && (NeedsFree(flags) ==> f == i && !held.Stack?)
      && (!NeedsFree(flags) ==> LowBits(flags) == 0 && (f == i || IsHeapByref(cells, f)))
  }

  /** The count of a cell with n references to it: n, unless it has latched; zero only while it is being disposed of. */
  predicate Counted(flags: Int32, n: nat) {
    && (!Latched(flags) ==> Count(flags) == n)
    && (DeallocatingBit(flags) == 0 <==> Count(flags) >= 1)
  }

  ghost predicate Shapes(cells: seq<Cell>) {
    forall i: nat | i < |cells| :: Shape(cells, i)
  }

  ghost predicate Counts(cells: seq<Cell>, ext: multiset<Target>) {
    forall i: nat | i < |cells| && Managed(cells[i]) :: Counted(cells[i].flags, Total(cells, ext, At(cells[i], i)))
  }

  /** References point only to cells that are alive. */
  ghost predicate NoDangling(cells: seq<Cell>, ext: multiset<Target>) {
    forall t | Total(cells, ext, t) > 0 :: Alive(cells, t)
  }

  ghost predicate Retained(cells: seq<Cell>, objects: multiset<nat>, ext: multiset<Target>) {
    forall o :: objects[o] == Total(cells, ext, ToObject(o))
  }

  /** A byref in a live frame that has been copied to the heap. */
  predicate Forwarded(cells: seq<Cell>, s: nat) {
    s < |cells| && cells[s].ByrefCell? && !NeedsFree(cells[s].flags) && cells[s].forwarding != s
  }

  /** No two frames share a heap byref. */
  ghost predicate OneFrame(cells: seq<Cell>) {
    forall s: nat, u: nat | s != u && Forwarded(cells, s) && Forwarded(cells, u) ::
      cells[s].forwarding != cells[u].forwarding
  }

  ghost predicate Sound(cells: seq<Cell>, objects: multiset<nat>, ext: multiset<Target>) {
    && Shapes(cells) && OneFrame(cells)
    && Counts(cells, ext) && NoDangling(cells, ext) && Retained(cells, objects, ext)
  }

  // ----- one lemma for each way in which the runtime changes a cell -----

  function WithFlags(c: Cell, v: Int32): (r: Cell)
    requires !c.Freed?
  {
    match c
    case BlockCell(_, captures) => BlockCell(v, captures)
    case ByrefCell(_, f, held) => ByrefCell(v, f, held)
  }

  /** The shape of the heap after one cell has changed; a heap byref goes away only if nothing refers to it. */
  lemma {:induction false} ShapesUpdate(cells: seq<Cell>, i: nat, c: Cell)
    requires Shapes(cells) && OneFrame(cells) && i < |cells|
    requires Shape(cells[i := c], i)
    requires IsHeapByref(cells, i) && !IsHeapByref(cells[i := c], i) ==> Refs(cells, ToByref(i)) == 0
    requires Forwarded(cells[i := c], i) ==>
               forall s: nat | s != i && Forwarded(cells, s) :: cells[s].forwarding != c.forwarding
    ensures Shapes(cells[i := c]) && OneFrame(cells[i := c])
  {
    hide HighBits, LowBits, NeedsFree, HasCopyDispose, Shape, Refs;
    var after := cells[i := c];
    forall k: nat | k < |after| ensures Shape(after, k) {
      if k != i {
        assert Shape(cells, k);
        ShapeElsewhere(cells, i, c, k);
      }
    }
    forall s: nat | Forwarded(after, s) && s != i ensures Forwarded(cells, s) {
    }
  }

  lemma {:induction false} ShapeElsewhere(cells: seq<Cell>, i: nat, c: Cell, k: nat)
    requires i < |cells| && k < |cells| && k != i && Shape(cells, k)
    requires IsHeapByref(cells, i) && !IsHeapByref(cells[i := c], i) ==> Refs(cells, ToByref(i)) == 0
    ensures Shape(cells[i := c], k)
  {
    hide HighBits, NeedsFree, HasCopyDispose, Refs, HeldByAll;
    var after := cells[i := c];
    RefsUpdate(cells, k, cells[k], ToByref(i));
    match cells[k] {
      case Freed =>
      case BlockCell(flags, captures) =>
        if DeallocatingBit(flags) == 0 {
          forall j | 0 <= j < |captures| ensures Moved(after, captures[j]) {
            assert Moved(cells, captures[j]);
            HeldByAt(captures, j);
            assert captures[j] == OfByref(i) ==> ToByref(i) in HeldByCapture(captures[j]);
          }
        }
      case ByrefCell(_, _, _) =>
    }
  }

  /** One cell changes; every reference, except to that cell itself, only moves between the cell and `ext`. */
  lemma {:induction false} TotalsUpdate(cells: seq<Cell>, objects: multiset<nat>, ext: multiset<Target>, i: nat,
                                        c: Cell, ext': multiset<Target>)
    requires Counts(cells, ext) && NoDangling(cells, ext) && Retained(cells, objects, ext)
    requires i < |cells| && !cells[i].Freed? && (!c.Freed? ==> At(c, i) == At(cells[i], i))
    requires forall t | t != At(cells[i], i) :: ext'[t] + Out(c)[t] == ext[t] + Out(cells[i])[t]
    requires Managed(c) ==> Counted(c.flags, Total(cells[i := c], ext', At(c, i)))
    requires Total(cells[i := c], ext', At(cells[i], i)) > 0 ==> Alive(cells[i := c], At(cells[i], i))
    ensures Counts(cells[i := c], ext') && NoDangling(cells[i := c], ext') && Retained(cells[i := c], objects, ext')
  {
    hide Out, Refs, Counted, DeallocatingBit, NeedsFree;
    var self := At(cells[i], i);
    var after := cells[i := c];
    forall t | t != self ensures Total(after, ext', t) == Total(cells, ext, t) {
      RefsUpdate(cells, i, c, t);
    }
    forall k: nat | k < |after| && Managed(after[k])
      ensures Counted(after[k].flags, Total(after, ext', At(after[k], k))) {
      if k != i {
        assert At(cells[k], k) != self;
      }
    }
    forall t | Total(after, ext', t) > 0 ensures Alive(after, t) {
      if t != self {
        assert Alive(cells, t);
      }
    }
  }

  /** Only the count of cell i changes, with the references to it. */
  lemma {:induction false} CountKeepsInv(cells: seq<Cell>, objects: multiset<nat>, ext: multiset<Target>, i: nat,
                                         v: Int32, ext': multiset<Target>)
    requires Sound(cells, objects, ext) && i < |cells| && Managed(cells[i]) && DeallocatingBit(cells[i].flags) == 0
    requires HighBits(v) == HighBits(cells[i].flags) && DeallocatingBit(v) == 0
    requires forall t | t != At(cells[i], i) :: ext'[t] == ext[t]
    requires Counted(v, Total(cells, ext', At(cells[i], i)))
    ensures Sound(cells[i := WithFlags(cells[i], v)], objects, ext')
  {
    hide HeldBy, HeldByAll, Count, DeallocatingBit, HighBits, LowBits, Shapes, OneFrame, Counts, NoDangling,
         Retained, Refs, Counted;
    var c := WithFlags(cells[i], v);
    FlagsShape(cells, i, v);
    ShapesUpdate(cells, i, c);
    assert Out(c) == Out(cells[i]);
    RefsUpdate(cells, i, c, At(c, i));
    TotalsUpdate(cells, objects, ext, i, c, ext');
  }

  lemma {:induction false} FlagsShape(cells: seq<Cell>, i: nat, v: Int32)
    requires Shapes(cells) && i < |cells| && Managed(cells[i]) && HighBits(v) == HighBits(cells[i].flags)
    requires DeallocatingBit(v) == 1 || DeallocatingBit(cells[i].flags) == 0
    ensures Shape(cells[i := WithFlags(cells[i], v)], i) && NeedsFree(v)
    ensures HasCopyDispose(v) == HasCopyDispose(cells[i].flags)
  {
    assert Shape(cells, i);
    assert NeedsFree(v);
    assert Shape(cells[i := WithFlags(cells[i], v)], i) by {
      hide NeedsFree, HasCopyDispose, DeallocatingBit;
      var after := cells[i := WithFlags(cells[i], v)];
      if cells[i].BlockCell? && DeallocatingBit(v) == 0 {
        forall k | 0 <= k < |cells[i].captures| ensures Moved(after, cells[i].captures[k]) {
          assert Moved(cells, cells[i].captures[k]);
        }
      }
    }
  }

  lemma {:induction false} RetainKeepsInv(cells: seq<Cell>, objects: multiset<nat>, ext: multiset<Target>, i: nat)
    requires Sound(cells, objects, ext) && i < |cells| && Managed(cells[i]) && DeallocatingBit(cells[i].flags) == 0
    ensures var a := Incr(cells[i].flags);
            var v := if a.Swap? then a.newValue else cells[i].flags;
            Sound(cells[i := WithFlags(cells[i], v)], objects, ext + multiset{At(cells[i], i)})
  {
    hide Count, DeallocatingBit, HighBits, Refs, Shapes, OneFrame, NoDangling, Retained;
    var a := Incr(cells[i].flags);
    SwapArithmetic(cells[i].flags);
    CountKeepsInv(cells, objects, ext, i, if a.Swap? then a.newValue else cells[i].flags,
                  ext + multiset{At(cells[i], i)});
  }

  /** What a release does to the flags word of a cell, and whether it is the last. */
  function Decremented(v: Int32): (r: (Int32, bool)) {
    var a := DecrShouldDeallocate(v);
    (if a.Swap? then a.newValue else v, a.ok)
  }

  /**
   A release.  If it is the last one, the cell is left marked as deallocating and the references that
   it held pass to the code that disposes of it.
   */
  lemma {:induction false} ReleaseKeepsInv(cells: seq<Cell>, objects: multiset<nat>, ext: multiset<Target>, i: nat)
    requires Sound(cells, objects, ext) && i < |cells| && Managed(cells[i]) && At(cells[i], i) in ext
    ensures Count(cells[i].flags) >= 1 && DeallocatingBit(cells[i].flags) == 0
    ensures var (v, last) := Decremented(cells[i].flags);
            && HighBits(v) == HighBits(cells[i].flags)
            && (last <==> DeallocatingBit(v) == 1)
            && (last ==> !Latched(cells[i].flags) && Total(cells, ext, At(cells[i], i)) == 1)
            && Sound(cells[i := WithFlags(cells[i], v)], objects,
                   ext - multiset{At(cells[i], i)} + (if last then Out(cells[i]) else multiset{}))
  {
    hide Count, DeallocatingBit, HighBits, Refs, Shapes, OneFrame, Retained, Out;
    var self := At(cells[i], i);
    assert Total(cells, ext, self) > 0;
    var (v, last) := Decremented(cells[i].flags);
    SwapArithmetic(cells[i].flags);
    if last {
      LastReleaseKeepsInv(cells, objects, ext, i, v);
    } else {
      CountKeepsInv(cells, objects, ext, i, v, ext - multiset{self});
      assert ext - multiset{self} + multiset{} == ext - multiset{self};
    }
  }

  lemma {:induction false} LastReleaseKeepsInv(cells: seq<Cell>, objects: multiset<nat>, ext: multiset<Target>,
                                               i: nat, v: Int32)
    requires Sound(cells, objects, ext) && i < |cells| && Managed(cells[i]) && At(cells[i], i) in ext
    requires Total(cells, ext, At(cells[i], i)) == 1
    requires HighBits(v) == HighBits(cells[i].flags) && DeallocatingBit(v) == 1 && Count(v) == 0
    ensures Sound(cells[i := WithFlags(cells[i], v)], objects, ext - multiset{At(cells[i], i)} + Out(cells[i]))
  {
    hide HeldBy, HeldByAll, DeallocatingBit, HighBits, Shapes, OneFrame, Counts, NoDangling, Retained, Refs;
    var self := At(cells[i], i);
    var c := WithFlags(cells[i], v);
    var ext' := ext - multiset{self} + Out(cells[i]);
    FlagsShape(cells, i, v);
    ShapesUpdate(cells, i, c);
    assert Out(c) == multiset{};
    RefsUpdate(cells, i, c, self);
    assert Total(cells[i := c], ext', self) == 0;
    TotalsUpdate(cells, objects, ext, i, c, ext');
  }

  /** free(): nothing refers to a cell that has been disposed of. */
  lemma {:induction false} FreeKeepsInv(cells: seq<Cell>, objects: multiset<nat>, ext: multiset<Target>, i: nat)
    requires Sound(cells, objects, ext) && i < |cells| && Managed(cells[i]) && DeallocatingBit(cells[i].flags) == 1
    ensures Sound(cells[i := Freed], objects, ext)
  {
    hide HeldBy, HeldByAll, HighBits, Refs;
    var self := At(cells[i], i);
    assert !Alive(cells, self);
    RefsUpdate(cells, i, Freed, self);
    assert Total(cells, ext, self) == 0;
    ShapesUpdate(cells, i, Freed);
    TotalsUpdate(cells, objects, ext, i, Freed, ext);
  }

  /** Forwarding is idempotent: it leads to a live heap byref that forwards to itself. */
  lemma {:induction false} ForwardIsAlive(cells: seq<Cell>, objects: multiset<nat>, ext: multiset<Target>, s: nat)
    requires Sound(cells, objects, ext) && Alive(cells, ToByref(s))
    ensures var f := cells[s].forwarding;
            && Alive(cells, ToByref(f)) && cells[f].forwarding == f
            && (Forwarded(cells, s) ==> NeedsFree(cells[f].flags))
            && (RefcountBits(cells[f].flags) == 0 <==> !NeedsFree(cells[f].flags))
            && (!NeedsFree(cells[f].flags) ==> f == s)
  {
    hide HeldBy, HighBits, Refs, Shapes;
    assert Shapes(cells);
    ShapeOf(cells, s);
    var f := cells[s].forwarding;
    if Forwarded(cells, s) {
      assert ToByref(f) in Out(cells[s]);
      RefsUpdate(cells, s, cells[s], ToByref(f));
      assert Total(cells, ext, ToByref(f)) > 0;
    }
    ShapeOf(cells, f);
  }

  lemma {:induction false} ShapeOf(cells: seq<Cell>, i: nat)
    requires Shapes(cells) && i < |cells|
    ensures Shape(cells, i)
  {
  }

  /** A new cell, to which nothing refers yet. */
  lemma {:induction false} AppendKeepsInv(cells: seq<Cell>, objects: multiset<nat>, ext: multiset<Target>, c: Cell,
                                          ext': multiset<Target>)
    requires Sound(cells, objects, ext) && !c.Freed? && Shape(cells + [c], |cells|) && DeallocatingBit(c.flags) == 0
    requires c.ByrefCell? ==> c.forwarding == |cells|
    requires forall t | t != At(c, |cells|) :: ext'[t] + Out(c)[t] == ext[t]
    requires Managed(c) ==> Counted(c.flags, ext'[At(c, |cells|)] + Out(c)[At(c, |cells|)])
    ensures Sound(cells + [c], objects, ext')
  {
    hide Refs, Out, DeallocatingBit, NeedsFree, HasCopyDispose, Counted, Shape;
    var n := |cells|;
    var self := At(c, n);
    var after := cells + [c];
    assert !Alive(cells, self);
    forall t ensures Refs(after, t) == Refs(cells, t) + Out(c)[t] {
      RefsAppend(cells, c, t);
    }
    assert forall t | t != self :: Total(after, ext', t) == Total(cells, ext, t);
    forall k: nat | k < n
      ensures Shape(after, k) && (Managed(after[k]) ==> Counted(after[k].flags, Total(after, ext', At(after[k], k)))) {
      ShapeAppended(cells, c, k);
      assert At(cells[k], k) != self;
    }
    forall s: nat | Forwarded(after, s) ensures Forwarded(cells, s) {
    }
    forall t | Total(after, ext', t) > 0 ensures Alive(after, t) {
      assert t != self ==> Alive(cells, t);
    }
  }

  lemma {:induction false} ShapeAppended(cells: seq<Cell>, c: Cell, k: nat)
    requires Shapes(cells) && k < |cells|
    ensures Shape(cells + [c], k)
  {
    hide NeedsFree, HasCopyDispose, DeallocatingBit, LowBits;
    ShapeOf(cells, k);
  }

  /** The byref s in a live frame now forwards to the heap byref n, which nothing else forwards to. */
  lemma {:induction false} ForwardKeepsInv(cells: seq<Cell>, objects: multiset<nat>, ext: multiset<Target>, s: nat,
                                           n: nat)
    requires Sound(cells, objects, ext) && s < |cells| && n < |cells| && s != n
    requires cells[s].ByrefCell? && !NeedsFree(cells[s].flags) && cells[s].forwarding == s
    requires cells[n].ByrefCell? && NeedsFree(cells[n].flags) && DeallocatingBit(cells[n].flags) == 0
    requires ToByref(n) in ext && forall u: nat | Forwarded(cells, u) :: cells[u].forwarding != n
    ensures Sound(cells[s := cells[s].(forwarding := n)], objects, ext - multiset{ToByref(n)})
  {
    hide HeldBy, HighBits, LowBits, Refs, NeedsFree, HasCopyDispose, Counted;
    var c := cells[s].(forwarding := n);
    ShapeOf(cells, s);
    ShapesUpdate(cells, s, c);
    StackIsAlive(cells, s);
    TotalsUpdate(cells, objects, ext, s, c, ext - multiset{ToByref(n)});
  }

  lemma {:induction false} StackIsAlive(cells: seq<Cell>, s: nat)
    requires Shapes(cells) && s < |cells| && cells[s].ByrefCell? && !NeedsFree(cells[s].flags)
    ensures Alive(cells, ToByref(s))
  {
    ShapeOf(cells, s);
  }

  /** A heap byref takes over a block that its keep helper has copied. */
  lemma {:induction false} HoldKeepsInv(cells: seq<Cell>, objects: multiset<nat>, ext: multiset<Target>, n: nat,
                                        b: Block)
    requires Sound(cells, objects, ext) && Alive(cells, ToByref(n)) && NeedsFree(cells[n].flags)
    requires HasCopyDispose(cells[n].flags) && cells[n].held == Null && !b.Stack? && HeldBy(b) <= ext
    ensures Sound(cells[n := cells[n].(held := b)], objects, ext - HeldBy(b))
  {
    hide HighBits, LowBits, Refs, NeedsFree, HasCopyDispose, DeallocatingBit, Counted;
    var c := cells[n].(held := b);
    ShapeOf(cells, n);
    ShapesUpdate(cells, n, c);
    NoSelf(cells, objects, ext, n, c, ext - HeldBy(b));
  }

  /** A heap block takes over the captures that its copy helper has copied. */
  lemma {:induction false} CapturesKeepInv(cells: seq<Cell>, objects: multiset<nat>, ext: multiset<Target>, n: nat,
                                           taken: seq<Capture>)
    requires Sound(cells, objects, ext) && Alive(cells, ToBlock(n)) && cells[n].captures == []
    requires HeldByAll(taken) <= ext && forall k | 0 <= k < |taken| :: Moved(cells, taken[k])
    ensures Sound(cells[n := cells[n].(captures := taken)], objects, ext - HeldByAll(taken))
  {
    hide HeldBy, HeldByCapture, HighBits, LowBits, Refs, NeedsFree, HasCopyDispose, DeallocatingBit, Counted;
    var c := cells[n].(captures := taken);
    ShapeOf(cells, n);
    ShapesUpdate(cells, n, c);
    NoSelf(cells, objects, ext, n, c, ext - HeldByAll(taken));
  }

  /** References move from `ext` into a cell that is alive and keeps its flags. */
  lemma {:induction false} NoSelf(cells: seq<Cell>, objects: multiset<nat>, ext: multiset<Target>, n: nat, c: Cell,
                                  ext': multiset<Target>)
    requires Sound(cells, objects, ext) && n < |cells| && Managed(cells[n]) && Alive(cells, At(cells[n], n))
    requires Managed(c) && c.flags == cells[n].flags && At(c, n) == At(cells[n], n)
    requires forall t :: ext'[t] + Out(c)[t] == ext[t] + Out(cells[n])[t]
    ensures Counts(cells[n := c], ext') && NoDangling(cells[n := c], ext') && Retained(cells[n := c], objects, ext')
  {
    hide Out, HeldBy, HeldByAll, HighBits, LowBits, Refs, NeedsFree, HasCopyDispose, DeallocatingBit, Counted;
    RefsUpdate(cells, n, c, At(c, n));
    TotalsUpdate(cells, objects, ext, n, c, ext');
  }

  /** What the frame of variable s is left with when the variable goes away: what it held, except itself. */
  function LeftBy(held: Block, s: nat): multiset<Target> {
    HeldBy(held)[ToByref(s) := 0]
  }

  /**
   A frame ends: its __block variable goes away, and with it the references that it held.  Nothing
   else refers to the variable any more, but a block that it holds may.
   */
  lemma {:induction false} EndKeepsInv(cells: seq<Cell>, objects: multiset<nat>, ext: multiset<Target>, s: nat)
    requires Sound(cells, objects, ext) && s < |cells| && cells[s].ByrefCell? && !NeedsFree(cells[s].flags)
    requires Total(cells, ext, ToByref(s))
          == (if cells[s].forwarding == s then 1 else 0) + HeldBy(cells[s].held)[ToByref(s)]
    ensures var f := cells[s].forwarding;
            var ext' := ext + LeftBy(cells[s].held, s) + (if f == s then multiset{} else multiset{ToByref(f)});
            Sound(cells[s := Freed], objects, ext')
  {
    hide HeldBy, HighBits, Refs, NeedsFree, HasCopyDispose;
    var c := cells[s];
    var f := c.forwarding;
    var ext' := ext + LeftBy(c.held, s) + (if f == s then multiset{} else multiset{ToByref(f)});
    ShapeOf(cells, s);
    ShapesUpdate(cells, s, Freed);
    assert Out(c) == HeldBy(c.held) + multiset{ToByref(f)};
    RefsUpdate(cells, s, Freed, ToByref(s));
    TotalsUpdate(cells, objects, ext, s, Freed, ext');
  }

  lemma {:induction false} ObjectKeepsInv(cells: seq<Cell>, objects: multiset<nat>, ext: multiset<Target>, o: nat)
    requires Sound(cells, objects, ext)
    ensures Sound(cells, objects + multiset{o}, ext + multiset{ToObject(o)})
    ensures ToObject(o) in ext ==> o in objects && Sound(cells, objects - multiset{o}, ext - multiset{ToObject(o)})
  {
    hide Refs, Counted, DeallocatingBit, NeedsFree;
  }

  // ----- what copying does to the heap -----

  /** A cell after some copying: counts may have grown, and a byref in a frame may have moved to the heap. */
  predicate Grown(i: nat, c: Cell, d: Cell) {
    match c
    case Freed => d == c
    case BlockCell(flags, captures) =>
      d.BlockCell? && d.captures == captures && SameWord(flags, d.flags)
    case ByrefCell(flags, f, held) =>
      d.ByrefCell? && d.held == held && SameWord(flags, d.flags) &&
      (d.forwarding == f || (!NeedsFree(flags) && f == i)) && (!NeedsFree(flags) ==> d.flags == flags)
  }

  /** A byref once on the heap stays there, and whatever forwards to it goes on doing so. */
  predicate Steady(i: nat, c: Cell, d: Cell) {
    c.ByrefCell? ==>
      d.ByrefCell? && NeedsFree(d.flags) == NeedsFree(c.flags) &&
      (d.forwarding == c.forwarding || (!NeedsFree(c.flags) && c.forwarding == i))
  }

  lemma {:induction false} GrownSteady(before: seq<Cell>, after: seq<Cell>)
    requires Grows(before, after)
    ensures forall i: nat | i < |before| :: Grown(i, before[i], after[i]) && Steady(i, before[i], after[i])
  {
    hide HighBits, Count, DeallocatingBit;
    forall i: nat | i < |before| ensures Steady(i, before[i], after[i]) {
      assert Grown(i, before[i], after[i]);
      assert before[i].ByrefCell? ==> NeedsFree(before[i].flags) == NeedsFree(after[i].flags);
    }
  }

  /** Everything in the word except the count, which has not fallen. */
  predicate SameWord(v: Int32, w: Int32) {
    HighBits(v) == HighBits(w) && DeallocatingBit(v) == DeallocatingBit(w) && Count(v) <= Count(w)
  }

  /** Existing cells have only grown; new cells belong to the heap. */
  ghost predicate Grows(before: seq<Cell>, after: seq<Cell>) {
    && |before| <= |after|
    && (forall i: nat | i < |before| :: Grown(i, before[i], after[i]))
    && (forall i: nat | |before| <= i < |after| :: Managed(after[i]))
  }

  lemma {:induction false} GrowsThrough(a: seq<Cell>, b: seq<Cell>, c: seq<Cell>)
    requires Grows(a, b) && Grows(b, c)
    ensures Grows(a, c)
  {
    hide HighBits, Count, DeallocatingBit;
    forall i: nat | i < |a| ensures Grown(i, a[i], c[i]) {
      assert Grown(i, a[i], b[i]) && Grown(i, b[i], c[i]);
      assert !a[i].Freed? ==> NeedsFree(a[i].flags) == NeedsFree(b[i].flags);
    }
    forall i: nat | |a| <= i < |c| ensures Managed(c[i]) {
      if i < |b| {
        assert Grown(i, b[i], c[i]);
        assert NeedsFree(b[i].flags) == NeedsFree(c[i].flags);
      }
    }
  }

  lemma {:induction false} GrowsAlive(before: seq<Cell>, after: seq<Cell>, t: Target)
    requires Grows(before, after) && Alive(before, t)
    ensures Alive(after, t)
  {
    hide HighBits, Count, DeallocatingBit;
    if !t.ToObject? {
      assert Grown(t.addr, before[t.addr], after[t.addr]);
    }
  }

  /** The __block variables in live frames that have not been copied to the heap. */
  function OnStack(cells: seq<Cell>): set<nat> {
    set s: nat | s < |cells| && cells[s].ByrefCell? && !NeedsFree(cells[s].flags) && cells[s].forwarding == s
  }

  lemma {:induction false} GrowsLeavesStack(before: seq<Cell>, after: seq<Cell>)
    requires Shapes(before) && Grows(before, after)
    ensures OnStack(after) <= OnStack(before)
  {
    hide HighBits, Count, DeallocatingBit, LowBits;
    forall s | s in OnStack(after) ensures s in OnStack(before) {
      if s < |before| {
        assert Grown(s, before[s], after[s]);
        ShapeOf(before, s);
        assert NeedsFree(before[s].flags) == NeedsFree(after[s].flags);
      }
    }
  }

  /**
   r is what _Block_copy makes of b: b itself, unless it was on the stack; then a heap block, at an
   address from `lo` on, with copies of all its captures.
   */
  predicate IsCopy(cells: seq<Cell>, lo: nat, b: Block, r: Block)
    decreases b
  {
    if b.Stack? then
      && r.Heap? && lo <= r.addr < |cells| && cells[r.addr].BlockCell?
      && HighBits(cells[r.addr].flags) == HighBits(HeapFlags(b.flags, 1))
      && |cells[r.addr].captures| == |b.captures|
      && forall k | 0 <= k < |b.captures| :: IsCaptureCopy(cells, lo, b.captures[k], cells[r.addr].captures[k])
    else r == b
  }

  /** A captured byref is replaced by the heap byref that it forwards to; an object is retained as it is. */
  predicate IsCaptureCopy(cells: seq<Cell>, lo: nat, x: Capture, y: Capture)
    decreases x
  {
    match x
    case OfBlock(b) => y.OfBlock? && IsCopy(cells, lo, b, y.block)
    case OfByref(s) =>
      && s < |cells| && cells[s].ByrefCell? && y == OfByref(cells[s].forwarding)
      && (s == cells[s].forwarding ==> NeedsFree(cells[s].flags))
    case Object(_) => y == x
    case Weak(_) => y == x
  }

  lemma {:induction false} CopyPersists(before: seq<Cell>, after: seq<Cell>, lo: nat, lo': nat, b: Block, r: Block)
    requires IsCopy(before, lo, b, r) && lo' <= lo && |before| <= |after|
    requires forall i: nat | i < |before| ::
               Steady(i, before[i], after[i]) && (lo <= i ==> Grown(i, before[i], after[i]))
    ensures IsCopy(after, lo', b, r)
    decreases b
  {
    hide HighBits, Count, DeallocatingBit;
    if b.Stack? {
      assert Grown(r.addr, before[r.addr], after[r.addr]);
      forall k | 0 <= k < |b.captures|
        ensures IsCaptureCopy(after, lo', b.captures[k], after[r.addr].captures[k])
      {
        CaptureCopyPersists(before, after, lo, lo', b.captures[k], after[r.addr].captures[k]);
      }
    }
  }

  lemma {:induction false} CaptureCopyPersists(before: seq<Cell>, after: seq<Cell>, lo: nat, lo': nat, x: Capture,
                                               y: Capture)
    requires IsCaptureCopy(before, lo, x, y) && lo' <= lo && |before| <= |after|
    requires forall i: nat | i < |before| ::
               Steady(i, before[i], after[i]) && (lo <= i ==> Grown(i, before[i], after[i]))
    ensures IsCaptureCopy(after, lo', x, y)
    decreases x
  {
    hide HighBits, Count, DeallocatingBit;
    if x.OfBlock? {
      CopyPersists(before, after, lo, lo', x.block, y.block);
    } else if x.OfByref? {
      assert Steady(x.addr, before[x.addr], after[x.addr]);
    }
  }

  // ----- what a release does to the heap -----

  /** A cell after a release and all that followed from it: freed, or as it was but for its count. */
  predicate Shrunk(c: Cell, d: Cell) {
    if c.Freed? then d.Freed?
    else if d.Freed? then Managed(c) && DeallocatingBit(c.flags) == 0 && !Latched(c.flags)
    else
      && HighBits(d.flags) == HighBits(c.flags) && d == WithFlags(c, d.flags)
      && DeallocatingBit(d.flags) == DeallocatingBit(c.flags) && Count(d.flags) <= Count(c.flags)
      && (Latched(c.flags) || !NeedsFree(c.flags) || DeallocatingBit(c.flags) == 1 ==> d == c)
  }

  ghost predicate Shrinks(before: seq<Cell>, after: seq<Cell>) {
    |before| == |after| && forall i: nat | i < |before| :: Shrunk(before[i], after[i])
  }

  function FreedBetween(before: seq<Cell>, after: seq<Cell>): set<nat>
    requires |before| == |after|
  {
    set i: nat | i < |before| && !before[i].Freed? && after[i].Freed?
  }

  /** The heap without the cells in g. */
  function Without(cells: seq<Cell>, g: set<nat>): (r: seq<Cell>)
    ensures |r| == |cells|
  {
    seq(|cells|, i requires 0 <= i < |cells| => if i in g then Freed else cells[i])
  }

  /**
   A set of cells that releasing could not stop short of: every live, unlatched cell to which neither
   `keep` nor any cell outside the set refers is in the set.
   */
  ghost predicate Closed(g: set<nat>, cells: seq<Cell>, keep: multiset<Target>) {
    forall i: nat | i < |cells| && Collectable(cells[i]) && Total(Without(cells, g), keep, At(cells[i], i)) == 0 ::
      i in g
  }

  predicate Collectable(c: Cell) {
    Managed(c) && DeallocatingBit(c.flags) == 0 && !Latched(c.flags)
  }

  /** No more cells have been freed than had to be. */
  ghost predicate Least(before: seq<Cell>, after: seq<Cell>, keep: multiset<Target>) {
    |before| == |after| &&
    forall g | Closed(g, before, keep) :: FreedBetween(before, after) <= g
  }

  /** The cells freed are the least closed set: all that has lost its last reference, and nothing else. */
  ghost predicate FreesExactly(before: seq<Cell>, after: seq<Cell>, keep: multiset<Target>) {
    Least(before, after, keep) && Closed(FreedBetween(before, after), before, keep)
  }

  lemma {:induction false} RefsMonotone(x: seq<Cell>, y: seq<Cell>, t: Target)
    requires |x| == |y| && forall i: nat | i < |x| :: Out(x[i])[t] <= Out(y[i])[t]
    ensures Refs(x, t) <= Refs(y, t)
    decreases x
  {
    hide Out;
    if x != [] {
      assert forall i: nat | i < |x| - 1 :: Out(x[1..][i])[t] <= Out(y[1..][i])[t] by {
        forall i: nat | i < |x| - 1 ensures Out(x[1..][i])[t] <= Out(y[1..][i])[t] {
          assert Out(x[i + 1])[t] <= Out(y[i + 1])[t];
        }
      }
      RefsMonotone(x[1..], y[1..], t);
    }
  }

  lemma {:induction false} ShrunkOut(c: Cell, d: Cell)
    requires Shrunk(c, d)
    ensures d.Freed? || Out(d) == Out(c)
    ensures !d.Freed? && Managed(d) ==> Managed(c)
    ensures Collectable(d) ==> Collectable(c) && c.ByrefCell? == d.ByrefCell?
  {
    hide HeldBy, HeldByAll, HighBits, Count, DeallocatingBit;
    if !d.Freed? {
      assert NeedsFree(d.flags) == NeedsFree(c.flags);
    }
  }

  /** A set that is closed stays closed while cells in it are freed. */
  lemma {:induction false} ClosedPersists(g: set<nat>, before: seq<Cell>, after: seq<Cell>, keep: multiset<Target>,
                                          keep': multiset<Target>)
    requires Closed(g, before, keep) && |before| == |after| && keep <= keep'
    requires forall i: nat | i < |before| && i !in g ::
               Shrunk(before[i], after[i]) && (after[i].Freed? ==> before[i].Freed?)
    ensures Closed(g, after, keep')
  {
    hide Out, Refs, Shrunk, Collectable;
    forall i: nat | i < |after| && Collectable(after[i]) && Total(Without(after, g), keep', At(after[i], i)) == 0
      ensures i in g
    {
      if i !in g {
        ShrunkOut(before[i], after[i]);
        var t := At(after[i], i);
        forall k: nat | k < |before| ensures Out(Without(before, g)[k])[t] <= Out(Without(after, g)[k])[t] {
          if k !in g {
            ShrunkOut(before[k], after[k]);
          }
        }
        RefsMonotone(Without(before, g), Without(after, g), t);
      }
    }
  }

  /** A cell that loses its last reference is in every closed set. */
  lemma {:induction false} LastIsClosed(g: set<nat>, cells: seq<Cell>, ext: multiset<Target>, keep: multiset<Target>,
                                        i: nat)
    requires Closed(g, cells, keep) && i < |cells| && Collectable(cells[i])
    requires At(cells[i], i) in ext && Total(cells, ext, At(cells[i], i)) == 1
    requires keep <= ext - multiset{At(cells[i], i)}
    ensures i in g
  {
    hide Out, Refs, Collectable;
    var t := At(cells[i], i);
    forall k: nat | k < |cells| ensures Out(Without(cells, g)[k])[t] <= Out(cells[k])[t] {
      FreedOut(t);
    }
    RefsMonotone(Without(cells, g), cells, t);
  }

  lemma {:induction false} FreedOut(t: Target)
    ensures Out(Freed)[t] == 0
  {
  }

  lemma {:induction false} ShrunkSame(c: Cell)
    ensures Shrunk(c, c)
  {
  }

  lemma {:induction false} ShrinksThrough(a: seq<Cell>, b: seq<Cell>, c: seq<Cell>)
    requires Shrinks(a, b) && Shrinks(b, c)
    ensures Shrinks(a, c)
  {
    hide HighBits, Count, DeallocatingBit;
    forall i: nat | i < |a| ensures Shrunk(a[i], c[i]) {
      assert Shrunk(a[i], b[i]) && Shrunk(b[i], c[i]);
      assert !a[i].Freed? && !b[i].Freed? ==> NeedsFree(a[i].flags) == NeedsFree(b[i].flags);
    }
  }

  /** Two releases one after the other, the second giving up more than the first. */
  lemma {:induction false} LeastThrough(a: seq<Cell>, b: seq<Cell>, c: seq<Cell>, keep: multiset<Target>,
                                        keep': multiset<Target>)
    requires Shrinks(a, b) && Least(a, b, keep) && Shrinks(b, c) && Least(b, c, keep') && keep' <= keep
    ensures Shrinks(a, c) && Least(a, c, keep')
  {
    hide Out, Refs, Collectable, Closed, Shrunk;
    ShrinksThrough(a, b, c);
    forall g | Closed(g, a, keep') ensures FreedBetween(a, c) <= g {
      assert Least(a, b, keep);
      forall i: nat | i < |a| ensures Shrunk(a[i], a[i]) {
        ShrunkSame(a[i]);
      }
      ClosedPersists(g, a, a, keep', keep);
      assert FreedBetween(a, b) <= g;
      ClosedPersists(g, a, b, keep', keep');
      assert FreedBetween(b, c) <= g;
    }
  }

  /** Whatever survives still has a reference: the freed cells form a closed set. */
  lemma {:induction false} FreedIsClosed(before: seq<Cell>, after: seq<Cell>, objects: multiset<nat>,
                                         keep: multiset<Target>)
    requires Shrinks(before, after) && Sound(after, objects, keep)
    ensures Closed(FreedBetween(before, after), before, keep)
  {
    hide Out, Refs, HighBits, DeallocatingBit, Sound, Shapes, OneFrame, Retained, NoDangling, Shrunk;
    var f := FreedBetween(before, after);
    forall i: nat | i < |before| && Collectable(before[i]) && i !in f
      ensures Total(Without(before, f), keep, At(before[i], i)) > 0
    {
      Survivor(before[i], after[i]);
      assert Sound(after, objects, keep);
      CountedAt(after, objects, keep, i);
      var t := At(after[i], i);
      forall k: nat | k < |after| ensures Out(after[k])[t] <= Out(Without(before, f)[k])[t] {
        FreedOut(t);
        ShrunkOut(before[k], after[k]);
        if before[k].Freed? {
          FreedStays(before[k], after[k]);
        }
      }
      RefsMonotone(after, Without(before, f), t);
    }
  }

  lemma {:induction false} FreedStays(c: Cell, d: Cell)
    requires Shrunk(c, d) && c.Freed?
    ensures d.Freed?
  {
  }

  lemma {:induction false} Survivor(c: Cell, d: Cell)
    requires Shrunk(c, d) && Collectable(c) && !d.Freed?
    ensures Collectable(d) && c.ByrefCell? == d.ByrefCell?
  {
    hide HighBits, DeallocatingBit, Count;
    assert NeedsFree(c.flags) == NeedsFree(d.flags);
  }

  lemma {:induction false} CountedAt(cells: seq<Cell>, objects: multiset<nat>, ext: multiset<Target>, i: nat)
    requires Sound(cells, objects, ext) && i < |cells| && Collectable(cells[i])
    ensures Total(cells, ext, At(cells[i], i)) == Count(cells[i].flags) >= 1
  {
    hide Refs;
  }
}
