/**
 The reference count in the flags word of a block or byref (libclosure/runtime.cpp): bit 0 says
 "deallocating", bits 1..15 are a count that sticks at its maximum, and the word is only ever
 changed by compare-and-swap.  Any number of threads run the three loops, interleaved at every
 read and every compare-and-swap.
 */
module LatchingCount {

  type Int32 = v: int | -0x8000_0000 <= v < 0x8000_0000

  const REFCOUNT_MASK: nat := 0xfffe

  /** The low half of a two's complement word. */
  function LowBits(v: Int32): (n: nat)
    ensures n <= 0xffff
  {
    v % 0x1_0000
  }

  /** The count: bits 1..15. */
  function Count(v: Int32): (n: nat)
    ensures n <= 0x7fff
  {
    LowBits(v) / 2
  }

  /** v & BLOCK_REFCOUNT_MASK. */
  function RefcountBits(v: Int32): (r: nat)
    ensures r <= REFCOUNT_MASK
  {
    2 * Count(v)
  }

  /** v & BLOCK_DEALLOCATING. */
  function DeallocatingBit(v: Int32): (r: nat)
    ensures r <= 1
  {
    LowBits(v) % 2
  }

  /** Bits 16..31, which belong to the compiler and the rest of the runtime. */
  function HighBits(v: Int32): int {
    v / 0x1_0000
  }

  predicate Latched(v: Int32) {
    RefcountBits(v) == REFCOUNT_MASK
  }

  // ----- one attempt of each loop: return at once, or try to swap in a new value -----

  datatype Attempt = Return(ok: bool) | Swap(newValue: Int32, ok: bool)

  function Incr(seen: Int32): Attempt {
    if RefcountBits(seen) == REFCOUNT_MASK then Return(true)
    else Swap(seen + 2, true)
  }

  function IncrNotDeallocating(seen: Int32): Attempt {
    if DeallocatingBit(seen) != 0 then Return(false)
    else if RefcountBits(seen) == REFCOUNT_MASK then Return(true)
    else Swap(seen + 2, true)
  }

  function DecrShouldDeallocate(seen: Int32): Attempt {
    if RefcountBits(seen) == REFCOUNT_MASK then Return(false)
    else if RefcountBits(seen) == 0 then Return(false)
    else if RefcountBits(seen) + DeallocatingBit(seen) == 2 then Swap(seen - 1, true)
    else Swap(seen - 2, false)
  }

  // ----- the threads -----

  /** Resurrect is a retain made by the thread that is disposing of the object, from its dispose helper. */
  datatype Op = Retain | Resurrect | TryRetain | Release

  datatype Pc = Idle | AtRead(op: Op) | AtSwap(op: Op, seen: Int32)

  /** A thread owns `held` references, besides the one that a retain or release in progress is working with. */
  datatype Thread = Thread(held: nat, pc: Pc)

  datatype Event = Event(op: Op, ok: bool)

  datatype Disposer = Nobody | By(thread: nat)

  datatype State = State(flags: Int32, threads: seq<Thread>, disposer: Disposer, log: seq<Event>)

  datatype Step = Start(t: nat, op: Op) | Read(t: nat) | CompareAndSwap(t: nat) | HandOver(t: nat, u: nat)

  function AttemptOf(op: Op, seen: Int32): Attempt {
    match op
    case Retain => Incr(seen)
    case Resurrect => Incr(seen)
    case TryRetain => IncrNotDeallocating(seen)
    case Release => DecrShouldDeallocate(seen)
  }

  predicate Enabled(s: State, step: Step) {
    step.t < |s.threads| &&
    var th := s.threads[step.t];
    match step
    case Start(t, op) =>
      th.pc.Idle? &&
      (match op
       case Retain => th.held >= 1
       case Release => th.held >= 1
       case Resurrect => s.disposer == By(t)
       case TryRetain => true)
    case Read(t) => th.pc.AtRead?
    case CompareAndSwap(t) => th.pc.AtSwap?
    case HandOver(t, u) => th.held >= 1 && u < |s.threads| && u != t
  }

  /** The references that an operation in progress takes from its thread. */
  function InUse(pc: Pc): nat {
    match pc
    case Idle => 0
    case AtRead(op) => if op.Retain? || op.Release? then 1 else 0
    case AtSwap(op, _) => if op.Retain? || op.Release? then 1 else 0
  }

  /** The references that a completed operation leaves with its thread. */
  function Gained(op: Op, ok: bool): nat {
    match op
    case Retain => 2
    case Resurrect => 1
    case TryRetain => if ok then 1 else 0
    case Release => 0
  }

  function Finish(s: State, t: nat, op: Op, ok: bool): State
    requires t < |s.threads|
  {
    s.(threads := s.threads[t := Thread(s.threads[t].held + Gained(op, ok), Idle)],
       disposer := if op.Release? && ok then By(t) else s.disposer,
       log := s.log + [Event(op, ok)])
  }

  function WithPc(s: State, t: nat, pc: Pc): State
    requires t < |s.threads|
  {
    s.(threads := s.threads[t := s.threads[t].(pc := pc)])
  }

  function Next(s: State, step: Step): State
    requires Enabled(s, step)
  {
    var th := s.threads[step.t];
    match step
    case Start(t, op) =>
      var pc := AtRead(op);
      s.(threads := s.threads[t := Thread(th.held - InUse(pc), pc)])
    case Read(t) =>
      (match AttemptOf(th.pc.op, s.flags)
       case Return(ok) => Finish(s, t, th.pc.op, ok)
       case Swap(_, _) => WithPc(s, t, AtSwap(th.pc.op, s.flags)))
    case CompareAndSwap(t) =>
      if s.flags == th.pc.seen then
        var a := AttemptOf(th.pc.op, th.pc.seen);
        if a.Swap? then Finish(s.(flags := a.newValue), t, th.pc.op, a.ok) else s
      else WithPc(s, t, AtRead(th.pc.op))
    case HandOver(t, u) =>
      var threads := s.threads[t := th.(held := th.held - 1)];
      s.(threads := threads[u := threads[u].(held := threads[u].held + 1)])
  }

  /** A run is a sequence of steps, each enabled where it is taken. */
  predicate IsRun(s: State, steps: seq<Step>)
    decreases steps
  {
    steps == [] || (Enabled(s, steps[0]) && IsRun(Next(s, steps[0]), steps[1..]))
  }

  function After(s: State, steps: seq<Step>): State
    requires IsRun(s, steps)
    decreases steps
  {
    if steps == [] then s else After(Next(s, steps[0]), steps[1..])
  }

  /** A new object: logical count 1, owned by the first thread, nobody doing anything yet. */
  predicate Initial(s: State) {
    Count(s.flags) == 1 && DeallocatingBit(s.flags) == 0 && s.disposer == Nobody && s.log == [] &&
    |s.threads| >= 1 && s.threads[0] == Thread(1, Idle) &&
    forall t | 1 <= t < |s.threads| :: s.threads[t] == Thread(0, Idle)
  }

  // ----- the references in the hands of the threads -----

  function References(th: Thread): nat {
    th.held + InUse(th.pc)
  }

  function Owned(threads: seq<Thread>): (n: nat) {
    if threads == [] then 0 else References(threads[0]) + Owned(threads[1..])
  }

  lemma {:induction false} OwnedUpdate(threads: seq<Thread>, t: nat, th: Thread)
    requires t < |threads|
    ensures Owned(threads[t := th]) == Owned(threads) - References(threads[t]) + References(th)
    ensures References(threads[t]) <= Owned(threads)
    decreases threads
  {
    if t == 0 {
      assert threads[t := th][1..] == threads[1..];
    } else {
      assert threads[t := th][1..] == threads[1..][t - 1 := th];
      OwnedUpdate(threads[1..], t - 1, th);
    }
  }

  lemma {:induction false} OwnedNothing(threads: seq<Thread>)
    requires forall t | 0 <= t < |threads| :: threads[t] == Thread(0, Idle)
    ensures Owned(threads) == 0
    decreases threads
  {
    if threads != [] {
      OwnedNothing(threads[1..]);
    }
  }

  // ----- the invariant -----

  predicate Reports(e: Event) {
    e.op == Release && e.ok
  }

  ghost predicate LogMatches(log: seq<Event>, deallocating: bool) {
    && (deallocating <==> exists i :: 0 <= i < |log| && Reports(log[i]))
    && (forall i, j | 0 <= i < j < |log| && Reports(log[i]) :: !Reports(log[j]) && log[j] != Event(TryRetain, true))
  }

  /** A thread only comes to its compare-and-swap after a read that called for one. */
  ghost predicate PendingSwaps(threads: seq<Thread>) {
    forall t | 0 <= t < |threads| ::
      threads[t].pc.AtSwap? ==> AttemptOf(threads[t].pc.op, threads[t].pc.seen).Swap?
  }

  ghost predicate Inv(s: State) {
    && (!Latched(s.flags) ==> Count(s.flags) == Owned(s.threads))
    && (DeallocatingBit(s.flags) == 0 ==> Count(s.flags) >= 1)
    && (DeallocatingBit(s.flags) == 0 <==> s.disposer == Nobody)
    && PendingSwaps(s.threads)
    && LogMatches(s.log, DeallocatingBit(s.flags) == 1)
  }

  lemma {:induction false} InitialInv(s: State)
    requires Initial(s)
    ensures Inv(s)
  {
    OwnedNothing(s.threads[1..]);
  }

  lemma {:induction false} WordParts(h: int, c: nat, d: nat)
    requires c <= 0x7fff && d <= 1 && -0x8000 <= h < 0x8000
    ensures var v := 0x1_0000 * h + 2 * c + d;
            Count(v) == c && DeallocatingBit(v) == d && HighBits(v) == h
  {
    var v := 0x1_0000 * h + 2 * c + d;
    assert LowBits(v) == 2 * c + d && HighBits(v) == h;
  }

  lemma {:induction false} SwapArithmetic(v: Int32)
    ensures !Latched(v) ==>
              && Count(v + 2) == Count(v) + 1 && DeallocatingBit(v + 2) == DeallocatingBit(v)
              && HighBits(v + 2) == HighBits(v)
    ensures !Latched(v) && RefcountBits(v) != 0 && RefcountBits(v) + DeallocatingBit(v) != 2 ==>
              && Count(v - 2) == Count(v) - 1 && DeallocatingBit(v - 2) == DeallocatingBit(v)
              && HighBits(v - 2) == HighBits(v)
    ensures RefcountBits(v) + DeallocatingBit(v) == 2 ==>
              && Count(v) == 1 && DeallocatingBit(v) == 0 && Count(v - 1) == 0 && DeallocatingBit(v - 1) == 1
              && HighBits(v - 1) == HighBits(v)
  {
    var h, c, d := HighBits(v), Count(v), DeallocatingBit(v);
    Recompose(v);
    hide Count, DeallocatingBit, HighBits;
    if c < 0x7fff { WordParts(h, c + 1, d); }
    if c > 0 { WordParts(h, c - 1, d); }
    if c == 1 && d == 0 { WordParts(h, 0, 1); }
  }

  lemma {:induction false} Recompose(v: Int32)
    ensures v == 0x1_0000 * HighBits(v) + 2 * Count(v) + DeallocatingBit(v)
    ensures -0x8000 <= HighBits(v) < 0x8000
  {
    assert v == 0x1_0000 * HighBits(v) + LowBits(v);
  }

  lemma {:induction false} PendingUpdate(threads: seq<Thread>, t: nat, th: Thread)
    requires PendingSwaps(threads) && t < |threads|
    requires th.pc.AtSwap? ==> AttemptOf(th.pc.op, th.pc.seen).Swap?
    ensures PendingSwaps(threads[t := th])
  {
    hide AttemptOf;
  }

  lemma {:induction false} LogGrows(log: seq<Event>, e: Event, before: bool)
    requires LogMatches(log, before)
    requires Reports(e) ==> !before
    requires e == Event(TryRetain, true) ==> !before
    ensures LogMatches(log + [e], before || Reports(e))
  {
    var after := log + [e];
    if before {
      var i :| 0 <= i < |log| && Reports(log[i]);
      assert Reports(after[i]);
    }
    if Reports(e) {
      assert Reports(after[|log|]);
    }
  }

  /** How one completed operation moves the count and the references in the hands of the threads. */
  lemma {:induction false} AttemptKeepsCount(op: Op, v: Int32, owned: nat)
    requires op.Retain? || op.Release? ==> owned >= 1
    requires !Latched(v) ==> Count(v) == owned
    requires DeallocatingBit(v) == 0 ==> Count(v) >= 1
    ensures var a := AttemptOf(op, v);
            var w := if a.Swap? then a.newValue else v;
            var left := owned - InUse(AtRead(op)) + Gained(op, a.ok);
            && (!Latched(w) ==> Count(w) == left)
            && (DeallocatingBit(w) == 0 ==> Count(w) >= 1)
            && HighBits(w) == HighBits(v)
            && (DeallocatingBit(w) == 1 <==> DeallocatingBit(v) == 1 || (op.Release? && a.ok))
            && (op.Release? && a.ok ==> DeallocatingBit(v) == 0 && !Latched(v) && left == 0)
            && (op.Release? && !a.ok && DeallocatingBit(v) == 0 && !Latched(v) ==> left > 0)
            && (op.TryRetain? && a.ok ==> DeallocatingBit(v) == 0)
            && (Latched(v) ==> w == v)
  {
    hide Count, DeallocatingBit, HighBits;
    SwapArithmetic(v);
  }

  lemma {:induction false} UseOfOperation(th: Thread)
    requires !th.pc.Idle?
    ensures InUse(th.pc) == InUse(AtRead(th.pc.op))
    ensures References(th) == th.held + InUse(th.pc)
    ensures forall n: nat :: References(Thread(n, Idle)) == n
  {
  }

  lemma {:induction false} FinishKeepsInv(s: State, t: nat, a: Attempt)
    requires Inv(s) && t < |s.threads| && !s.threads[t].pc.Idle?
    requires a == AttemptOf(s.threads[t].pc.op, s.flags)
    ensures var s0 := if a.Swap? then s.(flags := a.newValue) else s;
            Inv(Finish(s0, t, s.threads[t].pc.op, a.ok)) && HighBits(s0.flags) == HighBits(s.flags)
  {
    hide Count, DeallocatingBit, HighBits, RefcountBits, Latched, Owned, LogMatches, AttemptOf, PendingSwaps,
         References;
    var th := s.threads[t];
    PendingUpdate(s.threads, t, Thread(th.held + Gained(th.pc.op, a.ok), Idle));
    UseOfOperation(th);
    OwnedUpdate(s.threads, t, Thread(th.held + Gained(th.pc.op, a.ok), Idle));
    AttemptKeepsCount(th.pc.op, s.flags, Owned(s.threads));
    LogGrows(s.log, Event(th.pc.op, a.ok), DeallocatingBit(s.flags) == 1);
  }

  /** Every step of every thread keeps the invariant and the high bits of the word. */
  lemma {:induction false} StepKeepsInv(s: State, step: Step)
    requires Inv(s) && Enabled(s, step)
    ensures Inv(Next(s, step))
    ensures HighBits(Next(s, step).flags) == HighBits(s.flags)
  {
    hide Count, DeallocatingBit, HighBits, Latched, Owned, LogMatches;
    var th := s.threads[step.t];
    match step {
      case Start(t, op) =>
        OwnedUpdate(s.threads, t, Next(s, step).threads[t]);
      case Read(t) =>
        var a := AttemptOf(th.pc.op, s.flags);
        if a.Return? {
          FinishKeepsInv(s, t, a);
        } else {
          OwnedUpdate(s.threads, t, Next(s, step).threads[t]);
        }
      case CompareAndSwap(t) =>
        if s.flags == th.pc.seen {
          FinishKeepsInv(s, t, AttemptOf(th.pc.op, s.flags));
        } else {
          OwnedUpdate(s.threads, t, Next(s, step).threads[t]);
        }
      case HandOver(t, u) =>
        var threads := s.threads[t := th.(held := th.held - 1)];
        OwnedUpdate(s.threads, t, threads[t]);
        OwnedUpdate(threads, u, Next(s, step).threads[u]);
    }
  }

  lemma {:induction false} RunKeepsInv(s: State, steps: seq<Step>)
    requires Inv(s) && IsRun(s, steps)
    ensures Inv(After(s, steps))
    ensures HighBits(After(s, steps).flags) == HighBits(s.flags)
    decreases steps
  {
    hide Inv, Next, HighBits;
    if steps != [] {
      StepKeepsInv(s, steps[0]);
      RunKeepsInv(Next(s, steps[0]), steps[1..]);
    }
  }

  // ----- what every run from a new object guarantees -----

  /** The event that a step adds to the log, if it completes an operation. */
  predicate Completes(s: State, step: Step, e: Event)
    requires Enabled(s, step)
  {
    Next(s, step).log == s.log + [e]
  }

  /**
   In every run of any number of threads: bits 16..31 never change; at most one release reports
   "should deallocate", and after it every try-retain fails; and if the count has not latched by the
   time the last reference is given up, one release has reported.
   */
  lemma {:induction false} RunSafety(s: State, steps: seq<Step>)
    requires Initial(s) && IsRun(s, steps)
    ensures HighBits(After(s, steps).flags) == HighBits(s.flags)
    ensures var log := After(s, steps).log;
            forall i, j | 0 <= i < j < |log| && Reports(log[i]) :: !Reports(log[j]) && log[j] != Event(TryRetain, true)
    ensures var m := After(s, steps);
            !Latched(m.flags) && Owned(m.threads) == 0 ==> exists i :: 0 <= i < |m.log| && Reports(m.log[i])
  {
    InitialInv(s);
    RunKeepsInv(s, steps);
  }

  /** Where a release completes, its result is that of one attempt on the word as it then is. */
  lemma {:induction false} ReleaseAttempt(s: State, step: Step, ok: bool)
    requires Inv(s) && Enabled(s, step) && Completes(s, step, Event(Release, ok))
    ensures s.threads[step.t].pc.AtRead? || s.threads[step.t].pc.AtSwap?
    ensures s.threads[step.t].pc.op == Release && AttemptOf(Release, s.flags).ok == ok
    ensures Owned(Next(s, step).threads) == Owned(s.threads) - 1
  {
    hide Count, DeallocatingBit, LogMatches, Owned, DecrShouldDeallocate, Incr, IncrNotDeallocating;
    assert (s.log + [Event(Release, ok)])[|s.log|] == Event(Release, ok);
    OwnedUpdate(s.threads, step.t, Next(s, step).threads[step.t]);
  }

  /**
   A release that completes before deallocation, on a count that has not latched, reports "should
   deallocate" exactly if no thread is left with a reference, held or in use.  No release reports
   after the count has latched, nor a second time during deallocation.
   */
  lemma {:induction false} ReportsAtLastRelease(s: State, steps: seq<Step>, step: Step, ok: bool)
    requires Initial(s) && IsRun(s, steps)
    requires Enabled(After(s, steps), step) && Completes(After(s, steps), step, Event(Release, ok))
    ensures var m, m' := After(s, steps), Next(After(s, steps), step);
            if Latched(m.flags) || DeallocatingBit(m.flags) == 1 then !ok
            else (ok <==> Owned(m'.threads) == 0)
  {
    hide Next, DeallocatingBit, Count, HighBits, Owned, LogMatches;
    InitialInv(s);
    RunKeepsInv(s, steps);
    var m := After(s, steps);
    ReleaseAttempt(m, step, ok);
    OwnedUpdate(m.threads, step.t, m.threads[step.t]);
    AttemptKeepsCount(Release, m.flags, Owned(m.threads));
  }

  /** Once the count has latched the word never changes again: the object is never freed. */
  lemma {:induction false} LatchedForever(s: State, steps: seq<Step>)
    requires Inv(s) && Latched(s.flags) && IsRun(s, steps)
    ensures After(s, steps).flags == s.flags
    decreases steps
  {
    hide Count, DeallocatingBit, HighBits, LogMatches, Owned;
    if steps != [] {
      StepKeepsInv(s, steps[0]);
      LatchedForever(Next(s, steps[0]), steps[1..]);
    }
  }

  /** A thread with a reference, held or in use, never finds the count at zero: the underflow exit is for misuse. */
  lemma {:induction false} HoldersSeeLiveObject(s: State, t: nat)
    requires Inv(s) && t < |s.threads| && References(s.threads[t]) >= 1
    ensures RefcountBits(s.flags) != 0
  {
    OwnedUpdate(s.threads, t, s.threads[t]);
  }

  // ----- operations complete -----

  /** What an operation returns and leaves in the word, if nobody else changes the word meanwhile. */
  ghost predicate Outcome(op: Op, v: Int32, w: Int32, ok: bool) {
    && HighBits(w) == HighBits(v)
    && match op
       case Retain => ok && Incremented(v, w)
       case Resurrect => ok && Incremented(v, w)
       case TryRetain => (ok <==> DeallocatingBit(v) == 0) && (if ok then Incremented(v, w) else w == v)
       case Release =>
         && (ok <==> !Latched(v) && Count(v) == 1 && DeallocatingBit(v) == 0)
         && (if Latched(v) then w == v
             else Count(w) == Count(v) - 1 && DeallocatingBit(w) == if ok then 1 else DeallocatingBit(v))
  }

  /** One reference more, unless the count has latched. */
  predicate Incremented(v: Int32, w: Int32) {
    if Latched(v) then w == v else Count(w) == Count(v) + 1 && DeallocatingBit(w) == DeallocatingBit(v)
  }

  /** Thread t completes op: the word, its references and the log are as they should be, and no other thread changes. */
  ghost predicate Completed(s: State, t: nat, op: Op, s': State)
    requires t < |s.threads|
  {
    exists ok: bool ::
      && Outcome(op, s.flags, s'.flags, ok) && s'.log == s.log + [Event(op, ok)]
      && s'.threads == s.threads[t := Thread(s.threads[t].held + Gained(op, ok), Idle)]
      && s'.disposer == if op.Release? && ok then By(t) else s.disposer
  }

  /** A thread at its read, and then at its compare-and-swap if the read calls for one. */
  function Alone(s: State, t: nat): State
    requires Enabled(s, Read(t))
  {
    var m := Next(s, Read(t));
    if Enabled(m, CompareAndSwap(t)) then Next(m, CompareAndSwap(t)) else m
  }

  lemma {:induction false} AttemptOutcome(op: Op, v: Int32)
    requires op.Release? ==> Count(v) >= 1
    ensures var a := AttemptOf(op, v);
            Outcome(op, v, if a.Swap? then a.newValue else v, a.ok)
  {
    hide Count, DeallocatingBit, HighBits;
    SwapArithmetic(v);
  }

  /** In every state: a thread at its read that is not disturbed between it and its compare-and-swap completes. */
  lemma {:induction false} AloneCompletes(s: State, t: nat)
    requires Inv(s) && Enabled(s, Read(t))
    ensures Completed(s, t, s.threads[t].pc.op, Alone(s, t))
  {
    hide Count, DeallocatingBit, HighBits, Outcome, AttemptOf, LogMatches, Owned, RefcountBits;
    var op := s.threads[t].pc.op;
    var a := AttemptOf(op, s.flags);
    if op.Release? {
      HoldersSeeLiveObject(s, t);
      CountOfBits(s.flags);
    }
    AttemptOutcome(op, s.flags);
    assert Outcome(op, s.flags, Alone(s, t).flags, a.ok);
    assert Alone(s, t).threads == s.threads[t := Thread(s.threads[t].held + Gained(op, a.ok), Idle)];
  }

  lemma {:induction false} CountOfBits(v: Int32)
    ensures RefcountBits(v) != 0 <==> Count(v) >= 1
  {
  }

  /** From its start on: an operation that is allowed and not disturbed completes. */
  lemma {:induction false} StartedCompletes(s: State, t: nat, op: Op)
    requires Inv(s) && Enabled(s, Start(t, op))
    ensures var m := Next(s, Start(t, op));
            && m.flags == s.flags && m.log == s.log && m.disposer == s.disposer && Enabled(m, Read(t))
            && m.threads == s.threads[t := Thread(s.threads[t].held - InUse(AtRead(op)), AtRead(op))]
            && Completed(m, t, op, Alone(m, t))
  {
    hide Inv, Completed, Alone;
    StepKeepsInv(s, Start(t, op));
    AloneCompletes(Next(s, Start(t, op)), t);
  }

  /** A compare-and-swap fails, and goes back to the read, exactly if the word is not what was read. */
  lemma {:induction false} SwapFailsIfChanged(s: State, t: nat)
    requires Inv(s) && Enabled(s, CompareAndSwap(t))
    ensures var (pc, s') := (s.threads[t].pc, Next(s, CompareAndSwap(t)));
            && (s.flags != pc.seen <==> s' == s.(threads := s.threads[t := s.threads[t].(pc := AtRead(pc.op))]))
            && (s.flags == pc.seen <==> Completed(s, t, pc.op, s'))
  {
    hide Count, DeallocatingBit, HighBits, Outcome, AttemptOf, LogMatches, Owned, RefcountBits;
    var pc := s.threads[t].pc;
    if s.flags == pc.seen {
      var a := AttemptOf(pc.op, s.flags);
      if pc.op.Release? {
        HoldersSeeLiveObject(s, t);
        CountOfBits(s.flags);
      }
      AttemptOutcome(pc.op, s.flags);
      assert Outcome(pc.op, s.flags, Next(s, CompareAndSwap(t)).flags, a.ok);
    }
  }

  /** No operation is held up by another that does not complete: the word changes only where the log grows. */
  lemma {:induction false} ChangesAreCompletions(s: State, steps: seq<Step>)
    requires IsRun(s, steps)
    ensures s.log <= After(s, steps).log
    ensures After(s, steps).log == s.log ==> After(s, steps).flags == s.flags
    decreases steps
  {
    hide AttemptOf;
    if steps != [] {
      ChangesAreCompletions(Next(s, steps[0]), steps[1..]);
    }
  }

  /** If the compare-and-swap of a thread fails, some operation has completed since its read. */
  lemma {:induction false} FailureMeansProgress(s: State, t: nat, steps: seq<Step>)
    requires Inv(s) && Enabled(s, Read(t)) && Enabled(Next(s, Read(t)), CompareAndSwap(t))
    requires IsRun(Next(s, Read(t)), steps) && forall i | 0 <= i < |steps| :: steps[i].t != t
    ensures var m := After(Next(s, Read(t)), steps);
            && Enabled(m, CompareAndSwap(t))
            && (Next(m, CompareAndSwap(t)).threads[t].pc.AtRead? ==> |m.log| > |s.log|)
  {
    hide AttemptOf, LogMatches, Owned;
    var r := Next(s, Read(t));
    StepKeepsInv(s, Read(t));
    RunKeepsInv(r, steps);
    ChangesAreCompletions(r, steps);
    OthersLeavePc(r, t, steps);
  }

  lemma {:induction false} OthersLeavePc(s: State, t: nat, steps: seq<Step>)
    requires IsRun(s, steps) && t < |s.threads| && forall i | 0 <= i < |steps| :: steps[i].t != t
    ensures |After(s, steps).threads| == |s.threads| && After(s, steps).threads[t].pc == s.threads[t].pc
    decreases steps
  {
    hide AttemptOf;
    if steps != [] {
      assert steps[0].t != t;
      OthersLeavePc(Next(s, steps[0]), t, steps[1..]);
    }
  }

  /** Handing over a reference takes it from one thread and gives it to the other. */
  lemma {:induction false} HandOverMoves(s: State, t: nat, u: nat)
    requires Enabled(s, HandOver(t, u))
    ensures var s' := Next(s, HandOver(t, u));
            && s'.threads[t].held == s.threads[t].held - 1 && s'.threads[u].held == s.threads[u].held + 1
            && s'.flags == s.flags && Owned(s'.threads) == Owned(s.threads)
  {
    hide Owned;
    var threads := s.threads[t := s.threads[t].(held := s.threads[t].held - 1)];
    OwnedUpdate(s.threads, t, threads[t]);
    OwnedUpdate(threads, u, Next(s, HandOver(t, u)).threads[u]);
  }

  /**
   No thread is ever stuck: an operation in progress has a next step, and an idle thread can start a try-retain,
   a retain or a release if it holds a reference, and a retain of the object that it is disposing of.
   */
  lemma {:induction false} NeverStuck(s: State, t: nat)
    requires t < |s.threads|
    ensures match s.threads[t].pc
            case AtRead(_) => Enabled(s, Read(t))
            case AtSwap(_, _) => Enabled(s, CompareAndSwap(t))
            case Idle =>
              && Enabled(s, Start(t, TryRetain))
              && (s.threads[t].held >= 1 ==> Enabled(s, Start(t, Retain)) && Enabled(s, Start(t, Release)))
              && (s.disposer == By(t) ==> Enabled(s, Start(t, Resurrect)))
    ensures forall u: nat | u < |s.threads| && u != t && s.threads[t].held >= 1 :: Enabled(s, HandOver(t, u))
  {
  }
}
