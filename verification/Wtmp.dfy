/**
 The reader of the wtmp file in Libc/gen/utmpx-darwin.c: login records, read in blocks of 32, forward
 or backward.  The file does not change; read() may return fewer bytes than were asked for.
 */
module Wtmp {

  type Byte = v: nat | v < 256

  const WTMP_COUNT: nat := 32
  const RECORD: nat := 628      // sizeof(struct utmpx32)

  type Record = seq<Byte>

  /** The number of whole records in some bytes. */
  function Whole(bytes: seq<Byte>): (n: nat)
    ensures n * RECORD <= |bytes| < (n + 1) * RECORD
  {
    |bytes| / RECORD
  }

  /** Record k of some bytes. */
  function RecordAt(bytes: seq<Byte>, k: int): Record {
    if 0 <= k < Whole(bytes) then bytes[k * RECORD..k * RECORD + RECORD] else []
  }

  /** The records after the signature record, in file order. */
  function Records(file: seq<Byte>): (r: seq<Record>)
    ensures |r| == if Whole(file) == 0 then 0 else Whole(file) - 1
  {
    if Whole(file) == 0 then [] else seq(Whole(file) - 1, i => RecordAt(file, i + 1))
  }

  function Backward<T>(s: seq<T>): (r: seq<T>)
    ensures |r| == |s|
    ensures forall i | 0 <= i < |s| :: r[i] == s[|s| - 1 - i]
  {
    if s == [] then [] else Backward(s[1..]) + [s[0]]
  }

  class Reader {
    const file: seq<Byte>
    const isSignature: Record -> bool
    const atHand: nat -> nat    // how many bytes each call of read() finds ready
    var calls: nat              // how many calls there have been
    var open: bool              // fd >= 0
    var dir: int
    var off: int
    var count: nat
    var next: int               // an index into the buffer, in records
    var left: nat
    var buf: seq<Byte>
    var pos: nat                // where the descriptor stands in the file
    ghost var taken: nat        // how many records have been returned

    /** The order in which the records come out. */
    ghost function Order(): (r: seq<Record>)
      reads this
      ensures |r| == |Records(file)|
    {
      if dir > 0 then Records(file) else Backward(Records(file))
    }

    /**
     An open stream: what has been returned, what is in the buffer and what is still in the file
     make up all the records.
     */
    ghost predicate Reading()
      reads this
    {
      var n := |Records(file)|;
      && n >= 1 && FillsBlocks(count) && taken + left + count == n
      && Holds(buf, next, dir, Order()[taken..taken + left])
      && (dir > 0 ==> pos == (1 + taken + left) * RECORD)
      && (dir < 0 ==> off == (1 + count) * RECORD)
    }

    ghost predicate Valid()
      reads this
    {
      && |buf| == WTMP_COUNT * RECORD && (dir == 1 || dir == -1)
      && (if open then Reading() else left == 0)
    }

    /** The file has a signature record, which the next call of read() can return whole, and another record. */
    ghost predicate CanOpen(call: nat) {
      |Records(file)| >= 1 && atHand(call) >= RECORD && isSignature(RecordAt(file, 0))
    }

    constructor (file: seq<Byte>, isSignature: Record -> bool, atHand: nat -> nat)
      ensures Valid() && this.file == file && this.isSignature == isSignature && this.atHand == atHand
      ensures !open && dir == -1 && calls == 0
    {
      this.file, this.isSignature, this.atHand := file, isSignature, atHand;
      open, dir, off, count, next, left, pos, taken, calls := false, -1, 0, 0, 0, 0, 0, 0, 0;
      buf := seq(WTMP_COUNT * RECORD, _ => 0);
    }

    /** _set_dir: a negative argument keeps the direction. */
    method SetDir(forward: int)
      modifies this`dir
      ensures dir == if forward < 0 then old(dir) else if forward == 0 then -1 else 1
    {
      if forward >= 0 {
        dir := if forward == 0 then -1 else 1;
      }
    }

    /** read(): at least one byte unless at the end of the file, and no more than n. */
    method ReadSome(n: nat) returns (bytes: seq<Byte>)
      requires n > 0
      modifies this`pos, this`calls
      ensures |bytes| <= n && pos == old(pos) + |bytes| && calls == old(calls) + 1
      ensures old(pos) + n <= |file| && n > 1 ==> (|bytes| == n <==> atHand(old(calls)) >= n)
      ensures if old(pos) < |file| then bytes != [] && pos <= |file| && bytes == file[old(pos)..pos] else bytes == []
    {
      var ready := atHand(calls);
      calls := calls + 1;
      if pos >= |file| {
        return [];
      }
      var most := if n <= |file| - pos then n else |file| - pos;
      var r := if ready < 1 then 1 else if ready < most then ready else most;
      bytes := file[pos..pos + r];
      pos := pos + r;
    }

    /** The read loop: n bytes into the buffer, unless the file ends first. */
    method Fill(n: nat) returns (ok: bool)
      requires 0 < n <= |buf|
      modifies this`pos, this`buf, this`calls
      ensures |buf| == |old(buf)| && (ok <==> old(pos) + n <= |file|)
      ensures ok ==> pos == old(pos) + n && buf[..n] == file[old(pos)..pos]
    {
      var cp := 0;
      while cp < n
        invariant 0 <= cp <= n <= |buf| == |old(buf)| && pos == old(pos) + cp
        invariant cp > 0 ==> pos <= |file|
        invariant cp > 0 ==> buf[..cp] == file[old(pos)..pos]
        decreases n - cp
      {
        ghost var before := buf;
        var bytes := ReadSome(n - cp);
        if bytes == [] {
          return false;
        }
        buf := buf[..cp] + bytes + buf[cp + |bytes|..];
        cp := cp + |bytes|;
        assert buf[..cp] == before[..cp - |bytes|] + bytes;
      }
      return true;
    }

    /** set_file: opens the file, checks its signature record and reads the records that do not fill a whole block. */
    method SetFile(forward: int)
      requires |buf| == WTMP_COUNT * RECORD && (dir == 1 || dir == -1)
      modifies this
      ensures Valid() && dir == (if forward < 0 then old(dir) else if forward == 0 then -1 else 1)
      ensures open <==> CanOpen(old(calls))
      ensures open ==> taken == 0
    {
      hide Holds, Records, Backward, RecordAt, Whole;
      SetDir(forward);
      open, pos, taken := true, 0, 0;
      count := Whole(file);
      if count <= 1 {
        left, open := 0, false;
        return;
      }
      var good := CheckSignature();
      if !good {
        left, open := 0, false;
        return;
      }
      FirstBlock();
    }

    method CheckSignature() returns (good: bool)
      requires pos == 0 && |file| >= RECORD && |buf| == WTMP_COUNT * RECORD
      modifies this`pos, this`buf, this`calls
      ensures |buf| == |old(buf)| && (good <==> atHand(old(calls)) >= RECORD && isSignature(RecordAt(file, 0)))
      ensures good ==> pos == RECORD
    {
      var sig := ReadSome(RECORD);
      if |sig| != RECORD {
        return false;
      }
      buf := sig + buf[RECORD..];
      return isSignature(sig);
    }

    method FirstBlock()
      requires |buf| == WTMP_COUNT * RECORD && (dir == 1 || dir == -1) && open && taken == 0
      requires count == Whole(file) >= 2 && pos == RECORD
      modifies this`count, this`left, this`off, this`pos, this`buf, this`next, this`calls
      ensures Valid()
    {
      hide Holds, Records, Backward, RecordAt, InWholeBlocks, Whole, FillsBlocks;
      count := count - 1;
      ghost var n: nat := count;
      assert n == |Records(file)|;
      var c := InWholeBlocks(count);
      left := count - c;
      count := count - left;
      if dir < 0 {
        off := (c + 1) * RECORD;
        pos := off;
      }
      ghost var base: nat := if dir > 0 then 1 else c + 1;
      assert pos == base * RECORD && base + left <= n + 1 && (base + left) * RECORD <= |file|;
      var ok := Fill(left * RECORD);
      next := if dir > 0 then 0 else left - 1;
      Loaded(file, buf, base, left);
    }

    /** The next whole block of records. */
    method LoadBlock()
      requires Valid() && open && left == 0 && count > 0
      modifies this
      ensures Valid() && open && left == WTMP_COUNT && dir == old(dir) && taken == old(taken)
    {
      hide Holds, RecordAt, Records, Backward, Whole, FillsBlocks;
      OneBlockLess(count);
      ghost var base := if dir > 0 then 1 + taken else 1 + count - WTMP_COUNT;
      if dir > 0 {
        next := 0;
      } else {
        next := WTMP_COUNT - 1;
        off := off - WTMP_COUNT * RECORD;
        pos := off;
      }
      var ok := Fill(WTMP_COUNT * RECORD);
      left := WTMP_COUNT;
      count := count - WTMP_COUNT;
      Loaded(file, buf, base, WTMP_COUNT);
    }

    /** get_file: the next record, or none at the end of the file or where it cannot be opened. */
    method GetFile() returns (r: Option<Record>)
      requires Valid()
      modifies this
      ensures Valid() && dir == old(dir)
      ensures old(open) ==>
                open && (if old(taken) < |Order()| then r == Some(Order()[old(taken)]) && taken == old(taken) + 1
                                     else r == None && taken == old(taken))
      ensures !old(open) ==> (open <==> CanOpen(old(calls)))
      ensures !old(open) ==> if open then r == Some(Order()[0]) && taken == 1 else r == None
    {
      hide Holds, RecordAt, Records, Backward, Whole;
      if left == 0 && !open {
        SetFile(-1);
        if !open {
          return None;
        }
      }
      if left == 0 {
        if count <= 0 {
          return None;
        }
        LoadBlock();
      }
      HoldsRest(buf, next, dir, Order()[taken..taken + left]);
      r := Some(buf[next * RECORD..next * RECORD + RECORD]);
      assert Order()[taken..taken + left][1..] == Order()[taken + 1..taken + left];
      next := next + dir;
      left := left - 1;
      taken := taken + 1;
    }

    /**
     Reading until the first NULL yields every record exactly once: in file order when forward, in
     exactly the reverse order when backward.  After that there is no more.
     */
    method ReadAll(forward: int) returns (ok: bool, records: seq<Record>)
      requires Valid() && forward >= 0
      modifies this
      ensures Valid() && (ok ==> open && taken == |Order()|)
      ensures ok <==> CanOpen(old(calls))
      ensures ok ==> records == if forward > 0 then Records(file) else Backward(Records(file))
    {
      hide Holds, Records, Backward, RecordAt, Whole;
      SetFile(forward);
      records := [];
      if !open {
        return false, [];
      }
      while true
        invariant Valid() && open && dir == (if forward > 0 then 1 else -1) && taken <= |Order()|
        invariant records == Order()[..taken]
        decreases |Order()| - taken
      {
        var r := GetFile();
        if r.None? {
          break;
        }
        records := records + [r.value];
      }
      return true, records;
    }
  }

  datatype Option<T> = None | Some(value: T)

  lemma {:induction false} RecordOfSlice(bytes: seq<Byte>, base: nat, m: nat, k: nat)
    requires k < m && base + m <= Whole(bytes)
    ensures RecordAt(bytes[base * RECORD..(base + m) * RECORD], k) == RecordAt(bytes, base + k)
  {
    var (lo, hi, at) := (base * RECORD, (base + m) * RECORD, k * RECORD);
    WholeFits(bytes, base + m);
    var slice := bytes[lo..hi];
    WholeIs(slice, m);
    SliceOfSlice(bytes, lo, hi, at, at + RECORD);
  }

  lemma {:induction false} WholeFits(bytes: seq<Byte>, n: nat)
    requires n <= Whole(bytes)
    ensures n * RECORD <= |bytes|
  {
  }

  lemma {:induction false} WholeIs(bytes: seq<Byte>, n: nat)
    requires |bytes| == n * RECORD
    ensures Whole(bytes) == n
  {
  }

  lemma {:induction false} SliceOfSlice<T>(s: seq<T>, lo: nat, hi: nat, a: nat, b: nat)
    requires lo <= hi <= |s| && a <= b <= hi - lo
    ensures s[lo..hi][a..b] == s[lo + a..lo + b]
  {
    var (x, y) := (s[lo..hi][a..b], s[lo + a..lo + b]);
    assert |x| == |y|;
    forall i | 0 <= i < |x| ensures x[i] == y[i] {
      assert x[i] == s[lo..hi][a + i];
    }
  }

  predicate FillsBlocks(n: nat) {
    n % WTMP_COUNT == 0
  }

  lemma {:induction false} OneBlockLess(n: nat)
    requires FillsBlocks(n) && n > 0
    ensures n >= WTMP_COUNT && FillsBlocks(n - WTMP_COUNT)
  {
  }

  /** The records that make up whole blocks, when the first read has taken at least one and the rest. */
  function InWholeBlocks(count: nat): (c: nat)
    requires count >= 1
    ensures c < count <= c + WTMP_COUNT && FillsBlocks(c)
  {
    WTMP_COUNT * ((count - 1) / WTMP_COUNT)
  }

  /** Whole records read from the file into the buffer, seen in either direction. */
  lemma {:induction false} Loaded(file: seq<Byte>, buf: seq<Byte>, base: nat, m: nat)
    requires 1 <= base && base + m <= Whole(file) && m <= WTMP_COUNT && |buf| == WTMP_COUNT * RECORD
    requires buf[..m * RECORD] == file[base * RECORD..(base + m) * RECORD]
    ensures var n := |Records(file)|;
            && Holds(buf, 0, 1, Records(file)[base - 1..base - 1 + m])
            && Holds(buf, m - 1, -1, Backward(Records(file))[n - (base - 1 + m)..n - (base - 1)])
  {
    hide RecordAt, Backward;
    var n := |Records(file)|;
    forall k: nat | k < m ensures RecordAt(buf, k) == Records(file)[base - 1 + k] {
      RecordOfSlice(buf, 0, m, k);
      RecordOfSlice(file, base, m, k);
    }
    var back := Backward(Records(file))[n - (base - 1 + m)..n - (base - 1)];
    forall i | 0 <= i < m ensures back[i] == RecordAt(buf, m - 1 - i) {
    }
  }

  lemma {:induction false} HoldsRest(buf: seq<Byte>, next: int, dir: int, records: seq<Record>)
    requires Holds(buf, next, dir, records) && records != [] && (dir == 1 || dir == -1)
    ensures 0 <= next < WTMP_COUNT && RecordAt(buf, next) == records[0]
    ensures RecordAt(buf, next) == buf[next * RECORD..next * RECORD + RECORD]
    ensures Holds(buf, next + dir, dir, records[1..])
  {
    assert HoldsAt(buf, next, dir, records, 0);
    var (at, rest) := (next + dir, records[1..]);
    forall i: nat | i < |rest| ensures HoldsAt(buf, at, dir, rest, i) {
      assert HoldsAt(buf, next, dir, records, i + 1);
    }
  }

  predicate HoldsAt(buf: seq<Byte>, next: int, dir: int, records: seq<Record>, i: nat)
    requires i < |records|
  {
    var k := if dir > 0 then next + i else next - i;
    0 <= k < WTMP_COUNT && RecordAt(buf, k) == records[i]
  }

  /** Starting at record `next` of the buffer and going in direction dir, the buffer holds these records. */
  predicate Holds(buf: seq<Byte>, next: int, dir: int, records: seq<Record>) {
    |buf| == WTMP_COUNT * RECORD && forall i: nat | i < |records| :: HoldsAt(buf, next, dir, records, i)
  }
}
