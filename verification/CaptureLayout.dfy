/**
 The four encodings in which a block descriptor lists the captures that the generic helpers of
 libclosure/runtime.cpp copy and destroy, and the walk over the captures that each one denotes.
 */
module CaptureLayout {
  import opened PowersOfTwo

  datatype Kind = Strong | Block | Byref | Weak

  /** A capture: what it is, and its offset from the head of the block. */
  datatype Capture = Capture(kind: Kind, offset: nat)

  const POINTER_SIZE: nat := 8
  const FIRST_CAPTURE: nat := 32  // sizeof(Block_layout)

  // BlockCaptureKind
  const BCK_DONE: nat := 0
  const BCK_NON_OBJECT_BYTES: nat := 1
  const BCK_NON_OBJECT_WORDS: nat := 2
  const BCK_STRONG: nat := 3
  const BCK_BLOCK: nat := 4
  const BCK_BYREF: nat := 5
  const BCK_WEAK: nat := 6

  datatype Layout =
    | GenericInline(info: nat)
    | GenericOutOfLine(bytes: seq<nat>)
    | ExtendedInline(info: nat)
    | ExtendedOutOfLine(bytes: seq<nat>)

  /** An opcode and how many bytes, words or captures it covers. */
  datatype Pair = Pair(opcode: nat, count: nat)

  function ExtractBitfield(pos: nat, width: nat, v: nat): nat {
    v / Pow2(pos) % Pow2(width)
  }

  function OutOfLineOpcodeCount(c: nat): Pair {
    Pair(c / 16 % 16, c % 16 + 1)
  }

  // ----- the decoders: initState, nextState, getNextOpcodeAndCount -----

  function InitPos(l: Layout): int {
    match l
    case GenericInline(_) => 8
    case GenericOutOfLine(_) => 1
    case ExtendedInline(_) => 8
    case ExtendedOutOfLine(_) => 0
  }

  function NextPos(l: Layout, pos: int): int {
    match l
    case GenericInline(_) => pos + 4
    case GenericOutOfLine(_) => pos + 1
    case ExtendedInline(_) => pos - 4
    case ExtendedOutOfLine(_) => pos + 1
  }

  predicate InRange(l: Layout, pos: int) {
    match l
    case GenericInline(_) => pos in {8, 12, 16, 20, 24}
    case GenericOutOfLine(bytes) => 0 <= pos < |bytes|
    case ExtendedInline(_) => pos in {8, 4, 0, -4}
    case ExtendedOutOfLine(bytes) => 0 <= pos < |bytes|
  }

  /** The opcode of the extended layout string in terms of BlockCaptureKind; 15 for the reserved ones. */
  function FromExtended(opcode: nat): nat {
    match opcode
    case 0 => BCK_DONE
    case 1 => BCK_NON_OBJECT_BYTES
    case 2 => BCK_NON_OBJECT_WORDS
    case 3 => BCK_STRONG
    case 4 => BCK_BYREF
    case 5 => BCK_WEAK
    case 6 => BCK_NON_OBJECT_WORDS
    case _ => 15
  }

  function Decode(l: Layout, pos: int): Pair
    requires InRange(l, pos)
  {
    match l
    case GenericInline(info) =>
      if pos == 24 then Pair(BCK_DONE, 0)
      else
        Pair(if pos == 8 then BCK_STRONG else if pos == 12 then BCK_BLOCK
             else if pos == 16 then BCK_BYREF else BCK_WEAK,
             ExtractBitfield(pos, 4, info))
    case GenericOutOfLine(bytes) => OutOfLineOpcodeCount(bytes[pos])
    case ExtendedInline(info) =>
      if pos == -4 then Pair(BCK_DONE, 0)
      else
        Pair(if pos == 8 then BCK_STRONG else if pos == 4 then BCK_BYREF else BCK_WEAK,
             ExtractBitfield(pos, 4, info))
    case ExtendedOutOfLine(bytes) =>
      var p := OutOfLineOpcodeCount(bytes[pos]);
      Pair(FromExtended(p.opcode), p.count)
  }

  /** What the compiler emits: a string is terminated, and uses only opcodes that the runtime knows. */
  ghost predicate WellFormed(l: Layout) {
    l.GenericInline? || l.ExtendedInline? || TerminatedAt(l, InitPos(l))
  }

  ghost predicate TerminatedAt(l: Layout, pos: int)
    requires l.GenericOutOfLine? || l.ExtendedOutOfLine?
    decreases |l.bytes| - pos
  {
    0 <= pos < |l.bytes| && Decode(l, pos).opcode <= BCK_WEAK &&
    (Decode(l, pos).opcode == BCK_DONE || TerminatedAt(l, pos + 1))
  }

  // ----- the pairs that a layout denotes -----

  function StringPairs(l: Layout, pos: int): (ps: seq<Pair>)
    requires l.GenericOutOfLine? || l.ExtendedOutOfLine?
    requires TerminatedAt(l, pos)
    decreases |l.bytes| - pos
  {
    if Decode(l, pos).opcode == BCK_DONE then [] else [Decode(l, pos)] + StringPairs(l, pos + 1)
  }

  function Pairs(l: Layout): (ps: seq<Pair>)
    requires WellFormed(l)
  {
    match l
    case GenericInline(_) => [Decode(l, 8), Decode(l, 12), Decode(l, 16), Decode(l, 20)]
    case ExtendedInline(_) => [Decode(l, 8), Decode(l, 4), Decode(l, 0)]
    case GenericOutOfLine(_) => StringPairs(l, 1)
    case ExtendedOutOfLine(_) => StringPairs(l, 0)
  }

  /** The decoder position at pair k. */
  function PosAt(l: Layout, k: nat): int {
    match l
    case GenericInline(_) => 8 + 4 * k
    case GenericOutOfLine(_) => 1 + k
    case ExtendedInline(_) => 8 - 4 * k
    case ExtendedOutOfLine(_) => k
  }

  lemma {:induction false} StringPairAt(l: Layout, pos: int, k: nat)
    requires l.GenericOutOfLine? || l.ExtendedOutOfLine?
    requires TerminatedAt(l, pos) && k <= |StringPairs(l, pos)|
    ensures InRange(l, pos + k)
    ensures k < |StringPairs(l, pos)| ==>
              Decode(l, pos + k) == StringPairs(l, pos)[k] && 1 <= Decode(l, pos + k).opcode <= BCK_WEAK
    ensures k == |StringPairs(l, pos)| ==> Decode(l, pos + k).opcode == BCK_DONE
    decreases k
  {
    if k > 0 {
      StringPairAt(l, pos + 1, k - 1);
    }
  }

  /** Stepping the decoder yields the pairs one by one and then the terminator. */
  lemma {:induction false} DecodeAt(l: Layout, k: nat)
    requires WellFormed(l) && k <= |Pairs(l)|
    ensures InRange(l, PosAt(l, k))
    ensures k < |Pairs(l)| ==> Decode(l, PosAt(l, k)) == Pairs(l)[k] && 1 <= Pairs(l)[k].opcode <= BCK_WEAK
    ensures k == |Pairs(l)| ==> Decode(l, PosAt(l, k)).opcode == BCK_DONE
  {
    match l {
      case GenericInline(_) => assert k == 0 || k == 1 || k == 2 || k == 3 || k == 4;
      case ExtendedInline(_) => assert k == 0 || k == 1 || k == 2 || k == 3;
      case GenericOutOfLine(_) => StringPairAt(l, 1, k);
      case ExtendedOutOfLine(_) => StringPairAt(l, 0, k);
    }
  }

  // ----- the walk -----

  predicate IsObject(opcode: nat) {
    BCK_STRONG <= opcode <= BCK_WEAK
  }

  function KindOf(opcode: nat): Kind
    requires IsObject(opcode)
  {
    if opcode == BCK_STRONG then Strong
    else if opcode == BCK_BLOCK then Block
    else if opcode == BCK_BYREF then Byref
    else Weak
  }

  function Run(kind: Kind, n: nat, off: nat): (r: seq<Capture>)
    ensures |r| == n
  {
    seq(n, i requires 0 <= i < n => Capture(kind, off + POINTER_SIZE * i))
  }

  ghost predicate KnownPairs(ps: seq<Pair>) {
    forall i | 0 <= i < |ps| :: 1 <= ps[i].opcode <= BCK_WEAK
  }

  /** How far a pair moves the capture pointer. */
  function Width(p: Pair): nat {
    if p.opcode == BCK_NON_OBJECT_BYTES then p.count else POINTER_SIZE * p.count
  }

  function Captures(p: Pair, off: nat): seq<Capture> {
    if IsObject(p.opcode) then Run(KindOf(p.opcode), p.count, off) else []
  }

  /** The captures that the pairs denote, the first at offset off. */
  function Walk(ps: seq<Pair>, off: nat): seq<Capture> {
    if ps == [] then [] else Captures(ps[0], off) + Walk(ps[1..], off + Width(ps[0]))
  }

  function CapturesOf(l: Layout): seq<Capture>
    requires WellFormed(l)
  {
    Walk(Pairs(l), FIRST_CAPTURE)
  }

  lemma {:induction false} WalkBounds(ps: seq<Pair>, off: nat)
    ensures forall i | 0 <= i < |Walk(ps, off)| :: off <= Walk(ps, off)[i].offset
    ensures forall i, j | 0 <= i < j < |Walk(ps, off)| ::
              Walk(ps, off)[i].offset + POINTER_SIZE <= Walk(ps, off)[j].offset
    decreases ps
  {
    if ps != [] {
      var rest := Walk(ps[1..], off + Width(ps[0]));
      WalkBounds(ps[1..], off + Width(ps[0]));
      var head := Captures(ps[0], off);
      forall i | 0 <= i < |Walk(ps, off)|
        ensures off <= Walk(ps, off)[i].offset
        ensures i < |head| ==> Walk(ps, off)[i].offset + POINTER_SIZE <= off + Width(ps[0])
      {
      }
    }
  }

  // ----- the walk depends only on the flattened captures -----

  /** One captured pointer, or one byte that is no object. */
  datatype Unit = Byte | Pointer(kind: Kind)

  function Repeat(u: Unit, n: nat): (r: seq<Unit>)
    ensures |r| == n
  {
    seq(n, _ => u)
  }

  function PairUnits(p: Pair): seq<Unit> {
    if IsObject(p.opcode) then Repeat(Pointer(KindOf(p.opcode)), p.count) else Repeat(Byte, Width(p))
  }

  function Flatten(ps: seq<Pair>): seq<Unit> {
    if ps == [] then [] else PairUnits(ps[0]) + Flatten(ps[1..])
  }

  function WalkUnits(us: seq<Unit>, off: nat): seq<Capture> {
    if us == [] then []
    else if us[0].Byte? then WalkUnits(us[1..], off + 1)
    else [Capture(us[0].kind, off)] + WalkUnits(us[1..], off + POINTER_SIZE)
  }

  lemma {:induction false} RunStep(kind: Kind, n: nat, off: nat)
    requires n > 0
    ensures Run(kind, n, off) == [Capture(kind, off)] + Run(kind, n - 1, off + POINTER_SIZE)
  {
  }

  lemma {:induction false} WalkUnitsRun(kind: Kind, n: nat, rest: seq<Unit>, off: nat)
    ensures WalkUnits(Repeat(Pointer(kind), n) + rest, off)
         == Run(kind, n, off) + WalkUnits(rest, off + POINTER_SIZE * n)
    decreases n
  {
    var us := Repeat(Pointer(kind), n) + rest;
    if n == 0 {
      assert us == rest;
    } else {
      assert us[1..] == Repeat(Pointer(kind), n - 1) + rest;
      WalkUnitsRun(kind, n - 1, rest, off + POINTER_SIZE);
      RunStep(kind, n, off);
      hide Run;
      assert us[0] == Pointer(kind);
    }
  }

  lemma {:induction false} WalkUnitsSkip(n: nat, rest: seq<Unit>, off: nat)
    ensures WalkUnits(Repeat(Byte, n) + rest, off) == WalkUnits(rest, off + n)
    decreases n
  {
    var us := Repeat(Byte, n) + rest;
    if n == 0 {
      assert us == rest;
    } else {
      assert us[1..] == Repeat(Byte, n - 1) + rest;
      WalkUnitsSkip(n - 1, rest, off + 1);
    }
  }

  lemma {:induction false} WalkIsFlat(ps: seq<Pair>, off: nat)
    ensures Walk(ps, off) == WalkUnits(Flatten(ps), off)
    decreases ps
  {
    if ps != [] {
      WalkIsFlat(ps[1..], off + Width(ps[0]));
      if IsObject(ps[0].opcode) {
        WalkUnitsRun(KindOf(ps[0].opcode), ps[0].count, Flatten(ps[1..]), off);
      } else {
        WalkUnitsSkip(Width(ps[0]), Flatten(ps[1..]), off);
      }
    }
  }

  /** Two layouts, in any of the encodings, with the same flattened captures are walked alike. */
  lemma {:induction false} SameCapturesSameWalk(l: Layout, m: Layout)
    requires WellFormed(l) && WellFormed(m) && Flatten(Pairs(l)) == Flatten(Pairs(m))
    ensures CapturesOf(l) == CapturesOf(m)
  {
    WalkIsFlat(Pairs(l), FIRST_CAPTURE);
    WalkIsFlat(Pairs(m), FIRST_CAPTURE);
  }

  /** Splitting a run into two opcodes changes nothing, nor does spelling a word as eight bytes. */
  lemma {:induction false} SplitRun(opcode: nat, a: nat, b: nat, rest: seq<Pair>)
    requires 1 <= opcode <= BCK_WEAK
    ensures Flatten([Pair(opcode, a + b)] + rest) == Flatten([Pair(opcode, a), Pair(opcode, b)] + rest)
    ensures PairUnits(Pair(BCK_NON_OBJECT_WORDS, a)) == PairUnits(Pair(BCK_NON_OBJECT_BYTES, POINTER_SIZE * a))
  {
    var two := [Pair(opcode, a), Pair(opcode, b)] + rest;
    assert two[1..] == [Pair(opcode, b)] + rest && two[1..][1..] == rest;
    assert ([Pair(opcode, a + b)] + rest)[1..] == rest;
    assert PairUnits(Pair(opcode, a + b)) == PairUnits(Pair(opcode, a)) + PairUnits(Pair(opcode, b));
  }

  // ----- every layout can be transcribed into a layout string -----

  /** The opcode nibble for a pair in a generic or an extended string. */
  function ToNibble(extended: bool, opcode: nat): nat {
    if extended && opcode == BCK_BYREF then 4
    else if extended && opcode == BCK_WEAK then 5
    else opcode
  }

  /** The bytes for one pair: runs longer than sixteen take several. */
  function PairBytes(extended: bool, p: Pair): seq<nat>
    decreases p.count
  {
    var op := 16 * ToNibble(extended, p.opcode);
    if p.count == 0 then []
    else if p.count <= 16 then [op + p.count - 1]
    else [op + 15] + PairBytes(extended, Pair(p.opcode, p.count - 16))
  }

  function StringBytes(extended: bool, ps: seq<Pair>): seq<nat> {
    if ps == [] then [0] else PairBytes(extended, ps[0]) + StringBytes(extended, ps[1..])
  }

  /** The pairs that a string of the given kind can express: an extended string has no opcode for blocks. */
  ghost predicate Expressible(extended: bool, ps: seq<Pair>) {
    KnownPairs(ps) && (extended ==> forall i | 0 <= i < |ps| :: ps[i].opcode != BCK_BLOCK)
  }

  ghost predicate IsString(extended: bool, l: Layout) {
    if extended then l.ExtendedOutOfLine? else l.GenericOutOfLine?
  }

  lemma {:induction false} DecodedByte(extended: bool, l: Layout, pos: nat, opcode: nat, n: nat)
    requires IsString(extended, l) && pos < |l.bytes|
    requires 1 <= opcode <= BCK_WEAK && (extended ==> opcode != BCK_BLOCK) && 1 <= n <= 16
    requires l.bytes[pos] == 16 * ToNibble(extended, opcode) + n - 1
    ensures Decode(l, pos) == Pair(opcode, n)
  {
  }

  lemma {:induction false} UnitsSplit(opcode: nat, a: nat, b: nat)
    requires 1 <= opcode <= BCK_WEAK
    ensures PairUnits(Pair(opcode, a + b)) == PairUnits(Pair(opcode, a)) + PairUnits(Pair(opcode, b))
  {
  }

  lemma {:induction false} StringStep(l: Layout, pos: int, p: Pair)
    requires l.GenericOutOfLine? || l.ExtendedOutOfLine?
    requires 0 <= pos < |l.bytes| && Decode(l, pos) == p && 1 <= p.opcode <= BCK_WEAK && TerminatedAt(l, pos + 1)
    ensures TerminatedAt(l, pos) && Flatten(StringPairs(l, pos)) == PairUnits(p) + Flatten(StringPairs(l, pos + 1))
  {
    hide Decode, PairUnits;
    var ps := StringPairs(l, pos);
    assert ps[0] == p && ps[1..] == StringPairs(l, pos + 1);
  }

  lemma {:induction false} PairDecoded(extended: bool, l: Layout, pos: nat, p: Pair, rest: seq<nat>)
    requires IsString(extended, l) && Expressible(extended, [p])
    requires pos <= |l.bytes| && l.bytes[pos..] == PairBytes(extended, p) + rest
    requires TerminatedAt(l, pos + |PairBytes(extended, p)|)
    ensures TerminatedAt(l, pos)
    ensures Flatten(StringPairs(l, pos)) == PairUnits(p) + Flatten(StringPairs(l, pos + |PairBytes(extended, p)|))
    decreases p.count
  {
    hide Decode, ToNibble, PairUnits, StringPairs, TerminatedAt, Flatten;
    assert [p][0] == p;
    if p.count == 0 {
      NoUnits(p);
    } else {
      var n := if p.count <= 16 then p.count else 16;
      var q := Pair(p.opcode, p.count - n);
      var here := [16 * ToNibble(extended, p.opcode) + n - 1];
      assert PairBytes(extended, p) == here + PairBytes(extended, q);
      assert l.bytes[pos] == l.bytes[pos..][0];
      DecodedByte(extended, l, pos, p.opcode, n);
      assert l.bytes[pos + 1..] == l.bytes[pos..][1..] == PairBytes(extended, q) + rest;
      assert [q][0] == q;
      PairDecoded(extended, l, pos + 1, q, rest);
      StringStep(l, pos, Pair(p.opcode, n));
      UnitsSplit(p.opcode, n, p.count - n);
    }
  }

  lemma {:induction false} NoUnits(p: Pair)
    requires p.count == 0
    ensures PairUnits(p) == []
  {
  }

  /** Decoding a string written for the pairs gives back captures that flatten to the same list. */
  lemma {:induction false} StringDecoded(extended: bool, l: Layout, pos: nat, ps: seq<Pair>)
    requires IsString(extended, l) && Expressible(extended, ps)
    requires pos <= |l.bytes| && l.bytes[pos..] == StringBytes(extended, ps)
    ensures TerminatedAt(l, pos) && Flatten(StringPairs(l, pos)) == Flatten(ps)
    decreases ps
  {
    hide PairUnits, PairBytes;
    if ps == [] {
      assert l.bytes[pos] == l.bytes[pos..][0] == 0;
    } else {
      assert Expressible(extended, [ps[0]]) && Expressible(extended, ps[1..]);
      hide Decode, Expressible;
      var here := PairBytes(extended, ps[0]);
      assert l.bytes[pos + |here|..] == l.bytes[pos..][|here|..] == StringBytes(extended, ps[1..]);
      StringDecoded(extended, l, pos + |here|, ps[1..]);
      PairDecoded(extended, l, pos, ps[0], StringBytes(extended, ps[1..]));
    }
  }

  function Transcribed(extended: bool, ps: seq<Pair>): Layout {
    if extended then ExtendedOutOfLine(StringBytes(true, ps)) else GenericOutOfLine([0] + StringBytes(false, ps))
  }

  /**
   Whatever the encoding of a layout, writing its pairs as a generic string, or as an extended string
   if it captures no blocks, gives a layout with the same walk.
   */
  lemma {:induction false} TranscriptionSameWalk(extended: bool, l: Layout)
    requires WellFormed(l) && Expressible(extended, Pairs(l))
    ensures WellFormed(Transcribed(extended, Pairs(l)))
    ensures CapturesOf(Transcribed(extended, Pairs(l))) == CapturesOf(l)
  {
    var m := Transcribed(extended, Pairs(l));
    if extended {
      assert m.bytes[0..] == m.bytes;
      StringDecoded(true, m, 0, Pairs(l));
    } else {
      assert m.bytes[1..] == StringBytes(false, Pairs(l));
      StringDecoded(false, m, 1, Pairs(l));
    }
    SameCapturesSameWalk(m, l);
  }

  /** The two inline forms: what each nibble counts, and that they agree where both apply. */
  lemma {:induction false} InlineForms(strong: nat, block: nat, byref: nat, weak: nat)
    requires strong < 16 && block < 16 && byref < 16 && weak < 16
    ensures Pairs(GenericInline(0x100 * strong + 0x1000 * block + 0x1_0000 * byref + 0x10_0000 * weak))
         == [Pair(BCK_STRONG, strong), Pair(BCK_BLOCK, block), Pair(BCK_BYREF, byref), Pair(BCK_WEAK, weak)]
    ensures Pairs(ExtendedInline(0x100 * strong + 0x10 * byref + weak))
         == [Pair(BCK_STRONG, strong), Pair(BCK_BYREF, byref), Pair(BCK_WEAK, weak)]
    ensures var g := 0x100 * strong + 0x1000 * block + 0x1_0000 * byref + 0x10_0000 * weak;
            var x := 0x100 * strong + 0x10 * byref + weak;
            && WellFormed(GenericInline(g)) && WellFormed(ExtendedInline(x))
            && (block == 0 ==> CapturesOf(GenericInline(g)) == CapturesOf(ExtendedInline(x)))
  {
    Powers();
    GenericNibbles(strong, block, byref, weak);
    ExtendedNibbles(strong, byref, weak);
    hide Walk;
    var (p, none, rest) := (Pair(BCK_STRONG, strong), Pair(BCK_BLOCK, 0),
              [Pair(BCK_BYREF, byref), Pair(BCK_WEAK, weak)]);
    NothingCaptured(p, none, rest, FIRST_CAPTURE);
    assert [p, none] + rest == [p, none, rest[0], rest[1]] && [p] + rest == [p, rest[0], rest[1]];
  }

  /** A pair with a count of zero makes no difference. */
  lemma {:induction false} NothingCaptured(p: Pair, none: Pair, rest: seq<Pair>, off: nat)
    requires none.count == 0
    ensures Walk([p, none] + rest, off) == Walk([p] + rest, off)
  {
    assert ([p, none] + rest)[1..] == [none] + rest && ([none] + rest)[1..] == rest && ([p] + rest)[1..] == rest;
    assert Captures(none, off + Width(p)) == [];
  }

  lemma {:induction false} Powers()
    ensures Pow2(0) == 1 && Pow2(4) == 0x10 && Pow2(8) == 0x100 && Pow2(12) == 0x1000
    ensures Pow2(16) == 0x1_0000 && Pow2(20) == 0x10_0000
  {
    assert Pow2(8) == 0x100;
    assert Pow2(12) == 0x1000;
    assert Pow2(16) == 0x1_0000;
  }

  lemma {:induction false} GenericNibbles(a: nat, b: nat, c: nat, d: nat)
    requires a < 16 && b < 16 && c < 16 && d < 16
    ensures var v := 0x100 * a + 0x1000 * b + 0x1_0000 * c + 0x10_0000 * d;
            v / 0x100 % 16 == a && v / 0x1000 % 16 == b && v / 0x1_0000 % 16 == c && v / 0x10_0000 % 16 == d
  {
    var v := 0x100 * a + 0x1000 * b + 0x1_0000 * c + 0x10_0000 * d;
    assert v / 0x100 == a + 16 * (b + 16 * (c + 16 * d));
    assert v / 0x1000 == b + 16 * (c + 16 * d);
    assert v / 0x1_0000 == c + 16 * d;
  }

  lemma {:induction false} ExtendedNibbles(a: nat, b: nat, c: nat)
    requires a < 16 && b < 16 && c < 16
    ensures var v := 0x100 * a + 0x10 * b + c;
            v / 0x100 % 16 == a && v / 0x10 % 16 == b && v % 16 == c
  {
    var v := 0x100 * a + 0x10 * b + c;
    assert v / 0x10 == b + 16 * a;
  }

  // ----- what the encodings say, capture by capture -----

  /** n captures of one kind, a pointer apart. */
  function Row(kind: Kind, n: nat, off: nat): (r: seq<Capture>)
    ensures |r| == n
  {
    seq(n, i requires 0 <= i < n => Capture(kind, off + 8 * i))
  }

  /** The captures that an inline word counts: strong ones first, then blocks, __block variables and weak ones. */
  function InlineList(strong: nat, block: nat, byref: nat, weak: nat): seq<Capture> {
    Row(Strong, strong, 32) + Row(Block, block, 32 + 8 * strong) + Row(Byref, byref, 32 + 8 * (strong + block))
    + Row(Weak, weak, 32 + 8 * (strong + block + byref))
  }

  lemma {:induction false} InlineMeaning(strong: nat, block: nat, byref: nat, weak: nat)
    requires strong < 16 && block < 16 && byref < 16 && weak < 16
    ensures CapturesOf(GenericInline(0x100 * strong + 0x1000 * block + 0x1_0000 * byref + 0x10_0000 * weak))
         == InlineList(strong, block, byref, weak)
    ensures CapturesOf(ExtendedInline(0x100 * strong + 0x10 * byref + weak)) == InlineList(strong, 0, byref, weak)
  {
    hide Walk, Pairs, InlineList;
    InlineForms(strong, block, byref, weak);
    InlineForms(strong, 0, byref, weak);
    InlineWalk(strong, block, byref, weak);
    InlineWalk(strong, 0, byref, weak);
  }

  lemma {:induction false} InlineWalk(strong: nat, block: nat, byref: nat, weak: nat)
    ensures Walk([Pair(BCK_STRONG, strong), Pair(BCK_BLOCK, block), Pair(BCK_BYREF, byref), Pair(BCK_WEAK, weak)],
                 FIRST_CAPTURE) == InlineList(strong, block, byref, weak)
  {
    var (a, b) := (Pair(BCK_STRONG, strong), Pair(BCK_BLOCK, block));
    var (c, d) := (Pair(BCK_BYREF, byref), Pair(BCK_WEAK, weak));
    RunIs(a, 32);
    RunIs(b, 32 + 8 * strong);
    RunIs(c, 32 + 8 * (strong + block));
    RunIs(d, 32 + 8 * (strong + block + byref));
    FourPairs(a, b, c, d, 32);
  }

  lemma {:induction false} FourPairs(a: Pair, b: Pair, c: Pair, d: Pair, off: nat)
    ensures Walk([a, b, c, d], off)
         == Captures(a, off) + Captures(b, off + Width(a)) + Captures(c, off + Width(a) + Width(b))
            + Captures(d, off + Width(a) + Width(b) + Width(c))
  {
    hide Walk, Captures, Width;
    var (p, q, r) := (off + Width(a), off + Width(a) + Width(b), off + Width(a) + Width(b) + Width(c));
    assert [a, b, c, d] == [a] + [b, c, d] && [b, c, d] == [b] + [c, d] && [c, d] == [c] + [d] && [d] == [d] + [];
    WalkFirst(a, [b, c, d], off);
    WalkFirst(b, [c, d], p);
    WalkFirst(c, [d], q);
    WalkFirst(d, [], r);
    WalkNone(r + Width(d));
    Grouped(Captures(a, off), Captures(b, p), Captures(c, q), Captures(d, r));
  }

  lemma {:induction false} Grouped<T>(a: seq<T>, b: seq<T>, c: seq<T>, d: seq<T>)
    ensures a + (b + (c + (d + []))) == a + b + c + d
  {
  }

  lemma {:induction false} WalkFirst(p: Pair, rest: seq<Pair>, off: nat)
    ensures Walk([p] + rest, off) == Captures(p, off) + Walk(rest, off + Width(p))
  {
    hide Captures, Width;
    assert ([p] + rest)[1..] == rest;
  }

  lemma {:induction false} WalkNone(off: nat)
    ensures Walk([], off) == []
  {
  }

  lemma {:induction false} RunIs(p: Pair, off: nat)
    requires IsObject(p.opcode)
    ensures Captures(p, off) == Row(KindOf(p.opcode), p.count, off) && Width(p) == 8 * p.count
  {
  }

  /** What one byte of a layout string captures from offset `off` on, and where the next byte goes on. */
  function ByteCaptures(extended: bool, c: nat, off: nat): (seq<Capture>, nat) {
    var n := c % 16 + 1;
    match c / 16 % 16
    case 1 => ([], off + n)
    case 2 => ([], off + 8 * n)
    case 3 => (Row(Strong, n, off), off + 8 * n)
    case 4 => (Row(if extended then Byref else Block, n, off), off + 8 * n)
    case 5 => (Row(if extended then Weak else Byref, n, off), off + 8 * n)
    case 6 => (if extended then [] else Row(Weak, n, off), off + 8 * n)
    case _ => ([], off)
  }

  /** The captures that a layout string lists, up to the byte with opcode 0. */
  function StringCaptures(extended: bool, bytes: seq<nat>, off: nat): seq<Capture> {
    if bytes == [] || bytes[0] / 16 % 16 == 0 then []
    else
      var (here, next) := ByteCaptures(extended, bytes[0], off);
      here + StringCaptures(extended, bytes[1..], next)
  }

  lemma {:induction false} ByteMeaning(l: Layout, pos: int, off: nat)
    requires (l.GenericOutOfLine? || l.ExtendedOutOfLine?) && 0 <= pos < |l.bytes| && Decode(l, pos).opcode <= BCK_WEAK
    ensures var p := Decode(l, pos);
            && (p.opcode == BCK_DONE <==> l.bytes[pos] / 16 % 16 == 0)
            && (p.opcode != BCK_DONE ==>
                  (Captures(p, off), off + Width(p)) == ByteCaptures(l.ExtendedOutOfLine?, l.bytes[pos], off))
  {
    var p := Decode(l, pos);
    if IsObject(p.opcode) {
      RunIs(p, off);
    }
  }

  lemma {:induction false} StringMeaning(l: Layout, pos: int, off: nat)
    requires (l.GenericOutOfLine? || l.ExtendedOutOfLine?) && TerminatedAt(l, pos)
    ensures Walk(StringPairs(l, pos), off) == StringCaptures(l.ExtendedOutOfLine?, l.bytes[pos..], off)
    decreases |l.bytes| - pos
  {
    hide Decode, ByteCaptures, Captures, Width, Walk, StringCaptures;
    ByteMeaning(l, pos, off);
    StringFirst(l.ExtendedOutOfLine?, l.bytes, pos, off);
    var p := Decode(l, pos);
    if p.opcode == BCK_DONE {
      WalkNone(off);
    } else {
      WalkFirst(p, StringPairs(l, pos + 1), off);
      StringMeaning(l, pos + 1, off + Width(p));
    }
  }

  lemma {:induction false} StringFirst(extended: bool, bytes: seq<nat>, pos: int, off: nat)
    requires 0 <= pos < |bytes|
    ensures var (here, next) := ByteCaptures(extended, bytes[pos], off);
            StringCaptures(extended, bytes[pos..], off) ==
              if bytes[pos] / 16 % 16 == 0 then [] else here + StringCaptures(extended, bytes[pos + 1..], next)
  {
    hide ByteCaptures;
    assert bytes[pos..][0] == bytes[pos] && bytes[pos..][1..] == bytes[pos + 1..];
  }

  /**
   The walk of an out-of-line layout is what its bytes say, from offset 32 on; a generic string has a byte
   in front.
   */
  lemma {:induction false} OutOfLineMeaning(l: Layout)
    requires (l.GenericOutOfLine? || l.ExtendedOutOfLine?) && WellFormed(l)
    ensures l.ExtendedOutOfLine? ==> CapturesOf(l) == StringCaptures(true, l.bytes, 32)
    ensures l.GenericOutOfLine? ==> CapturesOf(l) == StringCaptures(false, l.bytes[1..], 32)
  {
    hide StringCaptures, Walk;
    StringMeaning(l, InitPos(l), FIRST_CAPTURE);
    assert l.bytes[0..] == l.bytes;
  }
}
