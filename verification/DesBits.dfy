/**
 Words and blocks of Libc/gen/crypt.c as sequences of bits, least significant bit first, and the
 nibble-table permutations that init_perm builds and permute applies.

 Bit 8*i+j of a block is the bit of weight 2^j in byte b[i]; bits 0..31 are the word i0 and bits
 32..63 the word i1 (the little-endian reading of the C_block union).
 */
module DesBits {

  type Word = w: seq<bool> | |w| == 32 witness Zeros(32)
  type Block = b: seq<bool> | |b| == 64 witness Zeros(64)

  function Zeros(n: nat): (r: seq<bool>)
    ensures |r| == n
  {
    seq(n, _ => false)
  }

  function Xor(a: seq<bool>, b: seq<bool>): (r: seq<bool>)
    requires |a| == |b|
    ensures |r| == |a|
  {
    seq(|a|, k requires 0 <= k < |a| => a[k] != b[k])
  }

  function And(a: seq<bool>, b: seq<bool>): (r: seq<bool>)
    requires |a| == |b|
    ensures |r| == |a|
  {
    seq(|a|, k requires 0 <= k < |a| => a[k] && b[k])
  }

  function Or(a: seq<bool>, b: seq<bool>): (r: seq<bool>)
    requires |a| == |b|
    ensures |r| == |a|
  {
    seq(|a|, k requires 0 <= k < |a| => a[k] || b[k])
  }

  /** w << n, the bits shifted out being lost. */
  function Shl(w: seq<bool>, n: nat): (r: seq<bool>)
    ensures |r| == |w|
  {
    seq(|w|, k requires 0 <= k < |w| => k >= n && w[k - n])
  }

  /** w >> n.  Every shift of the source is masked afterwards, so what enters at the top is immaterial. */
  function Shr(w: seq<bool>, n: nat): (r: seq<bool>)
    ensures |r| == |w|
  {
    seq(|w|, k requires 0 <= k < |w| => k + n < |w| && w[k + n])
  }

  /** Bit b of the number v. */
  predicate Bit(v: nat, b: nat) {
    if b == 0 then v % 2 == 1 else Bit(v / 2, b - 1)
  }

  /** The number whose low bit is x and whose other bits are those of v. */
  function Append(x: bool, v: nat): (r: nat)
    ensures r == Weight(x, 1) + 2 * v
    ensures forall b: nat :: Bit(r, b) == if b == 0 then x else Bit(v, b - 1)
  {
    var r := Weight(x, 1) + 2 * v;
    assert r / 2 == v;
    r
  }

  /** The 32-bit constant whose four bytes all equal m (0x55555555 for m == 0x55). */
  function FourBytes(m: nat): (r: Word) {
    seq(32, k requires 0 <= k < 32 => Bit(m, k % 8))
  }

  function Weight(x: bool, w: nat): nat {
    if x then w else 0
  }

  /** The number formed by nibble c of x. */
  function Nibble(x: seq<bool>, c: nat): (v: nat)
    requires 4 * c + 4 <= |x|
    ensures v < 16
  {
    Append(x[4 * c], Append(x[4 * c + 1], Append(x[4 * c + 2], Append(x[4 * c + 3], 0))))
  }

  /** Byte i of x as a number. */
  function Byte(x: seq<bool>, i: nat): (v: nat)
    requires 8 * i + 8 <= |x|
    ensures v < 256
  {
    Append(x[8 * i], Append(x[8 * i + 1], Append(x[8 * i + 2], Append(x[8 * i + 3],
      Append(x[8 * i + 4], Append(x[8 * i + 5], Append(x[8 * i + 6], Append(x[8 * i + 7], 0))))))))
  }

  lemma {:induction false} ByteNibbles(x: seq<bool>, i: nat)
    requires 8 * i + 8 <= |x|
    ensures Byte(x, i) == Nibble(x, 2 * i) + 16 * Nibble(x, 2 * i + 1)
  {
    hide Append, Bit;
    assert 4 * (2 * i) == 8 * i && 4 * (2 * i + 1) == 8 * i + 4;
  }

  lemma {:induction false} ByteBit(x: seq<bool>, i: nat, b: nat)
    requires 8 * i + 8 <= |x| && b < 8
    ensures Bit(Byte(x, i), b) == x[8 * i + b]
  {
    hide Bit, Append;
    assert b == 0 || b == 1 || b == 2 || b == 3 || b == 4 || b == 5 || b == 6 || b == 7;
  }

  lemma {:induction false} NibbleBit(x: seq<bool>, c: nat, b: nat)
    requires 4 * c + 4 <= |x| && b < 4
    ensures Bit(Nibble(x, c), b) == x[4 * c + b]
  {
    assert b == 0 || b == 1 || b == 2 || b == 3;
  }

  // ----- permutations -----

  /** A permutation as crypt.c writes it: output bit k comes from input bit p[k]-1, or is 0 if p[k] is 0. */
  ghost predicate IsSource(p: seq<nat>, bits: nat) {
    |p| == 64 && forall k | 0 <= k < 64 :: p[k] <= bits
  }

  function Permuted(p: seq<nat>, x: seq<bool>): (r: Block)
    requires IsSource(p, |x|)
  {
    seq(64, k requires 0 <= k < 64 => p[k] != 0 && x[p[k] - 1])
  }

  /** Whether bit k of the table entry for chunk c holding value j is set. */
  ghost predicate Selects(p: seq<nat>, c: int, j: int, k: int)
    requires |p| == 64 && 0 <= k < 64 && 0 <= j
  {
    p[k] != 0 && (p[k] - 1) / 4 == c && Bit(j, (p[k] - 1) % 4)
  }

  /** What init_perm leaves in a zeroed table after treating the first `upto` output bits. */
  ghost predicate TableUpTo(t: seq<Block>, p: seq<nat>, chunks: nat, upto: int)
    requires |p| == 64
  {
    |t| == 16 * chunks &&
    forall c, j, k | 0 <= c < chunks && 0 <= j < 16 && 0 <= k < 64 ::
      t[16 * c + j][k] == (k < upto && Selects(p, c, j, k))
  }

  ghost predicate IsTable(t: seq<Block>, p: seq<nat>, chunks: nat)
    requires |p| == 64
  {
    TableUpTo(t, p, chunks, 64)
  }

  /** init_perm: fills the zeroed table in place, one output bit at a time. */
  method InitPerm(perm: array<Block>, p: seq<nat>, charsIn: nat)
    requires IsSource(p, 8 * charsIn)
    requires perm.Length == 32 * charsIn
    requires forall e | 0 <= e < perm.Length :: perm[e] == Zeros(64)
    modifies perm
    ensures IsTable(perm[..], p, 2 * charsIn)
  {
    var k := 0;
    while k < 64
      invariant 0 <= k <= 64
      invariant TableUpTo(perm[..], p, 2 * charsIn, k)
    {
      var l := p[k] as int - 1;
      if l >= 0 {
        SetOutputBit(perm, p, charsIn, k);
      }
      k := k + 1;
    }
  }

  // The inner loop of init_perm: marks output bit k in the entries whose chunk value has the source bit set.
  method SetOutputBit(perm: array<Block>, p: seq<nat>, charsIn: nat, k: nat)
    requires IsSource(p, 8 * charsIn) && k < 64 && p[k] > 0
    requires perm.Length == 32 * charsIn
    requires TableUpTo(perm[..], p, 2 * charsIn, k)
    modifies perm
    ensures TableUpTo(perm[..], p, 2 * charsIn, k + 1)
  {
    var i, l := (p[k] - 1) / 4, (p[k] - 1) % 4;
    assert i < 2 * charsIn;
    ghost var was := perm[..];
    var j := 0;
    while j < 16
      invariant 0 <= j <= 16
      invariant forall e | 0 <= e < perm.Length ::
        perm[e] == if 16 * i <= e < 16 * i + j && Bit(e - 16 * i, l) then was[e][k := true] else was[e]
    {
      if Bit(j, l) {
        perm[16 * i + j] := perm[16 * i + j][k := true];
      }
      j := j + 1;
    }
    forall c, v, b | 0 <= c < 2 * charsIn && 0 <= v < 16 && 0 <= b < 64
      ensures perm[..][16 * c + v][b] == (b < k + 1 && Selects(p, c, v, b))
    {
      assert 0 <= 16 * c + v < perm.Length;
      assert was[16 * c + v][b] == (b < k && Selects(p, c, v, b));
    }
  }

  /** permute: the OR of the entries selected by the two nibbles of each input byte. */
  method Permute(cp: seq<bool>, t: seq<Block>, ghost p: seq<nat>, charsIn: nat) returns (out: Block)
    requires charsIn >= 1 && |cp| == 8 * charsIn
    requires IsSource(p, 8 * charsIn) && IsTable(t, p, 2 * charsIn)
    ensures out == Permuted(p, cp)
  {
    hide Byte, Nibble;
    var d: Block := Zeros(64);
    var b := 0;
    while b < charsIn
      invariant 0 <= b <= charsIn
      invariant forall k | 0 <= k < 64 :: d[k] == (0 < p[k] <= 8 * b && cp[p[k] - 1])
    {
      var v := Byte(cp, b);
      ByteNibbles(cp, b);
      var lo := t[16 * (2 * b) + v % 16];
      var hi := t[16 * (2 * b + 1) + v / 16];
      forall k | 0 <= k < 64
        ensures lo[k] == (8 * b < p[k] <= 8 * b + 4 && cp[p[k] - 1])
        ensures hi[k] == (8 * b + 4 < p[k] <= 8 * b + 8 && cp[p[k] - 1])
      {
        EntryBit(cp, t, p, charsIn, 2 * b, k);
        EntryBit(cp, t, p, charsIn, 2 * b + 1, k);
      }
      d := Or(Or(d, lo), hi);
      b := b + 1;
    }
    out := d;
  }

  lemma {:induction false} EntryBit(cp: seq<bool>, t: seq<Block>, p: seq<nat>, charsIn: nat, c: nat, k: nat)
    requires |cp| == 8 * charsIn && c < 2 * charsIn && k < 64
    requires IsSource(p, 8 * charsIn) && IsTable(t, p, 2 * charsIn)
    ensures t[16 * c + Nibble(cp, c)][k] == (4 * c < p[k] <= 4 * c + 4 && cp[p[k] - 1])
  {
    var j := Nibble(cp, c);
    assert t[16 * c + j][k] == Selects(p, c, j, k);
    if 4 * c < p[k] <= 4 * c + 4 {
      NibbleBit(cp, c, (p[k] - 1) % 4);
    }
  }
}
