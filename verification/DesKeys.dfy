/**
 The key schedule of crypt.c: a first code made by "bit reverse, PC1, rotate, PC2" in one table, and
 every further code made from the one before it by "undo PC2, rotate, PC2" in one table.
 */
module DesKeys {
  import opened DesTables
  import opened DesBits
  import opened DesSpec

  /** The mirror image of bit index i within its byte. */
  function Mirror(i: nat): (j: nat)
    ensures j / 8 == i / 8
    ensures i < 64 ==> j < 64
  {
    8 * (i / 8) + 7 - i % 8
  }

  lemma {:induction false} MirrorAt(a: nat, b: nat)
    requires b < 8
    ensures Mirror(8 * a + b) == 8 * a + 7 - b
  {
  }

  lemma {:induction false} MirrorTwice(i: nat)
    ensures Mirror(Mirror(i)) == i
  {
    hide Mirror;
    MirrorAt(i / 8, i % 8);
    MirrorAt(i / 8, 7 - i % 8);
  }

  /** The 1-based position, counting from the low end of each byte, of the standard's bit k. */
  function BitReverse(k: nat): (r: nat)
    requires k >= 1
    ensures r >= 1
    ensures k <= 64 ==> r <= 64
  {
    Mirror(k - 1) + 1
  }

  /** The bytes of a block read in the order of the standard, most significant bit of each byte first. */
  function ToStandard(b: Block): Block {
    seq(64, i requires 0 <= i < 64 => b[Mirror(i)])
  }

  lemma {:induction false} ToStandardTwice(b: Block)
    ensures ToStandard(ToStandard(b)) == b
  {
    hide Mirror;
    forall i | 0 <= i < 64
      ensures ToStandard(ToStandard(b))[i] == b[i]
    {
      MirrorTwice(i);
    }
  }

  /** C and D in the padded PC2 order: all 56 bits, eight of them in the low bits of the first four bytes. */
  function Padded(c: KeyBits): Block {
    seq(64, i requires 0 <= i < 64 => Pc2(i) != 0 && c[Pc2(i) - 1])
  }

  /** A 48-bit code as eight bytes of six bits, the two low bits of each byte zero. */
  function Spread(c: Code): Block {
    seq(64, k requires 0 <= k < 64 => k % 8 >= 2 && c[6 * (k / 8) + k % 8 - 2])
  }

  function Not(a: seq<bool>): (r: seq<bool>)
    ensures |r| == |a|
  {
    seq(|a|, k requires 0 <= k < |a| => !a[k])
  }

  /** The STORE of a code: only the first word is masked. */
  function MaskedStore(k: Block): Block {
    And(k[..32], Not(FourBytes(0x03))) + k[32..]
  }

  // ----- the source tables computed by init_des -----

  function Pc1RotSource(i: nat): (s: nat)
    requires i < 64
    ensures s <= 64
  {
    hide Pc1, Pc2, Mirror;
    if Pc2(i) == 0 then 0 else BitReverse(Pc1(RotateSource(Pc2(i) - 1, ROTATES[0])))
  }

  function Pc2RotSource(j: nat, i: nat): (s: nat)
    requires i < 64 && j < 2
    ensures s <= 64
  {
    hide Pc2, Pc2Inverse;
    if Pc2(i) == 0 then 0 else Pc2Inverse(RotateSource(Pc2(i) - 1, j + 1) + 1) + 1
  }

  function Pc1RotSources(): (p: seq<nat>)
    ensures IsSource(p, 64)
  {
    seq(64, i requires 0 <= i < 64 => Pc1RotSource(i))
  }

  function Pc2RotSources(j: nat): (p: seq<nat>)
    requires j < 2
    ensures IsSource(p, 64)
  {
    seq(64, i requires 0 <= i < 64 => Pc2RotSource(j, i))
  }

  // The wrap-around that init_des computes with a single conditional subtraction.
  lemma {:induction false} WrapAround(k: nat, r: nat)
    requires 1 <= k <= 56 && 1 <= r <= 2
    ensures var m := k + r - 1;
            RotateSource(k - 1, r) == if m % 28 < r then m - 28 else m
  {
    var m := k + r - 1;
    assert k <= 28 ==> (k - 1) / 28 == 0 && (k - 1) % 28 == k - 1;
    assert k > 28 ==> (k - 1) / 28 == 1 && (k - 1) % 28 == k - 29;
  }

  method BuildPc1RotSources() returns (perm: seq<nat>)
    ensures perm == Pc1RotSources()
  {
    hide Pc1, Pc2;
    var p := new nat[64](_ => 0);
    var i := 0;
    while i < 64
      invariant 0 <= i <= 64
      invariant forall e | 0 <= e < 64 :: p[e] == if e < i then Pc1RotSource(e) else 0
    {
      var k: int := Pc2(i);
      if k != 0 {
        WrapAround(k, ROTATES[0]);
        k := k + ROTATES[0] - 1;
        if k % 28 < ROTATES[0] { k := k - 28; }
        k := Pc1(k);
        p[i] := BitReverse(k);
      }
      i := i + 1;
    }
    perm := p[..];
  }

  method BuildPc2RotSources(j: nat) returns (perm: seq<nat>)
    requires j < 2
    ensures perm == Pc2RotSources(j)
  {
    hide Pc2, Pc2Inverse;
    var pc2inv := InvertPc2();
    var p := new nat[64](_ => 0);
    var i := 0;
    while i < 64
      invariant 0 <= i <= 64
      invariant forall e | 0 <= e < 64 :: p[e] == if e < i then Pc2RotSource(j, e) else 0
    {
      var k: int := Pc2(i);
      if k != 0 {
        p[i] := RotatedEntry(pc2inv, j, k);
      }
      i := i + 1;
    }
    perm := p[..];
  }

  // The body of the loop above for a nonzero entry k of PC2.
  method RotatedEntry(pc2inv: seq<nat>, j: nat, pc2: nat) returns (s: nat)
    requires j < 2 && 1 <= pc2 <= 56 && |pc2inv| == 64
    requires forall n: nat | 1 <= n <= 56 :: pc2inv[n - 1] == Pc2Inverse(n) + 1
    ensures s == Pc2Inverse(RotateSource(pc2 - 1, j + 1) + 1) + 1
  {
    hide Pc2Inverse;
    WrapAround(pc2, j + 1);
    var k: int := pc2 + j;
    if k % 28 <= j { k := k - 28; }
    assert pc2inv[k] == Pc2Inverse(k + 1) + 1;
    s := pc2inv[k];
  }

  method InvertPc2() returns (pc2inv: seq<nat>)
    ensures |pc2inv| == 64
    ensures forall n: nat | 1 <= n <= 56 :: pc2inv[n - 1] == Pc2Inverse(n) + 1
  {
    hide Pc2, Pc2Inverse;
    var inv := new nat[64](_ => 0);
    var i := 0;
    while i < 64
      invariant 0 <= i <= 64
      invariant forall n: nat | 1 <= n <= 56 && Pc2Inverse(n) < i :: inv[n - 1] == Pc2Inverse(n) + 1
    {
      var k: int := Pc2(i);
      if k != 0 {
        inv[k - 1] := i + 1;
        Pc2InverseOf(i);
      }
      forall n: nat | 1 <= n <= 56
        ensures Pc2Inverse(n) == i ==> k == n
      {
        Pc2OfInverse(n);
      }
      i := i + 1;
    }
    pc2inv := inv[..];
  }

  // ----- what the tables mean -----

  lemma {:induction false} RotatedBit(c: KeyBits, n: nat, r: nat)
    requires 1 <= n <= 56
    ensures RotatedLeft(c, r)[n - 1] == c[RotateSource(n - 1, r)]
  {
  }

  lemma {:induction false} ReversedBit(key: Block, n: nat)
    requires 1 <= n <= 64
    ensures ToStandard(key)[n - 1] == key[BitReverse(n) - 1]
  {
  }

  lemma {:induction false} ChosenBit(key: Block, m: nat)
    requires m < 56
    ensures PermutedChoice1(ToStandard(key))[m] == key[BitReverse(Pc1(m)) - 1]
  {
    hide Pc1;
    ReversedBit(key, Pc1(m));
  }

  lemma {:induction false} PaddedBit(c: KeyBits, m: nat)
    requires m < 56
    ensures Padded(c)[Pc2Inverse(m + 1)] == c[m]
  {
    hide Pc2, Pc2Inverse;
    Pc2OfInverse(m + 1);
  }

  /** PC1ROT: bit reverse, permuted choice 1, rotate, padded permuted choice 2. */
  lemma {:induction false} Pc1RotMeaning(key: Block)
    ensures Permuted(Pc1RotSources(), key)
         == Padded(RotatedLeft(PermutedChoice1(ToStandard(key)), ROTATES[0]))
  {
    hide Pc1, Pc2, Mirror, RotateSource;
    var r := ROTATES[0];
    var c := PermutedChoice1(ToStandard(key));
    forall i | 0 <= i < 64
      ensures Permuted(Pc1RotSources(), key)[i] == Padded(RotatedLeft(c, r))[i]
    {
      var n := Pc2(i);
      if n != 0 {
        RotatedBit(c, n, r);
        ChosenBit(key, RotateSource(n - 1, r));
      }
    }
  }

  /** PC2ROT[j]: it undoes the padded PC2, rotates by j+1 and applies the padded PC2 again. */
  lemma {:induction false} Pc2RotMeaning(c: KeyBits, j: nat)
    requires j < 2
    ensures Permuted(Pc2RotSources(j), Padded(c)) == Padded(RotatedLeft(c, j + 1))
  {
    hide Pc2, Pc2Inverse, RotateSource;
    forall i | 0 <= i < 64
      ensures Permuted(Pc2RotSources(j), Padded(c))[i] == Padded(RotatedLeft(c, j + 1))[i]
    {
      var n := Pc2(i);
      if n != 0 {
        RotatedBit(c, n, j + 1);
        PaddedBit(c, RotateSource(n - 1, j + 1));
      }
    }
  }

  /** Masking one word is enough: PC2 has no source for the low bits of the other. */
  lemma {:induction false} MaskedStoreMeaning(c: KeyBits)
    ensures MaskedStore(Padded(c)) == Spread(PermutedChoice2(c))
  {
    hide Pc2, Bit;
    forall k | 0 <= k < 64
      ensures MaskedStore(Padded(c))[k] == Spread(PermutedChoice2(c))[k]
    {
      LowBitsMask(k % 8);
      if k % 8 >= 2 {
        var i := 6 * (k / 8) + k % 8 - 2;
        assert i / 6 == k / 8 && i % 6 == k % 8 - 2;
        assert 8 * (i / 6) + i % 6 + 2 == k;
        assert PermutedChoice2(c)[i] == c[Pc2(k) - 1];
      }
    }
  }

  lemma {:induction false} LowBitsMask(b: nat)
    requires b < 8
    ensures Bit(0x03, b) == (b < 2)
  {
    assert b == 0 || b == 1 || b == 2 || b == 3 || b == 4 || b == 5 || b == 6 || b == 7;
  }
}
