/**
 The two ends of the cipher in crypt.c: collecting the even and odd input bits and expanding them
 through one 32-to-64-bit table (IE3264), and compressing the two expanded halves and applying the
 final permutation through another (CF6464).
 */
module DesEnds {
  import opened DesTables
  import opened DesBits
  import opened DesSpec
  import opened DesKeys

  /** The form in which the cipher keeps a 32-bit half: expanded to 48 bits, six to a byte. */
  function Expanded(h: Half): Block {
    Spread(Expand(h))
  }

  // ----- input -----

  /** The two words that the cipher forms from the input words: even-numbered bits, then odd-numbered bits. */
  function EvenOdd(i0: Word, i1: Word): (r: (Word, Word)) {
    var m5 := FourBytes(0x55);
    var ma := FourBytes(0xaa);
    (Or(Shl(And(i0, m5), 1), And(i1, m5)), Or(And(i0, ma), And(Shr(i1, 1), m5)))
  }

  lemma {:induction false} AlternatingMasks(b: nat)
    requires b < 8
    ensures Bit(0x55, b) == (b % 2 == 0)
    ensures Bit(0xaa, b) == (b % 2 == 1)
  {
    assert b == 0 || b == 1 || b == 2 || b == 3 || b == 4 || b == 5 || b == 6 || b == 7;
  }

  lemma {:induction false} EvenBit(x: Block, k: nat)
    requires k < 32
    ensures EvenOdd(x[..32], x[32..]).0[k] == if k % 2 == 1 then x[k - 1] else x[32 + k]
  {
    hide Bit;
    AlternatingMasks(k % 8);
    if k > 0 { AlternatingMasks((k - 1) % 8); }
  }

  lemma {:induction false} OddBit(x: Block, k: nat)
    requires k < 32
    ensures EvenOdd(x[..32], x[32..]).1[k] == if k % 2 == 1 then x[k] else x[32 + k + 1]
  {
    hide Bit;
    AlternatingMasks(k % 8);
  }

  /** The source of bit k of IE3264, for either half. */
  function IeSource(k: nat): (s: nat)
    requires k < 64
    ensures s <= 32
  {
    hide Ip, ExpandTr;
    if k % 8 < 2 then 0 else IeFold(Ip(ExpandTr(6 * (k / 8) + k % 8 - 2) - 1))
  }

  // Where the even-numbered bit n of the standard ends up among the 32 collected bits.
  function IeFold(n: nat): (s: nat)
    requires 1 < n <= 64
    ensures 1 <= s <= 32
  {
    BitReverse(if n > 32 then n - 32 else n - 1)
  }

  function IeSources(): (p: seq<nat>)
    ensures IsSource(p, 32)
  {
    seq(64, k requires 0 <= k < 64 => IeSource(k))
  }

  lemma {:induction false} FoldIndex(n: nat)
    requires 1 < n <= 64 && n % 2 == 0
    ensures Mirror(n - 2) == Mirror(n - 1) + 1
    ensures IeFold(n) - 1 == if n > 32 then Mirror(n - 1) - 32 else Mirror(n - 1) + 1
    ensures (IeFold(n) - 1) % 2 == if n > 32 then 0 else 1
  {
    hide Mirror;
    var a, b := (n - 1) / 8, (n - 1) % 8;
    assert b % 2 == 1;
    MirrorAt(a, b);
    MirrorAt(a, b - 1);
    if n > 32 {
      MirrorAt(a - 4, b);
    }
  }

  /** The collected words hold bit n, and its odd neighbour n-1, at the folded position. */
  lemma {:induction false} FoldedBit(x: Block, n: nat)
    requires 1 < n <= 64 && n % 2 == 0
    ensures EvenOdd(x[..32], x[32..]).0[IeFold(n) - 1] == ToStandard(x)[n - 1]
    ensures EvenOdd(x[..32], x[32..]).1[IeFold(n) - 1] == ToStandard(x)[n - 2]
  {
    hide EvenOdd, IeFold, Mirror;
    FoldIndex(n);
    EvenBit(x, IeFold(n) - 1);
    OddBit(x, IeFold(n) - 1);
  }

  lemma {:induction false} InitialBit(x: Block, i: nat)
    requires i < 32
    ensures var eo := EvenOdd(x[..32], x[32..]);
            var y := InitialPermutation(ToStandard(x));
            eo.0[IeFold(Ip(i)) - 1] == y[i] && eo.1[IeFold(Ip(i)) - 1] == y[32 + i]
  {
    hide Ip, EvenOdd, IeFold, ToStandard;
    IpHalves(i);
    FoldedBit(x, Ip(i));
  }

  /** IE3264 applied to the two collected words gives the expansions of the halves of the permuted input. */
  lemma {:induction false} InputMeaning(x: Block)
    ensures var eo := EvenOdd(x[..32], x[32..]);
            var y := InitialPermutation(ToStandard(x));
            Permuted(IeSources(), eo.0) == Expanded(y[..32]) &&
            Permuted(IeSources(), eo.1) == Expanded(y[32..])
  {
    hide Ip, ExpandTr, EvenOdd, IeFold, ToStandard, InitialPermutation;
    var eo := EvenOdd(x[..32], x[32..]);
    var y := InitialPermutation(ToStandard(x));
    forall k | 0 <= k < 64
      ensures Permuted(IeSources(), eo.0)[k] == Expanded(y[..32])[k]
      ensures Permuted(IeSources(), eo.1)[k] == Expanded(y[32..])[k]
    {
      if k % 8 >= 2 {
        InitialBit(x, ExpandTr(6 * (k / 8) + k % 8 - 2) - 1);
      }
    }
  }

  method BuildIeSources() returns (perm: seq<nat>)
    ensures perm == IeSources()
  {
    hide Ip, ExpandTr, Mirror;
    var p := new nat[64](_ => 0);
    var i := 0;
    while i < 8
      invariant 0 <= i <= 8
      invariant forall e | 0 <= e < 8 * i :: p[e] == IeSource(e)
    {
      var j := 0;
      while j < 8
        invariant 0 <= j <= 8
        invariant forall e | 0 <= e < 8 * i + j :: p[e] == IeSource(e)
      {
        assert (8 * i + j) / 8 == i && (8 * i + j) % 8 == j;
        var k := if j < 2 then 0 else Ip(ExpandTr(6 * i + j - 2) - 1);
        if k > 32 {
          k := k - 32;
        } else if k > 0 {
          k := k - 1;
        }
        if k > 0 {
          k := BitReverse(k);
        }
        p[8 * i + j] := k;
        j := j + 1;
      }
      i := i + 1;
    }
    perm := p[..];
  }

  // ----- output -----

  /** The four middle bits of each six, gathered from the two words of an expanded half. */
  function Compress(w0: Word, w1: Word): Word {
    Or(And(Shr(w0, 3), FourBytes(0x0f)), And(Shl(w1, 1), FourBytes(0xf0)))
  }

  lemma {:induction false} NibbleMasks(b: nat)
    requires b < 8
    ensures Bit(0x0f, b) == (b < 4)
    ensures Bit(0xf0, b) == (b >= 4)
  {
    assert b == 0 || b == 1 || b == 2 || b == 3 || b == 4 || b == 5 || b == 6 || b == 7;
  }

  lemma {:induction false} CompressedBit(h: Half, k: nat)
    requires k < 32
    ensures Compress(Expanded(h)[..32], Expanded(h)[32..])[k] == h[16 * (k % 8 / 4) + 4 * (k / 8) + k % 4]
  {
    hide Bit, Expanded;
    NibbleMasks(k % 8);
    var b, c := k / 8, k % 8;
    if c < 4 {
      ExpandedMiddle(h, b, c);
      assert Expanded(h)[..32][k + 3] == Expanded(h)[8 * b + 3 + c];
    } else {
      ExpandedMiddle(h, 4 + b, c - 4);
      assert Expanded(h)[32..][k - 1] == Expanded(h)[8 * (4 + b) + 3 + (c - 4)];
    }
  }

  lemma {:induction false} ExpandedMiddle(h: Half, r: nat, c: nat)
    requires r < 8 && c < 4
    ensures Expanded(h)[8 * r + 3 + c] == h[4 * r + c]
  {
    hide ExpandTr;
    var k := 8 * r + 3 + c;
    assert k / 8 == r && k % 8 == 3 + c;
    ExpandMiddle(r, c);
  }

  /** Where bit j of the output block comes from among the 64 compressed bits. */
  function CfSource(j: nat): (s: nat)
    requires j < 64
    ensures 1 <= s <= 64
  {
    hide IpInverse, CifpInverse, Mirror;
    CifpInverse(IpInverse(BitReverse(j + 1)) + 1) + 1
  }

  function CfSources(): (p: seq<nat>)
    ensures IsSource(p, 64)
  {
    seq(64, j requires 0 <= j < 64 => CfSource(j))
  }

  /** The output position to which init_des sends compressed bit i. */
  function CfTarget(i: nat): (j: nat)
    requires i < 64
    ensures j < 64
  {
    hide Ip, Cifp, Mirror;
    BitReverse(Ip(Cifp(i) - 1)) - 1
  }

  lemma {:induction false} CfInverts(i: nat, j: nat)
    requires i < 64 && j < 64
    ensures CfSource(CfTarget(i)) == i + 1
    ensures CfTarget(CfSource(j) - 1) == j
  {
    hide Ip, IpInverse, Cifp, CifpInverse, Mirror;
    MirrorTwice(j);
    MirrorTwice(Ip(Cifp(i) - 1) - 1);
    IpInverseOf(Cifp(i) - 1);
    IpOfInverse(BitReverse(j + 1));
    CifpInverseOf(i);
    CifpOfInverse(IpInverse(BitReverse(j + 1)) + 1);
  }

  method BuildCfSources() returns (perm: seq<nat>)
    ensures perm == CfSources()
  {
    hide Ip, Cifp, CfSource;
    var p := new nat[64](_ => 0);
    var i := 0;
    while i < 64
      invariant 0 <= i <= 64
      invariant forall j: nat | j < 64 && CfSource(j) <= i :: p[j] == CfSource(j)
    {
      var k := Ip(Cifp(i) - 1);
      if k > 0 {
        k := BitReverse(k);
      }
      p[k - 1] := i + 1;
      forall j: nat | j < 64
        ensures CfSource(k - 1) == i + 1
        ensures CfSource(j) == i + 1 ==> j == k - 1
      {
        CfInverts(i, j);
      }
      i := i + 1;
    }
    perm := p[..];
  }

  lemma {:induction false} OutputBit(l: Half, r: Half, i: nat)
    requires i < 64
    ensures (Compress(Expanded(l)[..32], Expanded(l)[32..]) + Compress(Expanded(r)[..32], Expanded(r)[32..]))[i]
         == (l + r)[Cifp(i) - 1]
  {
    hide Cifp, Compress, Expanded;
    var m := i % 32;
    CifpEntry(m);
    CompressedBit(l, m);
    CompressedBit(r, m);
    if i >= 32 {
      CifpHalves(m);
    }
  }

  /** Compressing two expanded halves and applying CF6464 is the final permutation, in the byte order of the input. */
  lemma {:induction false} OutputMeaning(l: Half, r: Half)
    ensures Permuted(CfSources(), Compress(Expanded(l)[..32], Expanded(l)[32..]) +
                                  Compress(Expanded(r)[..32], Expanded(r)[32..]))
         == ToStandard(FinalPermutation(l + r))
  {
    hide Ip, IpInverse, Cifp, CifpInverse, Compress, Expanded;
    var b := Compress(Expanded(l)[..32], Expanded(l)[32..]) + Compress(Expanded(r)[..32], Expanded(r)[32..]);
    forall j | 0 <= j < 64
      ensures Permuted(CfSources(), b)[j] == ToStandard(FinalPermutation(l + r))[j]
    {
      var m := IpInverse(BitReverse(j + 1));
      CifpOfInverse(m + 1);
      OutputBit(l, r, CfSource(j) - 1);
    }
  }
}
