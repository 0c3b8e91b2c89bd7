/**
 One round of the cipher in crypt.c: the salt, the key, and eight lookups in the fused table SPE,
 whose entries are S box outputs already transposed by P and expanded by E.
 */
module DesRound {
  import opened DesTables
  import opened DesBits
  import opened DesSpec
  import opened DesKeys
  import opened DesEnds

  type Long = w: seq<bool> | |w| == 64 witness Zeros(64)

  /** TO_SIX_BIT: the low 24 bits of a long, six to a byte and shifted up by two. */
  function ToSixBit(src: Long): Word {
    var cvt: Word := seq(32, k requires 0 <= k < 32 => src[6 * (k / 8) + k % 8]);
    Shl(And(cvt, FourBytes(0x3f)), 2)
  }

  lemma {:induction false} SixBitMask(b: nat)
    requires b < 8
    ensures Bit(0x3f, b) == (b < 6)
  {
    assert b == 0 || b == 1 || b == 2 || b == 3 || b == 4 || b == 5 || b == 6 || b == 7;
  }

  lemma {:induction false} SixBits(src: Long, k: nat)
    requires k < 32
    ensures ToSixBit(src)[k] == (k % 8 >= 2 && src[6 * (k / 8) + k % 8 - 2])
  {
    hide Bit;
    if k >= 2 {
      SixBitMask((k - 2) % 8);
      assert k % 8 >= 2 ==> (k - 2) / 8 == k / 8 && (k - 2) % 8 == k % 8 - 2;
    }
  }

  // ----- the fused table -----

  /** The S box output of box t alone, in its four positions of the 32 bits. */
  function BoxOnly(t: nat, k: nat): Half
    requires t < 8 && k < 64
  {
    seq(32, i requires 0 <= i < 32 => i / 4 == t && Bit(Sbox(t, k), 3 - i % 4))
  }

  /** The S box index that init_des forms from the six bits j of an expanded byte. */
  function BoxIndex(j: nat): (k: nat)
    ensures k < 64
  {
    32 * Weight(Bit(j, 0), 1) + Weight(Bit(j, 1), 8) + Weight(Bit(j, 2), 4) +
    Weight(Bit(j, 3), 2) + Weight(Bit(j, 4), 1) + 16 * Weight(Bit(j, 5), 1)
  }

  /** The two words of SPE for box t and six-bit value j. */
  function SpeBlock(t: nat, j: nat): Block
    requires t < 8 && j < 64
  {
    Expanded(Transpose(BoxOnly(t, BoxIndex(j))))
  }

  ghost predicate IsSpe(spe: seq<Word>) {
    |spe| == 1024 &&
    forall t: nat, j: nat | t < 8 && j < 64 ::
      spe[64 * t + j] == SpeBlock(t, j)[..32] && spe[512 + 64 * t + j] == SpeBlock(t, j)[32..]
  }

  // ----- one round -----

  /** The S box outputs of the first n boxes only. */
  function SubstituteUpTo(b: Code, n: nat): Half
    requires n <= 8
  {
    seq(32, i requires 0 <= i < 32 => i / 4 < n && Bit(Sbox(i / 4, SboxIndex(b, i / 4)), 3 - i % 4))
  }

  lemma {:induction false} AddBox(b: Code, n: nat)
    requires n < 8
    ensures Xor(SubstituteUpTo(b, n), BoxOnly(n, SboxIndex(b, n))) == SubstituteUpTo(b, n + 1)
  {
    hide Sbox, Bit, SboxIndex;
  }

  lemma {:induction false} AllBoxes(b: Code)
    ensures SubstituteUpTo(b, 8) == Substitute(b)
  {
    hide Sbox, Bit, SboxIndex;
  }

  lemma {:induction false} TransposeXor(a: Half, b: Half)
    ensures Transpose(Xor(a, b)) == Xor(Transpose(a), Transpose(b))
  {
    hide P32Tr;
  }

  lemma {:induction false} ExpandedXor(a: Half, b: Half)
    ensures Expanded(Xor(a, b)) == Xor(Expanded(a), Expanded(b))
  {
    hide ExpandTr;
  }

  lemma {:induction false} XorAssociates(a: seq<bool>, b: seq<bool>, c: seq<bool>)
    requires |a| == |b| == |c|
    ensures Xor(Xor(a, b), c) == Xor(a, Xor(b, c))
  {
  }

  /** The number with the given six bits. */
  function Six(b0: bool, b1: bool, b2: bool, b3: bool, b4: bool, b5: bool): (v: nat)
    ensures v < 64
  {
    Append(b0, Append(b1, Append(b2, Append(b3, Append(b4, Append(b5, 0))))))
  }

  lemma {:induction false} SixBit(b0: bool, b1: bool, b2: bool, b3: bool, b4: bool, b5: bool)
    ensures var v := Six(b0, b1, b2, b3, b4, b5);
            Bit(v, 0) == b0 && Bit(v, 1) == b1 && Bit(v, 2) == b2 &&
            Bit(v, 3) == b3 && Bit(v, 4) == b4 && Bit(v, 5) == b5
  {
  }

  lemma {:induction false} SpreadBits(b: Code, t: nat, c: nat)
    requires t < 8 && c < 8
    ensures Spread(b)[8 * t + c] == (c >= 2 && b[6 * t + c - 2])
  {
    assert (8 * t + c) / 8 == t && (8 * t + c) % 8 == c;
  }

  lemma {:induction false} ByteOfSix(x: seq<bool>, t: nat)
    requires 8 * t + 8 <= |x| && !x[8 * t] && !x[8 * t + 1]
    ensures Byte(x, t) == 4 * Six(x[8 * t + 2], x[8 * t + 3], x[8 * t + 4], x[8 * t + 5], x[8 * t + 6], x[8 * t + 7])
  {
    hide Append, Bit;
  }

  lemma {:induction false} SpreadByte(b: Code, t: nat)
    requires t < 8
    ensures Byte(Spread(b), t)
         == 4 * Six(b[6 * t], b[6 * t + 1], b[6 * t + 2], b[6 * t + 3], b[6 * t + 4], b[6 * t + 5])
  {
    hide Spread, Byte, Six;
    SpreadBits(b, t, 0);
    SpreadBits(b, t, 1);
    SpreadBits(b, t, 2);
    SpreadBits(b, t, 3);
    SpreadBits(b, t, 4);
    SpreadBits(b, t, 5);
    SpreadBits(b, t, 6);
    SpreadBits(b, t, 7);
    ByteOfSix(Spread(b), t);
  }

  /** A byte of a spread code is a multiple of four, and its quotient selects the S box entry of the code. */
  lemma {:induction false} SpreadIndex(b: Code, t: nat)
    requires t < 8
    ensures Byte(Spread(b), t) % 4 == 0
    ensures Byte(Spread(b), t) / 4 < 64
    ensures BoxIndex(Byte(Spread(b), t) / 4) == SboxIndex(b, t)
  {
    hide Spread, Byte, Six, Bit;
    SpreadByte(b, t);
    SixBit(b[6 * t], b[6 * t + 1], b[6 * t + 2], b[6 * t + 3], b[6 * t + 4], b[6 * t + 5]);
  }

  /** The salt as the cipher holds it. */
  function SaltWord(salt: CodeSalt): Word {
    seq(32, k requires 0 <= k < 32 => k % 8 >= 2 && salt[6 * (k / 8) + k % 8 - 2])
  }

  lemma {:induction false} SaltedInputBit(q: Block, r: Half, key: Code, salt: CodeSalt, k: nat)
    requires q == Expanded(r) && k < 32
    ensures var e, swap := Spread(Xor(Salted(Expand(r), salt), key)), (q[k] != q[k + 32]) && SaltWord(salt)[k];
            (((swap != q[k]) != Spread(key)[k]) == e[k]) &&
            (((swap != q[k + 32]) != Spread(key)[k + 32]) == e[k + 32])
  {
    hide ExpandTr;
    var i := 6 * (k / 8) + k % 8 - 2;
    assert (k + 32) / 8 == k / 8 + 4 && (k + 32) % 8 == k % 8;
    if k % 8 >= 2 {
      assert 0 <= i < 24 && 6 * ((k + 32) / 8) + (k + 32) % 8 - 2 == i + 24;
    }
  }

  /** The word operations on q, the salt and the key form the spread S box input. */
  lemma {:induction false} SaltedInput(q0: Word, q1: Word, kp: Block, r: Half, key: Code, salt: CodeSalt)
    requires q0 + q1 == Expanded(r) && kp == Spread(key)
    ensures var k := And(Xor(q0, q1), SaltWord(salt));
            var b := Xor(Xor(k, q0), kp[..32]) + Xor(Xor(k, q1), kp[32..]);
            b == Spread(Xor(Salted(Expand(r), salt), key))
  {
    hide Expanded, Spread, SaltWord;
    var sw := SaltWord(salt);
    var k := And(Xor(q0, q1), sw);
    var e := Spread(Xor(Salted(Expand(r), salt), key));
    var q := q0 + q1;
    forall i | 0 <= i < 32
      ensures Xor(Xor(k, q0), kp[..32])[i] == e[i]
      ensures Xor(Xor(k, q1), kp[32..])[i] == e[i + 32]
    {
      SaltedInputBit(q, r, key, salt, i);
      assert q[i] == q0[i] && q[i + 32] == q1[i];
    }
    assert Xor(Xor(k, q0), kp[..32]) == e[..32];
    assert Xor(Xor(k, q1), kp[32..]) == e[32..];
  }

  lemma {:induction false} NoBoxes(l: Half, b: Code)
    ensures Xor(l, Transpose(SubstituteUpTo(b, 0))) == l
  {
    hide P32Tr, Sbox, Bit, SboxIndex;
  }

  lemma {:induction false} XorHalves(a0: Word, a1: Word, b: Block)
    ensures Xor(a0, b[..32]) + Xor(a1, b[32..]) == Xor(a0 + a1, b)
  {
  }

  /** Adding the SPE entry for box n is adding its S box output before P and E. */
  lemma {:induction false} OneBox(l: Half, b: Code, n: nat, j: nat)
    requires n < 8 && j < 64 && BoxIndex(j) == SboxIndex(b, n)
    ensures Xor(Expanded(Xor(l, Transpose(SubstituteUpTo(b, n)))), SpeBlock(n, j))
         == Expanded(Xor(l, Transpose(SubstituteUpTo(b, n + 1))))
  {
    hide Expanded, Transpose, SubstituteUpTo, BoxOnly, BoxIndex, SboxIndex, Xor;
    var s, x := SubstituteUpTo(b, n), BoxOnly(n, SboxIndex(b, n));
    AddBox(b, n);
    TransposeXor(s, x);
    XorAssociates(l, Transpose(s), Transpose(x));
    ExpandedXor(Xor(l, Transpose(s)), Transpose(x));
  }

  /** CRUNCH: p ^= E(P(S(salted q ^ key))) by table lookup, everything in expanded form. */
  method Crunch(p0: Word, p1: Word, q0: Word, q1: Word, kp: Block, saltWord: Word, spe: seq<Word>,
                ghost l: Half, ghost r: Half, ghost key: Code, ghost salt: CodeSalt)
    returns (n0: Word, n1: Word)
    requires IsSpe(spe)
    requires p0 + p1 == Expanded(l) && q0 + q1 == Expanded(r) && kp == Spread(key)
    requires saltWord == SaltWord(salt)
    ensures n0 + n1 == Expanded(Xor(l, CipherFunction(r, key, salt)))
  {
    hide Expanded, Spread, Substitute, SubstituteUpTo, Transpose, BoxIndex, SboxIndex, SpeBlock, SaltWord, Xor, And,
         Byte;
    var k := And(Xor(q0, q1), saltWord);
    var b: Block := Xor(Xor(k, q0), kp[..32]) + Xor(Xor(k, q1), kp[32..]);
    ghost var code := Xor(Salted(Expand(r), salt), key);
    SaltedInput(q0, q1, kp, r, key, salt);
    NoBoxes(l, code);
    n0, n1 := p0, p1;
    var i := 0;
    while i < 8
      invariant 0 <= i <= 8
      invariant n0 + n1 == Expanded(Xor(l, Transpose(SubstituteUpTo(code, i))))
    {
      var byte := Byte(b, i);
      SpreadIndex(code, i);
      assert byte % 4 == 0;
      var j := byte / 4;
      XorHalves(n0, n1, SpeBlock(i, j));
      OneBox(l, code, i, j);
      n0 := Xor(n0, spe[64 * i + j]);
      n1 := Xor(n1, spe[512 + 64 * i + j]);
      i := i + 1;
    }
    AllBoxes(code);
  }

  // ----- building the fused table -----

  /** The long assembled bit by bit from tmp32 through the fused P and E table, for word h. */
  function SpeLong(x: Half, h: nat): Long
    requires h < 2
  {
    seq(64, b requires 0 <= b < 64 => b < 24 && x[P32Tr(ExpandTr(24 * h + b) - 1) - 1])
  }

  lemma {:induction false} SpeWord(x: Half, h: nat)
    requires h < 2
    ensures ToSixBit(SpeLong(x, h)) == if h == 0 then Expanded(Transpose(x))[..32] else Expanded(Transpose(x))[32..]
  {
    hide P32Tr, ExpandTr, ToSixBit;
    var e := Expanded(Transpose(x));
    forall k | 0 <= k < 32
      ensures ToSixBit(SpeLong(x, h))[k] == e[32 * h + k]
    {
      SixBits(SpeLong(x, h), k);
      assert (32 * h + k) / 8 == 4 * h + k / 8 && (32 * h + k) % 8 == k % 8;
    }
  }

  /** One entry pair of SPE, as init_des computes it. */
  method BuildSpeEntry(tableno: nat, j: nat) returns (s0: Word, s1: Word)
    requires tableno < 8 && j < 64
    ensures s0 == SpeBlock(tableno, j)[..32] && s1 == SpeBlock(tableno, j)[32..]
  {
    hide Sbox, Bit, P32Tr, ExpandTr, Expanded, Transpose, ToSixBit, Append, SpeLong, BoxIndex;
    var k := BoxIndex(j);
    var v := Sbox(tableno, k);
    v := Append(Bit(v, 3), Append(Bit(v, 2), Append(Bit(v, 1), Append(Bit(v, 0), 0))));
    ghost var x := BoxOnly(tableno, k);
    var tmp32: Half := Zeros(32);
    var i := 0;
    while i < 4
      invariant 0 <= i <= 4
      invariant forall e | 0 <= e < 32 :: tmp32[e] == (4 * tableno <= e < 4 * tableno + i && x[e])
    {
      tmp32 := tmp32[4 * tableno + i := Bit(v, i)];
      i := i + 1;
    }
    assert tmp32 == x;
    var l0 := BuildSpeLong(tmp32, 0);
    var l1 := BuildSpeLong(tmp32, 1);
    SpeWord(x, 0);
    SpeWord(x, 1);
    s0 := ToSixBit(l0);
    s1 := ToSixBit(l1);
  }

  // The loops that assemble a long from the top bit down.
  method BuildSpeLong(tmp32: Half, h: nat) returns (k: Long)
    requires h < 2
    ensures k == SpeLong(tmp32, h)
  {
    hide P32Tr, ExpandTr;
    k := Zeros(64);
    var i := 24;
    while i > 0
      invariant 0 <= i <= 24
      invariant forall b | 0 <= b < 64 :: k[b] == (b < 24 - i && SpeLong(tmp32, h)[i + b])
    {
      i := i - 1;
      k := Shl(k, 1)[0 := tmp32[P32Tr(ExpandTr(24 * h + i) - 1) - 1]];
    }
  }

  method BuildSpe() returns (spe: seq<Word>)
    ensures IsSpe(spe)
  {
    hide SpeBlock;
    var a := new Word[1024](_ => Zeros(32));
    var t := 0;
    while t < 8
      invariant 0 <= t <= 8
      invariant forall u: nat, v: nat | u < t && v < 64 ::
        a[64 * u + v] == SpeBlock(u, v)[..32] && a[512 + 64 * u + v] == SpeBlock(u, v)[32..]
    {
      var j := 0;
      while j < 64
        invariant 0 <= j <= 64
        invariant forall u: nat, v: nat | u < 8 && v < 64 && 64 * u + v < 64 * t + j ::
          a[64 * u + v] == SpeBlock(u, v)[..32] && a[512 + 64 * u + v] == SpeBlock(u, v)[32..]
      {
        var s0, s1 := BuildSpeEntry(t, j);
        a[64 * t + j], a[512 + 64 * t + j] := s0, s1;
        j := j + 1;
      }
      t := t + 1;
    }
    spe := a[..];
  }
}
