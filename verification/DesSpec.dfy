/**
 DES as FIPS PUB 46-3 describes it (Enciphering, Deciphering, and the functions of Appendix 1), bit
 by bit, over the tables of crypt.c.  Bits are in the order of the standard: element n-1 is bit n.
 The one addition is the salt of crypt.c, which exchanges bits i and i+24 of the expansion.
 */
module DesSpec {
  import opened DesTables
  import opened DesBits

  type Half = h: seq<bool> | |h| == 32 witness Zeros(32)
  type Code = c: seq<bool> | |c| == 48 witness Zeros(48)
  type CodeSalt = c: seq<bool> | |c| == 24 witness Zeros(24)

  function InitialPermutation(x: Block): Block {
    seq(64, i requires 0 <= i < 64 => x[Ip(i) - 1])
  }

  function FinalPermutation(y: Block): Block {
    seq(64, j requires 0 <= j < 64 => y[IpInverse(j + 1)])
  }

  lemma {:induction false} PermutationsCancel(x: Block)
    ensures FinalPermutation(InitialPermutation(x)) == x
    ensures InitialPermutation(FinalPermutation(x)) == x
  {
    hide Ip, IpInverse;
    forall j | 0 <= j < 64
      ensures FinalPermutation(InitialPermutation(x))[j] == x[j]
      ensures InitialPermutation(FinalPermutation(x))[j] == x[j]
    {
      IpInverseOf(j);
      IpOfInverse(j + 1);
    }
  }

  function Expand(r: Half): Code {
    seq(48, i requires 0 <= i < 48 => r[ExpandTr(i) - 1])
  }

  function Salted(e: Code, salt: CodeSalt): Code {
    seq(48, i requires 0 <= i < 48 => if salt[i % 24] then e[(i + 24) % 48] else e[i])
  }

  /** The index into an S box: row b1 b6, column b2 b3 b4 b5. */
  function SboxIndex(b: Code, t: nat): (k: nat)
    requires t < 8
    ensures k < 64
  {
    32 * Weight(b[6 * t], 1) + 16 * Weight(b[6 * t + 5], 1) +
    Weight(b[6 * t + 1], 8) + Weight(b[6 * t + 2], 4) + Weight(b[6 * t + 3], 2) + Weight(b[6 * t + 4], 1)
  }

  /** The eight selection functions: bit i of group t is the bit of weight 2^(3-i) of the S box entry. */
  function Substitute(b: Code): Half {
    seq(32, i requires 0 <= i < 32 => Bit(Sbox(i / 4, SboxIndex(b, i / 4)), 3 - i % 4))
  }

  function Transpose(x: Half): Half {
    seq(32, i requires 0 <= i < 32 => x[P32Tr(i) - 1])
  }

  /** The cipher function f(R, K). */
  function CipherFunction(r: Half, key: Code, salt: CodeSalt): Half {
    Transpose(Substitute(Xor(Salted(Expand(r), salt), key)))
  }

  /** L' = R, R' = L xor f(R, K) for each key in turn. */
  function Rounds(l: Half, r: Half, keys: seq<Code>, salt: CodeSalt): (out: (Half, Half))
    decreases keys
  {
    if keys == [] then (l, r)
    else Rounds(r, Xor(l, CipherFunction(r, keys[0], salt)), keys[1..], salt)
  }

  /** One pass of the algorithm between the two permutations: the rounds and the final exchange. */
  function Core(x: Block, keys: seq<Code>, salt: CodeSalt): Block {
    var out := Rounds(x[..32], x[32..], keys, salt);
    out.1 + out.0
  }

  function Encipher(x: Block, keys: seq<Code>, salt: CodeSalt): Block {
    FinalPermutation(Core(InitialPermutation(x), keys, salt))
  }

  function EncipherTimes(x: Block, keys: seq<Code>, salt: CodeSalt, n: nat): Block
    decreases n
  {
    if n == 0 then x else EncipherTimes(Encipher(x, keys, salt), keys, salt, n - 1)
  }

  function Reversed<T>(s: seq<T>): (r: seq<T>)
    ensures |r| == |s|
  {
    if s == [] then [] else Reversed(s[1..]) + [s[0]]
  }

  // ----- deciphering undoes enciphering -----

  lemma {:induction false} XorCancels(a: seq<bool>, b: seq<bool>)
    requires |a| == |b|
    ensures Xor(Xor(a, b), b) == a
  {
  }

  lemma {:induction false} RoundsAppend(l: Half, r: Half, keys: seq<Code>, more: seq<Code>, salt: CodeSalt)
    ensures Rounds(l, r, keys + more, salt)
         == var mid := Rounds(l, r, keys, salt); Rounds(mid.0, mid.1, more, salt)
    decreases keys
  {
    if keys == [] {
      assert keys + more == more;
    } else {
      assert (keys + more)[1..] == keys[1..] + more;
      RoundsAppend(r, Xor(l, CipherFunction(r, keys[0], salt)), keys[1..], more, salt);
    }
  }

  /** The Feistel structure: the rounds run on the exchanged halves with the keys in reverse order undo themselves. */
  lemma {:induction false} RoundsUndone(l: Half, r: Half, keys: seq<Code>, salt: CodeSalt)
    ensures var out := Rounds(l, r, keys, salt);
            Rounds(out.1, out.0, Reversed(keys), salt) == (r, l)
    decreases keys
  {
    if keys != [] {
      var r' := Xor(l, CipherFunction(r, keys[0], salt));
      var out := Rounds(r, r', keys[1..], salt);
      RoundsUndone(r, r', keys[1..], salt);
      RoundsAppend(out.1, out.0, Reversed(keys[1..]), [keys[0]], salt);
      XorCancels(l, CipherFunction(r, keys[0], salt));
      assert Rounds(out.1, out.0, Reversed(keys), salt) == Rounds(r', r, [keys[0]], salt);
      assert [keys[0]][1..] == [];
    }
  }

  lemma {:induction false} EncipherUndone(x: Block, keys: seq<Code>, salt: CodeSalt)
    ensures Encipher(Encipher(x, keys, salt), Reversed(keys), salt) == x
  {
    var y := InitialPermutation(x);
    var out := Rounds(y[..32], y[32..], keys, salt);
    RoundsUndone(y[..32], y[32..], keys, salt);
    var z := Core(y, keys, salt);
    assert z[..32] == out.1 && z[32..] == out.0;
    PermutationsCancel(z);
    assert Core(z, Reversed(keys), salt) == y[..32] + y[32..] == y;
    PermutationsCancel(x);
  }

  lemma {:induction false} EncipherTimesLast(x: Block, keys: seq<Code>, salt: CodeSalt, n: nat)
    ensures EncipherTimes(x, keys, salt, n + 1) == Encipher(EncipherTimes(x, keys, salt, n), keys, salt)
    decreases n
  {
    if n > 0 {
      EncipherTimesLast(Encipher(x, keys, salt), keys, salt, n - 1);
    }
  }

  lemma {:induction false} EncipherTimesUndone(x: Block, keys: seq<Code>, salt: CodeSalt, n: nat)
    ensures EncipherTimes(EncipherTimes(x, keys, salt, n), Reversed(keys), salt, n) == x
    decreases n
  {
    if n > 0 {
      EncipherTimesLast(x, keys, salt, n - 1);
      EncipherUndone(EncipherTimes(x, keys, salt, n - 1), keys, salt);
      EncipherTimesUndone(x, keys, salt, n - 1);
    }
  }

  // ----- the key schedule -----

  type KeyBits = c: seq<bool> | |c| == 56 witness Zeros(56)

  function PermutedChoice1(key: Block): KeyBits {
    seq(56, i requires 0 <= i < 56 => key[Pc1(i) - 1])
  }

  /** The bit that a left rotation by n of both 28-bit halves C and D brings to index i. */
  function RotateSource(i: nat, n: nat): (j: nat)
    requires i < 56
    ensures j < 56
  {
    28 * (i / 28) + (i % 28 + n) % 28
  }

  function RotatedLeft(c: KeyBits, n: nat): KeyBits {
    seq(56, i requires 0 <= i < 56 => c[RotateSource(i, n)])
  }

  /** Permuted choice 2: the standard's 48 entries are the file's, without the padding columns. */
  function PermutedChoice2(c: KeyBits): Code {
    seq(48, i requires 0 <= i < 48 => c[Pc2(8 * (i / 6) + i % 6 + 2) - 1])
  }

  /** How far C and D have been rotated in all when code i is taken. */
  function TotalRotation(i: nat): nat
    requires i < 16
  {
    if i == 0 then ROTATES[0] else TotalRotation(i - 1) + ROTATES[i]
  }

  /** Each round rotates by two places, but rounds 1, 2, 9 and 16 by one; together that is once round. */
  lemma {:induction false} RotationsClosed(i: nat)
    requires i < 16
    ensures TotalRotation(i) == (if i == 0 then 1 else if i < 8 then 2 * i else if i < 15 then 2 * i - 1 else 28)
    decreases i
  {
    if i > 0 {
      RotationsClosed(i - 1);
    }
  }

  function RoundKey(key: Block, i: nat): Code
    requires i < 16
  {
    PermutedChoice2(RotatedLeft(PermutedChoice1(key), TotalRotation(i)))
  }

  function KeySchedule(key: Block): (ks: seq<Code>) {
    seq(16, i requires 0 <= i < 16 => RoundKey(key, i))
  }

  lemma {:induction false} RotateTwice(i: nat, m: nat, n: nat)
    requires i < 56
    ensures RotateSource(RotateSource(i, n), m) == RotateSource(i, m + n)
  {
    var a, q := i % 28, (i % 28 + n) / 28;
    var j := RotateSource(i, n);
    assert j / 28 == i / 28 && j % 28 == (a + n) % 28;
    assert (a + n) % 28 + m == a + n + m - 28 * q;
    ModDrop(a + n + m, q);
  }

  lemma {:induction false} ModDrop(x: nat, q: nat)
    requires 28 * q <= x
    ensures (x - 28 * q) % 28 == x % 28
  {
  }

  lemma {:induction false} RotationsAdd(c: KeyBits, m: nat, n: nat)
    ensures RotatedLeft(RotatedLeft(c, m), n) == RotatedLeft(c, m + n)
  {
    hide RotateSource;
    forall i | 0 <= i < 56
      ensures RotatedLeft(RotatedLeft(c, m), n)[i] == RotatedLeft(c, m + n)[i]
    {
      RotateTwice(i, m, n);
    }
  }
}
