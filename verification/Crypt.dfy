/**
 The DES routines of crypt.c over their static state: the run-time tables, the key schedule KS,
 and the two "already done" flags.
 */
module Crypt {
  import opened DesBits
  import opened DesSpec
  import opened DesKeys
  import opened DesEnds
  import opened DesRound
  import opened PowersOfTwo

  /** The sixteen codes in the order in which the cipher uses them: backwards for a negative count. */
  function OrderedKeys(key: Block, numIter: int): (ks: seq<Code>)
    ensures |ks| == 16
  {
    if numIter >= 0 then KeySchedule(ToStandard(key)) else Reversed(KeySchedule(ToStandard(key)))
  }

  function Abs(n: int): nat {
    if n < 0 then -n else n
  }

  /** What the cipher computes: |numIter| passes of salted DES, on blocks in the byte order of the caller. */
  function CipherResult(key: Block, input: Block, salt: Long, numIter: int): Block {
    ToStandard(EncipherTimes(ToStandard(input), OrderedKeys(key, numIter), salt[..24], Abs(numIter)))
  }

  /** With a zero salt and one iteration the cipher is DES, and with -1 its inverse. */
  lemma {:induction false} PlainDes(key: Block, input: Block)
    ensures ToStandard(CipherResult(key, input, Zeros(64), 1))
         == Encipher(ToStandard(input), KeySchedule(ToStandard(key)), Zeros(24))
    ensures ToStandard(CipherResult(key, input, Zeros(64), -1))
         == Encipher(ToStandard(input), Reversed(KeySchedule(ToStandard(key))), Zeros(24))
  {
    hide Encipher, KeySchedule, ToStandard;
    assert Zeros(64)[..24] == Zeros(24);
    var x := ToStandard(input);
    var ks := OrderedKeys(key, 1);
    assert EncipherTimes(x, ks, Zeros(24), 1) == EncipherTimes(Encipher(x, ks, Zeros(24)), ks, Zeros(24), 0);
    var sk := OrderedKeys(key, -1);
    assert EncipherTimes(x, sk, Zeros(24), 1) == EncipherTimes(Encipher(x, sk, Zeros(24)), sk, Zeros(24), 0);
    ToStandardTwice(Encipher(x, ks, Zeros(24)));
    ToStandardTwice(Encipher(x, sk, Zeros(24)));
  }

  /** Without salt the exchange does nothing: this is the cipher function of the standard. */
  lemma {:induction false} NoSalt(r: Half, key: Code)
    ensures CipherFunction(r, key, Zeros(24)) == Transpose(Substitute(Xor(Expand(r), key)))
  {
    hide Expand, Transpose, Substitute;
    assert Salted(Expand(r), Zeros(24)) == Expand(r);
  }

  /** Running the cipher with n and then with -n gives back the original bytes, for every salt. */
  lemma {:induction false} CipherUndone(key: Block, input: Block, salt: Long, n: int)
    requires n >= 0
    ensures CipherResult(key, CipherResult(key, input, salt, n), salt, -n) == input
  {
    hide EncipherTimes, KeySchedule, ToStandard;
    var ks := KeySchedule(ToStandard(key));
    ToStandardTwice(input);
    ToStandardTwice(EncipherTimes(ToStandard(input), ks, salt[..24], n));
    EncipherTimesUndone(ToStandard(input), ks, salt[..24], n);
    if n == 0 {
      NoPasses(ToStandard(input), ks, salt[..24]);
    }
  }

  lemma {:induction false} NoPasses(x: Block, ks: seq<Code>, salt: CodeSalt)
    ensures EncipherTimes(x, ks, salt, 0) == x
  {
  }

  // ----- the passes without the permutations between them -----

  function CoreTimes(y: Block, keys: seq<Code>, salt: CodeSalt, n: nat): Block
    decreases n
  {
    if n == 0 then y else CoreTimes(Core(y, keys, salt), keys, salt, n - 1)
  }

  /** Between passes the final and the initial permutation cancel, so the cipher leaves both out. */
  lemma {:induction false} PermuteOnce(x: Block, keys: seq<Code>, salt: CodeSalt, n: nat)
    ensures EncipherTimes(x, keys, salt, n) == FinalPermutation(CoreTimes(InitialPermutation(x), keys, salt, n))
    decreases n
  {
    hide InitialPermutation, FinalPermutation, Core;
    if n == 0 {
      PermutationsCancel(x);
    } else {
      var y := Encipher(x, keys, salt);
      PermuteOnce(y, keys, salt, n - 1);
      PermutationsCancel(Core(InitialPermutation(x), keys, salt));
    }
  }

  lemma {:induction false} ReversedAt<T>(s: seq<T>, m: nat)
    requires m < |s|
    ensures Reversed(s)[m] == s[|s| - 1 - m]
    decreases s
  {
    if m < |s| - 1 {
      ReversedAt(s[1..], m);
    }
  }

  lemma {:induction false} SaltWordOf(salt: Long)
    ensures ToSixBit(salt) == SaltWord(salt[..24])
  {
    hide ToSixBit;
    forall k | 0 <= k < 32
      ensures ToSixBit(salt)[k] == SaltWord(salt[..24])[k]
    {
      SixBits(salt, k);
    }
  }

  class Des {
    var desReady: bool
    var setkeyCalled: bool
    var pc1rot: seq<Block>
    var pc2rot: seq<seq<Block>>
    var ie3264: seq<Block>
    var cf6464: seq<Block>
    var spe: seq<Word>
    const ks: array<Block>
    ghost var key: Block  // the key whose schedule is in ks

    ghost predicate TablesReady()
      reads this
    {
      && IsTable(pc1rot, Pc1RotSources(), 16)
      && |pc2rot| == 2
      && IsTable(pc2rot[0], Pc2RotSources(0), 16)
      && IsTable(pc2rot[1], Pc2RotSources(1), 16)
      && IsTable(ie3264, IeSources(), 8)
      && IsTable(cf6464, CfSources(), 16)
      && IsSpe(spe)
    }

    ghost predicate Valid()
      reads this, ks
    {
      && ks.Length == 16
      && (desReady ==> TablesReady())
      && (setkeyCalled ==> desReady && forall i: nat | i < 16 :: ks[i] == Spread(RoundKey(ToStandard(key), i)))
    }

    constructor ()
      ensures Valid() && !desReady && !setkeyCalled && fresh(ks)
    {
      desReady, setkeyCalled := false, false;
      pc1rot, pc2rot, ie3264, cf6464, spe := [], [], [], [], [];
      ks := new Block[16](_ => Zeros(64));
      key := Zeros(64);
    }

    method NewTable(p: seq<nat>, charsIn: nat) returns (t: seq<Block>)
      requires IsSource(p, 8 * charsIn)
      ensures IsTable(t, p, 2 * charsIn)
    {
      var a := new Block[32 * charsIn](_ => Zeros(64));
      InitPerm(a, p, charsIn);
      t := a[..];
    }

    /** init_des: every run-time table, from the constant tables alone. */
    method InitDes()
      modifies this
      ensures TablesReady()
      ensures desReady == old(desReady) && setkeyCalled == old(setkeyCalled) && key == old(key)
    {
      hide Pc1RotSources, Pc2RotSources, IeSources, CfSources, IsSpe;
      var perm := BuildPc1RotSources();
      pc1rot := NewTable(perm, 8);
      perm := BuildPc2RotSources(0);
      var once := NewTable(perm, 8);
      perm := BuildPc2RotSources(1);
      var twice := NewTable(perm, 8);
      pc2rot := [once, twice];
      perm := BuildIeSources();
      ie3264 := NewTable(perm, 4);
      perm := BuildCfSources();
      cf6464 := NewTable(perm, 8);
      spe := BuildSpe();
    }

    /** __crypt_des_setkey: afterwards KS holds the direct schedule of the standard for the new key. */
    method SetSchedule(k: Block)
      requires Valid()
      modifies this, ks
      ensures Valid() && desReady && setkeyCalled && key == k
    {
      hide Pc1RotSources, Pc2RotSources, IeSources, CfSources, IsSpe, IsTable, Spread, RoundKey, ToStandard;
      if !desReady {
        InitDes();
        desReady := true;
      }
      FillSchedule(k, pc1rot, pc2rot, ks);
      setkeyCalled := true;
      key := k;
    }

    /** __crypt_des_cipher: num_iter passes, or the inverse of -num_iter passes when it is negative. */
    method Cipher(input: Block, salt: Long, numIter: int) returns (out: Block)
      requires Valid() && setkeyCalled
      ensures out == CipherResult(key, input, salt, numIter)
    {
      hide IeSources, CfSources, IsSpe, IsTable, Spread, RoundKey, Permuted, ToStandard, Expanded, EvenOdd, Compress,
        InitialPermutation, FinalPermutation, EncipherTimes, CoreTimes, Core, ToSixBit;
      var saltWord := ToSixBit(salt);
      SaltWordOf(salt);
      var eo := EvenOdd(input[..32], input[32..]);
      var left := Permute(eo.0, ie3264, IeSources(), 4);
      var right := Permute(eo.1, ie3264, IeSources(), 4);
      InputMeaning(input);
      ghost var y := InitialPermutation(ToStandard(input));
      ghost var keys := OrderedKeys(key, numIter);
      left, right := Passes(left, right, saltWord, numIter, y, salt[..24]);
      ghost var z := CoreTimes(y, keys, salt[..24], Abs(numIter));
      OutputMeaning(z[..32], z[32..]);
      assert z[..32] + z[32..] == z;
      out := Permute(Compress(left[..32], left[32..]) + Compress(right[..32], right[32..]), cf6464, CfSources(), 8);
      PermuteOnce(ToStandard(input), keys, salt[..24], Abs(numIter));
    }

    // The main loop, with the halves in expanded form throughout.
    method Passes(left: Block, right: Block, saltWord: Word, numIter: int, ghost y: Block, ghost salt: CodeSalt)
      returns (l: Block, r: Block)
      requires Valid() && setkeyCalled
      requires left == Expanded(y[..32]) && right == Expanded(y[32..]) && saltWord == SaltWord(salt)
      ensures var z := CoreTimes(y, OrderedKeys(key, numIter), salt, Abs(numIter));
              l == Expanded(z[..32]) && r == Expanded(z[32..])
    {
      hide IsSpe, TablesReady, Spread, RoundKey, ToStandard, Expanded, Core, SaltWord, OrderedKeys, Xor;
      l, r := left, right;
      var kp, inc := if numIter >= 0 then 0 else 15, if numIter >= 0 then 1 else -1;
      var n: int := Abs(numIter);
      ghost var x: Block := y;
      while n > 0
        invariant 0 <= n
        invariant kp == if numIter >= 0 then 0 else 15
        invariant l == Expanded(x[..32]) && r == Expanded(x[32..])
        invariant CoreTimes(x, OrderedKeys(key, numIter), salt, n) ==
                  CoreTimes(y, OrderedKeys(key, numIter), salt, Abs(numIter))
      {
        l, r, kp := SixteenRounds(l, r, kp, inc, saltWord, x[..32], x[32..], salt, numIter);
        kp := kp - inc * 16;
        XorSwap(l, r);
        CoreHalves(x, OrderedKeys(key, numIter), salt);
        l := Xor(l, r);
        r := Xor(r, l);
        l := Xor(l, r);
        x := Core(x, OrderedKeys(key, numIter), salt);
        n := n - 1;
      }
    }

    method SixteenRounds(left: Block, right: Block, kp0: int, inc: int, saltWord: Word,
                         ghost x: Half, ghost y: Half, ghost salt: CodeSalt, ghost numIter: int)
      returns (l: Block, r: Block, kp: int)
      requires Valid() && setkeyCalled
      requires kp0 == (if numIter >= 0 then 0 else 15) && inc == (if numIter >= 0 then 1 else -1)
      requires left == Expanded(x) && right == Expanded(y) && saltWord == SaltWord(salt)
      ensures var out := Rounds(x, y, OrderedKeys(key, numIter), salt);
              l == Expanded(out.0) && r == Expanded(out.1)
      ensures kp == kp0 + inc * 16
    {
      hide IsSpe, Spread, RoundKey, ToStandard, Expanded, SaltWord, OrderedKeys, CipherFunction;
      l, r := left, right;
      ghost var keys := OrderedKeys(key, numIter);
      kp := kp0;
      ghost var a: Half, b: Half := x, y;
      var loopCount := 8;
      assert keys[16 - 2 * loopCount..] == keys;
      while loopCount > 0
        invariant 0 <= loopCount <= 8
        invariant kp == kp0 + inc * (16 - 2 * loopCount)
        invariant l == Expanded(a) && r == Expanded(b)
        invariant Rounds(a, b, keys[16 - 2 * loopCount..], salt) == Rounds(x, y, keys, salt)
      {
        ghost var m := 16 - 2 * loopCount;
        KeyAt(key, numIter, m);
        KeyAt(key, numIter, m + 1);
        TwoRounds(a, b, keys, m, salt);
        var l0: Word, l1: Word := Crunch(l[..32], l[32..], r[..32], r[32..], ks[kp], saltWord, spe,
                                         a, b, keys[m], salt);
        l := l0 + l1;
        a := Xor(a, CipherFunction(b, keys[m], salt));
        var r0: Word, r1: Word := Crunch(r[..32], r[32..], l[..32], l[32..], ks[kp + inc], saltWord, spe,
                                         b, a, keys[m + 1], salt);
        r := r0 + r1;
        b := Xor(b, CipherFunction(a, keys[m + 1], salt));
        kp := kp + 2 * inc;
        loopCount := loopCount - 1;
      }
      assert keys[16..] == [];
    }

    /** setkey: the key given as 64 entries, one for each bit in the order of the standard. */
    method SetKey(bits: array<nat>)
      requires Valid() && IsCharArray(bits[..])
      modifies this, ks
      ensures Valid() && setkeyCalled && ToStandard(key) == BitsOf(bits[..])
    {
      hide TablesReady, Spread, RoundKey, ToStandard;
      var keyblock := Pack(bits[..]);
      SetSchedule(keyblock);
    }

    /** encrypt: one pass of DES on 64 entries, replaced in place by 0 or 1 each; flag selects the inverse. */
    method Encrypt(block: array<nat>, flag: bool)
      requires Valid() && IsCharArray(block[..])
      modifies block, this, ks
      ensures Valid() && setkeyCalled && (old(setkeyCalled) ==> key == old(key))
      ensures !old(setkeyCalled) ==> key == Zeros(64)
      ensures IsBitArray(block[..])
      ensures BitsOf(block[..]) == DesBlock(key, BitsOf(old(block[..])), flag)
    {
      hide TablesReady, Spread, RoundKey, ToStandard, CipherResult, DesBlock;
      if !setkeyCalled {
        SetSchedule(Zeros(64));
      }
      var cblock := Pack(block[..]);
      ghost var was := BitsOf(block[..]);
      var rslt := Cipher(cblock, Zeros(64), if flag then -1 else 1);
      DesBlockIs(key, cblock, flag);
      Unpack(rslt, block);
    }

    /** encrypt(block, 0) followed by encrypt(block, 1) restores the array exactly if its entries were 0 and 1. */
    method EncryptAndRestore(block: array<nat>)
      requires Valid() && IsCharArray(block[..])
      modifies block, this, ks
      ensures IsBitArray(block[..]) && BitsOf(block[..]) == BitsOf(old(block[..]))
      ensures block[..] == old(block[..]) <==> IsBitArray(old(block[..]))
    {
      hide TablesReady, Spread, RoundKey, ToStandard, DesBlock, BitsOf, IsBitArray, IsCharArray;
      ghost var was := block[..];
      CharLength(was);
      Encrypt(block, false);
      BitsAreChars(block[..]);
      Encrypt(block, true);
      DesBlockUndone(key, BitsOf(was));
      if IsBitArray(was) {
        SameBits(block[..], was);
      }
    }
  }

  /** 64 entries, each an unsigned char. */
  ghost predicate IsCharArray(a: seq<nat>) {
    |a| == 64 && forall i | 0 <= i < 64 :: a[i] < 256
  }

  ghost predicate IsBitArray(a: seq<nat>) {
    |a| == 64 && forall i | 0 <= i < 64 :: a[i] <= 1
  }

  lemma {:induction false} CharLength(a: seq<nat>)
    requires IsCharArray(a)
    ensures |a| == 64
  {
  }

  lemma {:induction false} BitsAreChars(a: seq<nat>)
    requires IsBitArray(a)
    ensures IsCharArray(a)
  {
  }

  /** Bit t of an entry that was shifted to place b when j entries from `lo` on had been gathered. */
  predicate Shifted(a: seq<nat>, lo: nat, j: nat, b: nat, t: nat)
    requires lo + j <= |a|
  {
    t <= b < j + t && Bit(a[lo + j - 1 - b + t], t)
  }

  /** Bit b of the number that the first j entries from `lo` on make up. */
  predicate Gathered(a: seq<nat>, lo: nat, j: nat, b: nat)
    requires lo + j <= |a|
  {
    exists t: nat | t <= b :: Shifted(a, lo, j, b, t)
  }

  /**
   The bits of a block given by 64 entries: an entry's lowest bit, or bit t of the t-th entry after it in
   its group of eight.
   */
  function BitsOf(a: seq<nat>): Block
    requires |a| == 64
  {
    seq(64, n requires 0 <= n < 64 => Gathered(a, 8 * (n / 8), 8, 7 - n % 8))
  }

  lemma {:induction false} SmallBits(v: nat, t: nat)
    requires v <= 1
    ensures Bit(v, t) <==> t == 0 && v == 1
    decreases t
  {
    if t > 0 {
      SmallBits(0, t - 1);
    }
  }

  /** With entries of 0 and 1 that is the entry itself. */
  lemma {:induction false} BitsOfBits(a: seq<nat>, n: nat)
    requires IsBitArray(a) && n < 64
    ensures BitsOf(a)[n] == (a[n] == 1)
  {
    hide Bit;
    var lo, b := 8 * (n / 8), 7 - n % 8;
    assert lo + 7 - b == n;
    forall t: nat | t <= b ensures Shifted(a, lo, 8, b, t) <==> t == 0 && a[n] == 1 {
      SmallBits(a[n + t], t);
    }
    assert Shifted(a, lo, 8, b, 0) <==> a[n] == 1;
  }

  lemma {:induction false} SameBits(a: seq<nat>, b: seq<nat>)
    requires IsBitArray(a) && IsBitArray(b) && BitsOf(a) == BitsOf(b)
    ensures a == b
  {
    hide BitsOf;
    forall i: nat | i < 64
      ensures a[i] == b[i]
    {
      BitsOfBits(a, i);
      BitsOfBits(b, i);
    }
  }

  /** DES of the standard on a block in the order of the standard; flag selects deciphering. */
  function DesBlock(key: Block, x: Block, flag: bool): Block {
    Encipher(x, OrderedKeys(key, if flag then -1 else 1), Zeros(24))
  }

  lemma {:induction false} DesBlockIs(key: Block, cblock: Block, flag: bool)
    ensures ToStandard(CipherResult(key, cblock, Zeros(64), if flag then -1 else 1))
         == DesBlock(key, ToStandard(cblock), flag)
  {
    hide Encipher, KeySchedule, ToStandard, CipherResult;
    PlainDes(key, cblock);
  }

  lemma {:induction false} DesBlockUndone(key: Block, x: Block)
    ensures DesBlock(key, DesBlock(key, x, false), true) == x
  {
    hide Encipher, KeySchedule, ToStandard;
    EncipherUndone(x, KeySchedule(ToStandard(key)), Zeros(24));
  }

  /** A block given by its eight bytes. */
  function OfBytes(bytes: seq<nat>): Block
    requires |bytes| == 8
  {
    seq(64, p requires 0 <= p < 64 => Bit(bytes[p / 8], p % 8))
  }

  lemma {:induction false} OfBytesStandard(bytes: seq<nat>, n: nat)
    requires |bytes| == 8 && n < 64
    ensures ToStandard(OfBytes(bytes))[n] == Bit(bytes[n / 8], 7 - n % 8)
  {
    hide Mirror, Bit;
    MirrorAt(n / 8, n % 8);
  }

  /** k | e on numbers. */
  function Or(k: nat, e: nat): nat
    decreases k + e
  {
    if k == 0 && e == 0 then 0 else Append(k % 2 == 1 || e % 2 == 1, Or(k / 2, e / 2))
  }

  lemma {:induction false} OrBit(k: nat, e: nat, b: nat)
    ensures Bit(Or(k, e), b) == (Bit(k, b) || Bit(e, b))
    decreases b
  {
    if b > 0 {
      OrBit(k / 2, e / 2, b - 1);
    }
  }

  lemma {:induction false} Halved(v: nat, q: nat)
    requires q > 0
    ensures v % (2 * q) == v % 2 + 2 * (v / 2 % q)
  {
    var (h, m) := (v / 2 / q, v / 2 % q);
    assert v == 2 * (h * q + m) + v % 2;
    RemainderIs(v, 2 * q, h, v % 2 + 2 * m);
  }

  lemma {:induction false} RemainderIs(v: nat, d: nat, h: nat, r: nat)
    requires v == h * d + r && r < d
    ensures v % d == r
  {
    var g := v / d;
    if g > h {
      MulMonotone(h + 1, g, d);
    } else if g < h {
      MulMonotone(g + 1, h, d);
    }
  }

  lemma {:induction false} MulMonotone(a: nat, b: nat, c: nat)
    requires a <= b
    ensures a * c <= b * c
  {
  }

  /** Storing a number in an unsigned char keeps its low eight bits. */
  lemma {:induction false} LowBitsKept(v: nat, n: nat, b: nat)
    requires b < n
    ensures Bit(v % Pow2(n), b) == Bit(v, b)
    decreases n
  {
    var q := Pow2(n - 1);
    Halved(v, q);
    var r := v % 2 + 2 * (v / 2 % q);
    assert r % 2 == v % 2 && r / 2 == v / 2 % q;
    if b > 0 {
      LowBitsKept(v / 2, n - 1, b - 1);
    }
  }

  ghost predicate PackedByte(k: nat, bits: seq<nat>, i: nat)
    requires |bits| == 64 && i < 8
  {
    forall m: nat | m < 8 :: Bit(k, m) == Gathered(bits, 8 * i, 8, m)
  }

  /** The loops of setkey and encrypt that gather each eight entries into a byte, high bit first. */
  method Pack(bits: seq<nat>) returns (b: Block)
    requires IsCharArray(bits)
    ensures ToStandard(b) == BitsOf(bits)
  {
    hide Bit, ToStandard, OfBytes, Gathered;
    var bytes := new nat[8](_ => 0);
    var i := 0;
    while i < 8
      invariant 0 <= i <= 8
      invariant forall t: nat | t < i :: PackedByte(bytes[t], bits, t)
    {
      bytes[i] := PackByte(bits, i);
      i := i + 1;
    }
    b := OfBytes(bytes[..]);
    forall n: nat | n < 64
      ensures ToStandard(b)[n] == BitsOf(bits)[n]
    {
      OfBytesStandard(bytes[..], n);
      assert PackedByte(bytes[n / 8], bits, n / 8);
    }
  }

  method PackByte(bits: seq<nat>, i: nat) returns (k: nat)
    requires IsCharArray(bits) && i < 8
    ensures k < 256 && PackedByte(k, bits, i)
  {
    hide Bit, Append, Or, Gathered;
    k := 0;
    NothingGathered(bits, 8 * i);
    var j := 0;
    while j < 8
      invariant 0 <= j <= 8
      invariant forall b: nat :: Bit(k, b) == Gathered(bits, 8 * i, j, b)
    {
      ghost var was := k;
      k := Or(Append(false, k), bits[8 * i + j]);
      forall b: nat ensures Bit(k, b) == Gathered(bits, 8 * i, j + 1, b) {
        OrBit(Append(false, was), bits[8 * i + j], b);
        GatheredNext(bits, 8 * i, j, b);
      }
      j := j + 1;
    }
    forall m: nat | m < 8 ensures Bit(k % 256, m) == Bit(k, m) {
      assert Pow2(8) == 256;
      LowBitsKept(k, 8, m);
    }
    k := k % 256;
  }

  lemma {:induction false} NothingGathered(a: seq<nat>, lo: nat)
    requires lo <= |a|
    ensures forall b: nat :: !Bit(0, b) && !Gathered(a, lo, 0, b)
  {
    hide Bit;
    forall b: nat ensures !Bit(0, b) && !Gathered(a, lo, 0, b) {
      SmallBits(0, b);
    }
  }

  lemma {:induction false} GatheredNext(a: seq<nat>, lo: nat, j: nat, b: nat)
    requires lo + j + 1 <= |a|
    ensures Gathered(a, lo, j + 1, b) <==> (b > 0 && Gathered(a, lo, j, b - 1)) || Bit(a[lo + j], b)
  {
    hide Bit;
    var k := j + 1;
    assert Shifted(a, lo, k, b, b) <==> Bit(a[lo + j], b);
    if b > 0 && Gathered(a, lo, j, b - 1) {
      var t: nat :| t <= b - 1 && Shifted(a, lo, j, b - 1, t);
      assert Shifted(a, lo, k, b, t);
    }
    if Gathered(a, lo, k, b) && !Bit(a[lo + j], b) {
      var t: nat :| t <= b && Shifted(a, lo, k, b, t);
      assert t < b && Shifted(a, lo, j, b - 1, t);
    }
  }

  /** The loops of encrypt that write the bytes back, last bit first. */
  method Unpack(b: Block, block: array<nat>)
    requires block.Length == 64
    modifies block
    ensures IsBitArray(block[..]) && BitsOf(block[..]) == ToStandard(b)
  {
    hide Byte, Mirror, Bit, BitsOf;
    var i := 8;
    while i > 0
      invariant 0 <= i <= 8
      invariant forall n: nat | 8 * i <= n < 64 :: block[n] == if b[Mirror(n)] then 1 else 0
    {
      i := i - 1;
      UnpackByte(Byte(b, i), block, i);
      forall n: nat | 8 * i <= n < 8 * i + 8
        ensures block[n] == if b[Mirror(n)] then 1 else 0
      {
        MirrorAt(i, n - 8 * i);
        ByteBit(b, i, 7 - (n - 8 * i));
      }
    }
    forall n: nat | n < 64 ensures BitsOf(block[..])[n] == ToStandard(b)[n] {
      BitsOfBits(block[..], n);
    }
  }

  lemma {:induction false} HalfBits(k: nat)
    ensures Bit(k, 0) == (k % 2 == 1)
    ensures forall m: nat :: Bit(k / 2, m) == Bit(k, m + 1)
  {
  }

  method UnpackByte(byte: nat, block: array<nat>, i: nat)
    requires block.Length == 64 && i < 8
    modifies block
    ensures forall n: nat | 8 * i <= n < 8 * i + 8 :: block[n] == if Bit(byte, 7 - (n - 8 * i)) then 1 else 0
    ensures forall n: nat | n < 8 * i || 8 * i + 8 <= n < 64 :: block[n] == old(block[n])
  {
    hide Bit;
    var k := byte;
    var j := 8;
    while j > 0
      invariant 0 <= j <= 8
      invariant forall m: nat :: Bit(k, m) == Bit(byte, m + 8 - j)
      invariant forall n: nat | 8 * i + j <= n < 8 * i + 8 :: block[n] == if Bit(byte, 7 - (n - 8 * i)) then 1 else 0
      invariant forall n: nat | n < 8 * i || 8 * i + 8 <= n < 64 :: block[n] == old(block[n])
    {
      j := j - 1;
      block[8 * i + j] := k % 2;
      HalfBits(k);
      assert Bit(k, 0) == Bit(byte, 7 - j);
      k := k / 2;
    }
  }

  /** Two calls of CRUNCH without an exchange are two rounds of the standard. */
  lemma {:induction false} TwoRounds(l: Half, r: Half, keys: seq<Code>, m: nat, salt: CodeSalt)
    requires m + 2 <= |keys|
    ensures var l' := Xor(l, CipherFunction(r, keys[m], salt));
            var r' := Xor(r, CipherFunction(l', keys[m + 1], salt));
            Rounds(l, r, keys[m..], salt) == Rounds(l', r', keys[m + 2..], salt)
  {
    hide CipherFunction;
    assert keys[m..][1..] == keys[m + 1..] && keys[m + 1..][1..] == keys[m + 2..];
  }

  lemma {:induction false} KeyAt(key: Block, numIter: int, m: nat)
    requires m < 16
    ensures OrderedKeys(key, numIter)[m] == RoundKey(ToStandard(key), if numIter >= 0 then m else 15 - m)
  {
    hide RoundKey, ToStandard;
    ReversedAt(KeySchedule(ToStandard(key)), m);
  }

  lemma {:induction false} CoreHalves(x: Block, keys: seq<Code>, salt: CodeSalt)
    ensures var out := Rounds(x[..32], x[32..], keys, salt);
            Core(x, keys, salt)[..32] == out.1 && Core(x, keys, salt)[32..] == out.0
  {
    hide Rounds;
  }

  lemma {:induction false} XorSwap(l: Block, r: Block)
    ensures var a := Xor(l, r);
            var b := Xor(r, a);
            b == l && Xor(a, b) == r
  {
  }

  /** The schedule loop: each code is permuted into the next, and stored with its low bits cleared. */
  method FillSchedule(k: Block, pc1rot: seq<Block>, pc2rot: seq<seq<Block>>, ks: array<Block>)
    requires IsTable(pc1rot, Pc1RotSources(), 16) && |pc2rot| == 2
    requires IsTable(pc2rot[0], Pc2RotSources(0), 16) && IsTable(pc2rot[1], Pc2RotSources(1), 16)
    requires ks.Length == 16
    modifies ks
    ensures forall i: nat | i < 16 :: ks[i] == Spread(RoundKey(ToStandard(k), i))
  {
    hide Pc1RotSources, Pc2RotSources, IsTable, Spread, RoundKey, Permuted, ToStandard, MaskedStore, FullCode;
    var code := Permute(k, pc1rot, Pc1RotSources(), 8);
    FirstCode(k);
    ks[0] := MaskedStore(code);
    var i := 1;
    while i < 16
      invariant 1 <= i <= 16
      invariant code == FullCode(k, i - 1)
      invariant forall t: nat | t < i :: ks[t] == Spread(RoundKey(ToStandard(k), t))
    {
      ks[i] := code;
      var j := DesTables.ROTATES[i] - 1;
      NextCode(k, i);
      code := Permute(ks[i], pc2rot[j], Pc2RotSources(j), 8);
      ks[i] := MaskedStore(code);
      i := i + 1;
    }
  }

  /** Code i with all 56 key bits, before the low bits are cleared. */
  function FullCode(k: Block, i: nat): Block
    requires i < 16
  {
    Padded(RotatedLeft(PermutedChoice1(ToStandard(k)), TotalRotation(i)))
  }

  lemma {:induction false} FirstCode(k: Block)
    ensures Permuted(Pc1RotSources(), k) == FullCode(k, 0)
    ensures MaskedStore(FullCode(k, 0)) == Spread(RoundKey(ToStandard(k), 0))
  {
    hide Pc1RotSources, Spread, Permuted, ToStandard, MaskedStore, Padded, RotatedLeft, PermutedChoice1,
         PermutedChoice2;
    Pc1RotMeaning(k);
    MaskedStoreMeaning(RotatedLeft(PermutedChoice1(ToStandard(k)), TotalRotation(0)));
  }

  lemma {:induction false} NextCode(k: Block, i: nat)
    requires 1 <= i < 16
    ensures 1 <= DesTables.ROTATES[i] <= 2
    ensures Permuted(Pc2RotSources(DesTables.ROTATES[i] - 1), FullCode(k, i - 1)) == FullCode(k, i)
    ensures MaskedStore(FullCode(k, i)) == Spread(RoundKey(ToStandard(k), i))
  {
    hide Pc2RotSources, Spread, Permuted, ToStandard, MaskedStore, Padded, RotatedLeft, PermutedChoice1,
         PermutedChoice2;
    RotateCount(i);
    var c, n := PermutedChoice1(ToStandard(k)), TotalRotation(i - 1);
    Pc2RotMeaning(RotatedLeft(c, n), DesTables.ROTATES[i] - 1);
    RotationsAdd(c, n, DesTables.ROTATES[i]);
    MaskedStoreMeaning(RotatedLeft(c, TotalRotation(i)));
  }

  lemma {:induction false} RotateCount(i: nat)
    requires i < 16
    ensures 1 <= DesTables.ROTATES[i] <= 2
  {
  }
}
