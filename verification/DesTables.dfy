/**
 The tables of Libc/gen/crypt.c (the standard DES tables of FIPS PUB 46-3, Appendix 1, with PC2
 padded so that it can be inverted), kept in the row layout in which the file prints them.
 Bit numbers in the tables start at 1; a zero entry of PC2 selects no bit.
 */
module DesTables {

  const IP: seq<seq<nat>> := [
    [58, 50, 42, 34, 26, 18, 10,  2],
    [60, 52, 44, 36, 28, 20, 12,  4],
    [62, 54, 46, 38, 30, 22, 14,  6],
    [64, 56, 48, 40, 32, 24, 16,  8],
    [57, 49, 41, 33, 25, 17,  9,  1],
    [59, 51, 43, 35, 27, 19, 11,  3],
    [61, 53, 45, 37, 29, 21, 13,  5],
    [63, 55, 47, 39, 31, 23, 15,  7]]

  const EXPAND_TR: seq<seq<nat>> := [
    [32,  1,  2,  3,  4,  5],
    [ 4,  5,  6,  7,  8,  9],
    [ 8,  9, 10, 11, 12, 13],
    [12, 13, 14, 15, 16, 17],
    [16, 17, 18, 19, 20, 21],
    [20, 21, 22, 23, 24, 25],
    [24, 25, 26, 27, 28, 29],
    [28, 29, 30, 31, 32,  1]]

  const PC1: seq<seq<nat>> := [
    [57, 49, 41, 33, 25, 17,  9],
    [ 1, 58, 50, 42, 34, 26, 18],
    [10,  2, 59, 51, 43, 35, 27],
    [19, 11,  3, 60, 52, 44, 36],
    [63, 55, 47, 39, 31, 23, 15],
    [ 7, 62, 54, 46, 38, 30, 22],
    [14,  6, 61, 53, 45, 37, 29],
    [21, 13,  5, 28, 20, 12,  4]]

  const ROTATES: seq<nat> := [1, 1, 2, 2, 2, 2, 2, 2, 1, 2, 2, 2, 2, 2, 2, 1]

  const PC2: seq<seq<nat>> := [
    [ 9, 18, 14, 17, 11, 24,  1,  5],
    [22, 25,  3, 28, 15,  6, 21, 10],
    [35, 38, 23, 19, 12,  4, 26,  8],
    [43, 54, 16,  7, 27, 20, 13,  2],
    [ 0,  0, 41, 52, 31, 37, 47, 55],
    [ 0,  0, 30, 40, 51, 45, 33, 48],
    [ 0,  0, 44, 49, 39, 56, 34, 53],
    [ 0,  0, 46, 42, 50, 36, 29, 32]]

  const S: seq<seq<seq<nat>>> := [
    [[14,  4, 13,  1,  2, 15, 11,  8,  3, 10,  6, 12,  5,  9,  0,  7],
     [ 0, 15,  7,  4, 14,  2, 13,  1, 10,  6, 12, 11,  9,  5,  3,  8],
     [ 4,  1, 14,  8, 13,  6,  2, 11, 15, 12,  9,  7,  3, 10,  5,  0],
     [15, 12,  8,  2,  4,  9,  1,  7,  5, 11,  3, 14, 10,  0,  6, 13]],
    [[15,  1,  8, 14,  6, 11,  3,  4,  9,  7,  2, 13, 12,  0,  5, 10],
     [ 3, 13,  4,  7, 15,  2,  8, 14, 12,  0,  1, 10,  6,  9, 11,  5],
     [ 0, 14,  7, 11, 10,  4, 13,  1,  5,  8, 12,  6,  9,  3,  2, 15],
     [13,  8, 10,  1,  3, 15,  4,  2, 11,  6,  7, 12,  0,  5, 14,  9]],
    [[10,  0,  9, 14,  6,  3, 15,  5,  1, 13, 12,  7, 11,  4,  2,  8],
     [13,  7,  0,  9,  3,  4,  6, 10,  2,  8,  5, 14, 12, 11, 15,  1],
     [13,  6,  4,  9,  8, 15,  3,  0, 11,  1,  2, 12,  5, 10, 14,  7],
     [ 1, 10, 13,  0,  6,  9,  8,  7,  4, 15, 14,  3, 11,  5,  2, 12]],
    [[ 7, 13, 14,  3,  0,  6,  9, 10,  1,  2,  8,  5, 11, 12,  4, 15],
     [13,  8, 11,  5,  6, 15,  0,  3,  4,  7,  2, 12,  1, 10, 14,  9],
     [10,  6,  9,  0, 12, 11,  7, 13, 15,  1,  3, 14,  5,  2,  8,  4],
     [ 3, 15,  0,  6, 10,  1, 13,  8,  9,  4,  5, 11, 12,  7,  2, 14]],
    [[ 2, 12,  4,  1,  7, 10, 11,  6,  8,  5,  3, 15, 13,  0, 14,  9],
     [14, 11,  2, 12,  4,  7, 13,  1,  5,  0, 15, 10,  3,  9,  8,  6],
     [ 4,  2,  1, 11, 10, 13,  7,  8, 15,  9, 12,  5,  6,  3,  0, 14],
     [11,  8, 12,  7,  1, 14,  2, 13,  6, 15,  0,  9, 10,  4,  5,  3]],
    [[12,  1, 10, 15,  9,  2,  6,  8,  0, 13,  3,  4, 14,  7,  5, 11],
     [10, 15,  4,  2,  7, 12,  9,  5,  6,  1, 13, 14,  0, 11,  3,  8],
     [ 9, 14, 15,  5,  2,  8, 12,  3,  7,  0,  4, 10,  1, 13, 11,  6],
     [ 4,  3,  2, 12,  9,  5, 15, 10, 11, 14,  1,  7,  6,  0,  8, 13]],
    [[ 4, 11,  2, 14, 15,  0,  8, 13,  3, 12,  9,  7,  5, 10,  6,  1],
     [13,  0, 11,  7,  4,  9,  1, 10, 14,  3,  5, 12,  2, 15,  8,  6],
     [ 1,  4, 11, 13, 12,  3,  7, 14, 10, 15,  6,  8,  0,  5,  9,  2],
     [ 6, 11, 13,  8,  1,  4, 10,  7,  9,  5,  0, 15, 14,  2,  3, 12]],
    [[13,  2,  8,  4,  6, 15, 11,  1, 10,  9,  3, 14,  5,  0, 12,  7],
     [ 1, 15, 13,  8, 10,  3,  7,  4, 12,  5,  6, 11,  0, 14,  9,  2],
     [ 7, 11,  4,  1,  9, 12, 14,  2,  0,  6, 10, 13, 15,  3,  5,  8],
     [ 2,  1, 14,  7,  4, 10,  8, 13, 15, 12,  9,  0,  3,  5,  6, 11]]]

  const P32_TR: seq<seq<nat>> := [
    [16,  7, 20, 21],
    [29, 12, 28, 17],
    [ 1, 15, 23, 26],
    [ 5, 18, 31, 10],
    [ 2,  8, 24, 14],
    [32, 27,  3,  9],
    [19, 13, 30,  6],
    [22, 11,  4, 25]]

  const CIFP: seq<seq<nat>> := [
    [ 1,  2,  3,  4, 17, 18, 19, 20],
    [ 5,  6,  7,  8, 21, 22, 23, 24],
    [ 9, 10, 11, 12, 25, 26, 27, 28],
    [13, 14, 15, 16, 29, 30, 31, 32],
    [33, 34, 35, 36, 49, 50, 51, 52],
    [37, 38, 39, 40, 53, 54, 55, 56],
    [41, 42, 43, 44, 57, 58, 59, 60],
    [45, 46, 47, 48, 61, 62, 63, 64]]

  // Entry i of a table, counted through its rows.  The ranges are what the callers index with.

  function Ip(i: nat): (n: nat)
    requires i < 64
    ensures 1 <= n <= 64
    ensures i < 32 <==> n % 2 == 0
  {
    IP[i / 8][i % 8]
  }

  function ExpandTr(i: nat): (n: nat)
    requires i < 48
    ensures 1 <= n <= 32
  {
    EXPAND_TR[i / 6][i % 6]
  }

  function Pc1(i: nat): (n: nat)
    requires i < 56
    ensures 1 <= n <= 64
  {
    PC1[i / 7][i % 7]
  }

  function Pc2(i: nat): (n: nat)
    requires i < 64
    ensures n <= 56
    ensures n == 0 <==> i >= 32 && i % 8 < 2
  {
    PC2[i / 8][i % 8]
  }

  function P32Tr(i: nat): (n: nat)
    requires i < 32
    ensures 1 <= n <= 32
  {
    P32_TR[i / 4][i % 4]
  }

  function Cifp(i: nat): (n: nat)
    requires i < 64
    ensures 1 <= n <= 64
  {
    CIFP[i / 8][i % 8]
  }

  function Sbox(t: nat, k: nat): (v: nat)
    requires t < 8 && k < 64
  {
    S[t][k / 16][k % 16]
  }

  // The final permutation, for which the file keeps no table: where each bit number sits in IP.
  const IP_INVERSE: seq<seq<nat>> := [
    [39,  7, 47, 15, 55, 23, 63, 31],
    [38,  6, 46, 14, 54, 22, 62, 30],
    [37,  5, 45, 13, 53, 21, 61, 29],
    [36,  4, 44, 12, 52, 20, 60, 28],
    [35,  3, 43, 11, 51, 19, 59, 27],
    [34,  2, 42, 10, 50, 18, 58, 26],
    [33,  1, 41,  9, 49, 17, 57, 25],
    [32,  0, 40,  8, 48, 16, 56, 24]]

  function IpInverse(n: nat): (i: nat)
    requires 1 <= n <= 64
    ensures i < 64
  {
    IP_INVERSE[(n - 1) / 8][(n - 1) % 8]
  }

  lemma {:induction false} IpInverseOf(i: nat)
    requires i < 64
    ensures IpInverse(Ip(i)) == i
  {
    hide Ip, IpInverse;
    if i < 32 { IpInverseOfLow(i); } else { IpInverseOfHigh(i); }
  }

  lemma {:induction false} IpInverseOfLow(i: nat)
    requires i < 32
    ensures IpInverse(Ip(i)) == i
  {
    assert i / 8 == 0 || i / 8 == 1 || i / 8 == 2 || i / 8 == 3;
  }

  lemma {:induction false} IpInverseOfHigh(i: nat)
    requires 32 <= i < 64
    ensures IpInverse(Ip(i)) == i
  {
    assert i / 8 == 4 || i / 8 == 5 || i / 8 == 6 || i / 8 == 7;
  }

  lemma {:induction false} IpOfInverse(n: nat)
    requires 1 <= n <= 64
    ensures Ip(IpInverse(n)) == n
  {
    hide Ip, IpInverse;
    if n <= 32 { IpOfInverseLow(n); } else { IpOfInverseHigh(n); }
  }

  lemma {:induction false} IpOfInverseLow(n: nat)
    requires 1 <= n <= 32
    ensures Ip(IpInverse(n)) == n
  {
    assert (n - 1) / 8 == 0 || (n - 1) / 8 == 1 || (n - 1) / 8 == 2 || (n - 1) / 8 == 3;
  }

  lemma {:induction false} IpOfInverseHigh(n: nat)
    requires 32 < n <= 64
    ensures Ip(IpInverse(n)) == n
  {
    assert (n - 1) / 8 == 4 || (n - 1) / 8 == 5 || (n - 1) / 8 == 6 || (n - 1) / 8 == 7;
  }

  /** The right half of IP picks the odd-numbered neighbour of what the left half picks. */
  lemma {:induction false} IpHalves(i: nat)
    requires i < 32
    ensures Ip(i + 32) == Ip(i) - 1
  {
    assert i / 8 == 0 || i / 8 == 1 || i / 8 == 2 || i / 8 == 3;
  }

  /** The four middle bits of group r of the expansion are bits 4r+1 .. 4r+4, in order. */
  lemma {:induction false} ExpandMiddle(r: nat, c: nat)
    requires r < 8 && c < 4
    ensures ExpandTr(6 * r + 1 + c) == 4 * r + c + 1
  {
  }

  lemma {:induction false} CifpEntry(i: nat)
    requires i < 32
    ensures Cifp(i) == 16 * (i % 8 / 4) + 4 * (i / 8) + i % 4 + 1
  {
    assert i / 8 == 0 || i / 8 == 1 || i / 8 == 2 || i / 8 == 3;
  }

  lemma {:induction false} CifpHalves(i: nat)
    requires i < 32
    ensures Cifp(i + 32) == Cifp(i) + 32
  {
    assert i / 8 == 0 || i / 8 == 1 || i / 8 == 2 || i / 8 == 3;
  }

  // Where each bit number sits in CIFP.
  const CIFP_INVERSE: seq<seq<nat>> := [
    [ 0,  1,  2,  3,  8,  9, 10, 11],
    [16, 17, 18, 19, 24, 25, 26, 27],
    [ 4,  5,  6,  7, 12, 13, 14, 15],
    [20, 21, 22, 23, 28, 29, 30, 31],
    [32, 33, 34, 35, 40, 41, 42, 43],
    [48, 49, 50, 51, 56, 57, 58, 59],
    [36, 37, 38, 39, 44, 45, 46, 47],
    [52, 53, 54, 55, 60, 61, 62, 63]]

  function CifpInverse(n: nat): (i: nat)
    requires 1 <= n <= 64
    ensures i < 64
  {
    CIFP_INVERSE[(n - 1) / 8][(n - 1) % 8]
  }

  lemma {:induction false} CifpInverseOf(i: nat)
    requires i < 64
    ensures CifpInverse(Cifp(i)) == i
  {
    hide Cifp, CifpInverse;
    if i < 32 { CifpInverseOfLow(i); } else { CifpInverseOfHigh(i); }
  }

  lemma {:induction false} CifpInverseOfLow(i: nat)
    requires i < 32
    ensures CifpInverse(Cifp(i)) == i
  {
    assert i / 8 == 0 || i / 8 == 1 || i / 8 == 2 || i / 8 == 3;
  }

  lemma {:induction false} CifpInverseOfHigh(i: nat)
    requires 32 <= i < 64
    ensures CifpInverse(Cifp(i)) == i
  {
    assert i / 8 == 4 || i / 8 == 5 || i / 8 == 6 || i / 8 == 7;
  }

  lemma {:induction false} CifpOfInverse(n: nat)
    requires 1 <= n <= 64
    ensures Cifp(CifpInverse(n)) == n
  {
    hide Cifp, CifpInverse;
    if n <= 32 { CifpOfInverseLow(n); } else { CifpOfInverseHigh(n); }
  }

  lemma {:induction false} CifpOfInverseLow(n: nat)
    requires 1 <= n <= 32
    ensures Cifp(CifpInverse(n)) == n
  {
    assert (n - 1) / 8 == 0 || (n - 1) / 8 == 1 || (n - 1) / 8 == 2 || (n - 1) / 8 == 3;
  }

  lemma {:induction false} CifpOfInverseHigh(n: nat)
    requires 32 < n <= 64
    ensures Cifp(CifpInverse(n)) == n
  {
    assert (n - 1) / 8 == 4 || (n - 1) / 8 == 5 || (n - 1) / 8 == 6 || (n - 1) / 8 == 7;
  }

  // Where each of the 56 key bits sits in the padded PC2.
  const PC2_INVERSE: seq<seq<nat>> := [
    [ 6, 31, 10, 21,  7, 13, 27, 23],
    [ 0, 15,  4, 20, 30,  2, 12, 26],
    [ 3,  1, 19, 29, 14,  8, 18,  5],
    [ 9, 22, 28, 11, 62, 42, 36, 63],
    [46, 54, 16, 61, 37, 17, 52, 43],
    [34, 59, 24, 50, 45, 58, 38, 47],
    [51, 60, 44, 35, 55, 25, 39, 53]]

  function Pc2Inverse(n: nat): (i: nat)
    requires 1 <= n <= 56
    ensures i < 64
  {
    PC2_INVERSE[(n - 1) / 8][(n - 1) % 8]
  }

  lemma {:induction false} Pc2InverseOf(i: nat)
    requires i < 64 && Pc2(i) != 0
    ensures Pc2Inverse(Pc2(i)) == i
  {
    hide Pc2, Pc2Inverse;
    if i < 32 { Pc2InverseOfLow(i); } else { Pc2InverseOfHigh(i); }
  }

  lemma {:induction false} Pc2InverseOfLow(i: nat)
    requires i < 32
    ensures Pc2Inverse(Pc2(i)) == i
  {
    assert i / 8 == 0 || i / 8 == 1 || i / 8 == 2 || i / 8 == 3;
  }

  lemma {:induction false} Pc2InverseOfHigh(i: nat)
    requires 32 <= i < 64 && Pc2(i) != 0
    ensures Pc2Inverse(Pc2(i)) == i
  {
    assert i / 8 == 4 || i / 8 == 5 || i / 8 == 6 || i / 8 == 7;
  }

  lemma {:induction false} Pc2OfInverse(n: nat)
    requires 1 <= n <= 56
    ensures Pc2(Pc2Inverse(n)) == n
  {
    hide Pc2, Pc2Inverse;
    if n <= 32 { Pc2OfInverseLow(n); } else { Pc2OfInverseHigh(n); }
  }

  lemma {:induction false} Pc2OfInverseLow(n: nat)
    requires 1 <= n <= 32
    ensures Pc2(Pc2Inverse(n)) == n
  {
    assert (n - 1) / 8 == 0 || (n - 1) / 8 == 1 || (n - 1) / 8 == 2 || (n - 1) / 8 == 3;
  }

  lemma {:induction false} Pc2OfInverseHigh(n: nat)
    requires 32 < n <= 56
    ensures Pc2(Pc2Inverse(n)) == n
  {
    assert (n - 1) / 8 == 4 || (n - 1) / 8 == 5 || (n - 1) / 8 == 6;
  }

  // ----- what the standard says of the tables -----

  /** IP takes the even bits of each byte, last byte first, and then the odd ones. */
  lemma {:induction false} IpClosed(r: nat, c: nat)
    requires r < 4 && c < 8
    ensures IP[r][c] == 58 + 2 * r - 8 * c && IP[r + 4][c] == 57 + 2 * r - 8 * c
  {
    assert r == 0 || r == 1 || r == 2 || r == 3;
  }

  /** Group r of the expansion starts with the last bit of the group before, and ends with the first of the next. */
  lemma {:induction false} ExpandOuter(r: nat)
    requires r < 8
    ensures ExpandTr(6 * r) == (if r == 0 then 32 else 4 * r)
    ensures ExpandTr(6 * r + 5) == (if r == 7 then 1 else 4 * r + 5)
  {
  }

  /** C is made of the low bits of the bytes, last byte first; D of the high ones and the last four middle ones. */
  lemma {:induction false} Pc1Closed(i: nat)
    requires i < 28
    ensures Pc1(i) == 57 + i / 8 - 8 * (i % 8)
    ensures Pc1(i + 28) == if i < 24 then 63 - i / 8 - 8 * (i % 8) else 28 - 8 * (i - 24)
  {
    if i < 14 {
      Pc1Low(i);
    } else {
      Pc1High(i);
    }
  }

  lemma {:induction false} Pc1Low(i: nat)
    requires i < 14
    ensures Pc1(i) == 57 + i / 8 - 8 * (i % 8) && Pc1(i + 28) == 63 - i / 8 - 8 * (i % 8)
  {
    assert i < 7 || 7 <= i;
  }

  lemma {:induction false} Pc1High(i: nat)
    requires 14 <= i < 28
    ensures Pc1(i) == 57 + i / 8 - 8 * (i % 8)
    ensures Pc1(i + 28) == if i < 24 then 63 - i / 8 - 8 * (i % 8) else 28 - 8 * (i - 24)
  {
    assert i < 21 || 21 <= i;
  }

  // Where each bit number sits in P.
  const P32_INVERSE: seq<seq<nat>> := [
    [ 8, 16, 22, 30],
    [12, 27,  1, 17],
    [23, 15, 29,  5],
    [25, 19,  9,  0],
    [ 7, 13, 24,  2],
    [ 3, 28, 10, 18],
    [31, 11, 21,  6],
    [ 4, 26, 14, 20]]

  function P32Inverse(n: nat): (i: nat)
    requires 1 <= n <= 32
    ensures i < 32
  {
    P32_INVERSE[(n - 1) / 4][(n - 1) % 4]
  }

  /** P is a permutation. */
  lemma {:induction false} P32Permutes(i: nat)
    requires i < 32
    ensures P32Inverse(P32Tr(i)) == i && P32Tr(P32Inverse(i + 1)) == i + 1
  {
    assert i / 4 < 8 && i % 4 < 4;
  }

  /** Every row of every S box is a permutation of 0 to 15. */
  lemma {:induction false} SboxRow(t: nat, r: nat, v: nat)
    requires t < 8 && r < 4 && v < 16
    ensures |S[t][r]| == 16 && v in S[t][r]
  {
    match t
    case 0 => SboxRows0(r, v);
    case 1 => SboxRows1(r, v);
    case 2 => SboxRows2(r, v);
    case 3 => SboxRows3(r, v);
    case 4 => SboxRows4(r, v);
    case 5 => SboxRows5(r, v);
    case 6 => SboxRows6(r, v);
    case _ => SboxRows7(r, v);
  }

  lemma {:induction false} SboxRows0(r: nat, v: nat)
    requires r < 4 && v < 16
    ensures |S[0][r]| == 16 && v in S[0][r]
  {
  }

  lemma {:induction false} SboxRows1(r: nat, v: nat)
    requires r < 4 && v < 16
    ensures |S[1][r]| == 16 && v in S[1][r]
  {
  }

  lemma {:induction false} SboxRows2(r: nat, v: nat)
    requires r < 4 && v < 16
    ensures |S[2][r]| == 16 && v in S[2][r]
  {
  }

  lemma {:induction false} SboxRows3(r: nat, v: nat)
    requires r < 4 && v < 16
    ensures |S[3][r]| == 16 && v in S[3][r]
  {
  }

  lemma {:induction false} SboxRows4(r: nat, v: nat)
    requires r < 4 && v < 16
    ensures |S[4][r]| == 16 && v in S[4][r]
  {
  }

  lemma {:induction false} SboxRows5(r: nat, v: nat)
    requires r < 4 && v < 16
    ensures |S[5][r]| == 16 && v in S[5][r]
  {
  }

  lemma {:induction false} SboxRows6(r: nat, v: nat)
    requires r < 4 && v < 16
    ensures |S[6][r]| == 16 && v in S[6][r]
  {
  }

  lemma {:induction false} SboxRows7(r: nat, v: nat)
    requires r < 4 && v < 16
    ensures |S[7][r]| == 16 && v in S[7][r]
  {
  }
}
