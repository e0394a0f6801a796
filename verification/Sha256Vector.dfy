/** What SHA-256 is anchored to: its constants are the roots that FIPS 180-4 says they are, and the digest of the three
    bytes abc is the one that is published with the standard. */
module Sha256Vector {
  import opened HashBlocks
  import opened Sha256

  // ----- the constants, sections 4.2.2 and 5.3.3 of FIPS 180-4

  /** The first 64 prime numbers, eight to a row. */
  function Primes(row: nat): (r: seq<nat>)
    requires row < 8
    ensures |r| == 8
  {
    match row
    case 0 => [2, 3, 5, 7, 11, 13, 17, 19]
    case 1 => [23, 29, 31, 37, 41, 43, 47, 53]
    case 2 => [59, 61, 67, 71, 73, 79, 83, 89]
    case 3 => [97, 101, 103, 107, 109, 113, 127, 131]
    case 4 => [137, 139, 149, 151, 157, 163, 167, 173]
    case 5 => [179, 181, 191, 193, 197, 199, 211, 223]
    case 6 => [227, 229, 233, 239, 241, 251, 257, 263]
    case _ => [269, 271, 277, 281, 283, 293, 307, 311]
  }

  function Prime(t: nat): nat
    requires t < 64
  {
    Primes(t / 8)[t % 8]
  }

  lemma KRow(r: nat, a: word, b: word, c: word, d: word, e: word, f: word, g: word, h: word)
    requires r < 8 && Constants(r) == [a, b, c, d, e, f, g, h]
    ensures K(8 * r) == a && K(8 * r + 1) == b && K(8 * r + 2) == c && K(8 * r + 3) == d
    ensures K(8 * r + 4) == e && K(8 * r + 5) == f && K(8 * r + 6) == g && K(8 * r + 7) == h
  {
    hide Constants;
    InRow(r);
  }

  lemma PrimeRow(r: nat, a: nat, b: nat, c: nat, d: nat, e: nat, f: nat, g: nat, h: nat)
    requires r < 8 && Primes(r) == [a, b, c, d, e, f, g, h]
    ensures Prime(8 * r) == a && Prime(8 * r + 1) == b && Prime(8 * r + 2) == c && Prime(8 * r + 3) == d
    ensures Prime(8 * r + 4) == e && Prime(8 * r + 5) == f && Prime(8 * r + 6) == g && Prime(8 * r + 7) == h
  {
    hide Primes;
    InRow(r);
  }

  const UNIT: int := 0x1_0000_0000

  /** The number r and the fraction x / 2^32 together are the cube root of p, cut off after 32 bits. */
  predicate CubeRoot(r: int, x: word, p: int) {
    var k := r * UNIT + x as int;
    k * k * k <= p * UNIT * UNIT * UNIT < (k + 1) * (k + 1) * (k + 1)
  }

  predicate SquareRoot(r: int, x: word, p: int) {
    var k := r * UNIT + x as int;
    k * k <= p * UNIT * UNIT < (k + 1) * (k + 1)
  }

  /** The whole part of the cube root of the t-th prime number. */
  function Whole(t: nat): int {
    if t < 4 then 1 else if t < 9 then 2 else if t < 18 then 3 else if t < 30 then 4 else if t < 47 then 5 else 6
  }

  lemma Roots0()
    ensures forall t :: 0 <= t < 4 ==> CubeRoot(Whole(t), K(t), Prime(t))
  {
    hide K, Prime;
    KRow(0, 0x428a2f98, 0x71374491, 0xb5c0fbcf, 0xe9b5dba5, 0x3956c25b, 0x59f111f1, 0x923f82a4, 0xab1c5ed5);
    PrimeRow(0, 2, 3, 5, 7, 11, 13, 17, 19);
    Root(0, 1, 0x428a2f98, 2);
    Root(1, 1, 0x71374491, 3);
    Root(2, 1, 0xb5c0fbcf, 5);
    Root(3, 1, 0xe9b5dba5, 7);
  }

  lemma Roots1()
    ensures forall t :: 4 <= t < 8 ==> CubeRoot(Whole(t), K(t), Prime(t))
  {
    hide K, Prime;
    KRow(0, 0x428a2f98, 0x71374491, 0xb5c0fbcf, 0xe9b5dba5, 0x3956c25b, 0x59f111f1, 0x923f82a4, 0xab1c5ed5);
    PrimeRow(0, 2, 3, 5, 7, 11, 13, 17, 19);
    Root(4, 2, 0x3956c25b, 11);
    Root(5, 2, 0x59f111f1, 13);
    Root(6, 2, 0x923f82a4, 17);
    Root(7, 2, 0xab1c5ed5, 19);
  }

  lemma Roots2()
    ensures forall t :: 8 <= t < 12 ==> CubeRoot(Whole(t), K(t), Prime(t))
  {
    hide K, Prime;
    KRow(1, 0xd807aa98, 0x12835b01, 0x243185be, 0x550c7dc3, 0x72be5d74, 0x80deb1fe, 0x9bdc06a7, 0xc19bf174);
    PrimeRow(1, 23, 29, 31, 37, 41, 43, 47, 53);
    Root(8, 2, 0xd807aa98, 23);
    Root(9, 3, 0x12835b01, 29);
    Root(10, 3, 0x243185be, 31);
    Root(11, 3, 0x550c7dc3, 37);
  }

  lemma Roots3()
    ensures forall t :: 12 <= t < 16 ==> CubeRoot(Whole(t), K(t), Prime(t))
  {
    hide K, Prime;
    KRow(1, 0xd807aa98, 0x12835b01, 0x243185be, 0x550c7dc3, 0x72be5d74, 0x80deb1fe, 0x9bdc06a7, 0xc19bf174);
    PrimeRow(1, 23, 29, 31, 37, 41, 43, 47, 53);
    Root(12, 3, 0x72be5d74, 41);
    Root(13, 3, 0x80deb1fe, 43);
    Root(14, 3, 0x9bdc06a7, 47);
    Root(15, 3, 0xc19bf174, 53);
  }

  lemma Roots4()
    ensures forall t :: 16 <= t < 20 ==> CubeRoot(Whole(t), K(t), Prime(t))
  {
    hide K, Prime;
    KRow(2, 0xe49b69c1, 0xefbe4786, 0x0fc19dc6, 0x240ca1cc, 0x2de92c6f, 0x4a7484aa, 0x5cb0a9dc, 0x76f988da);
    PrimeRow(2, 59, 61, 67, 71, 73, 79, 83, 89);
    Root(16, 3, 0xe49b69c1, 59);
    Root(17, 3, 0xefbe4786, 61);
    Root(18, 4, 0x0fc19dc6, 67);
    Root(19, 4, 0x240ca1cc, 71);
  }

  lemma Roots5()
    ensures forall t :: 20 <= t < 24 ==> CubeRoot(Whole(t), K(t), Prime(t))
  {
    hide K, Prime;
    KRow(2, 0xe49b69c1, 0xefbe4786, 0x0fc19dc6, 0x240ca1cc, 0x2de92c6f, 0x4a7484aa, 0x5cb0a9dc, 0x76f988da);
    PrimeRow(2, 59, 61, 67, 71, 73, 79, 83, 89);
    Root(20, 4, 0x2de92c6f, 73);
    Root(21, 4, 0x4a7484aa, 79);
    Root(22, 4, 0x5cb0a9dc, 83);
    Root(23, 4, 0x76f988da, 89);
  }

  lemma Roots6()
    ensures forall t :: 24 <= t < 28 ==> CubeRoot(Whole(t), K(t), Prime(t))
  {
    hide K, Prime;
    KRow(3, 0x983e5152, 0xa831c66d, 0xb00327c8, 0xbf597fc7, 0xc6e00bf3, 0xd5a79147, 0x06ca6351, 0x14292967);
    PrimeRow(3, 97, 101, 103, 107, 109, 113, 127, 131);
    Root(24, 4, 0x983e5152, 97);
    Root(25, 4, 0xa831c66d, 101);
    Root(26, 4, 0xb00327c8, 103);
    Root(27, 4, 0xbf597fc7, 107);
  }

  lemma Roots7()
    ensures forall t :: 28 <= t < 32 ==> CubeRoot(Whole(t), K(t), Prime(t))
  {
    hide K, Prime;
    KRow(3, 0x983e5152, 0xa831c66d, 0xb00327c8, 0xbf597fc7, 0xc6e00bf3, 0xd5a79147, 0x06ca6351, 0x14292967);
    PrimeRow(3, 97, 101, 103, 107, 109, 113, 127, 131);
    Root(28, 4, 0xc6e00bf3, 109);
    Root(29, 4, 0xd5a79147, 113);
    Root(30, 5, 0x06ca6351, 127);
    Root(31, 5, 0x14292967, 131);
  }

  lemma Roots8()
    ensures forall t :: 32 <= t < 36 ==> CubeRoot(Whole(t), K(t), Prime(t))
  {
    hide K, Prime;
    KRow(4, 0x27b70a85, 0x2e1b2138, 0x4d2c6dfc, 0x53380d13, 0x650a7354, 0x766a0abb, 0x81c2c92e, 0x92722c85);
    PrimeRow(4, 137, 139, 149, 151, 157, 163, 167, 173);
    Root(32, 5, 0x27b70a85, 137);
    Root(33, 5, 0x2e1b2138, 139);
    Root(34, 5, 0x4d2c6dfc, 149);
    Root(35, 5, 0x53380d13, 151);
  }

  lemma Roots9()
    ensures forall t :: 36 <= t < 40 ==> CubeRoot(Whole(t), K(t), Prime(t))
  {
    hide K, Prime;
    KRow(4, 0x27b70a85, 0x2e1b2138, 0x4d2c6dfc, 0x53380d13, 0x650a7354, 0x766a0abb, 0x81c2c92e, 0x92722c85);
    PrimeRow(4, 137, 139, 149, 151, 157, 163, 167, 173);
    Root(36, 5, 0x650a7354, 157);
    Root(37, 5, 0x766a0abb, 163);
    Root(38, 5, 0x81c2c92e, 167);
    Root(39, 5, 0x92722c85, 173);
  }

  lemma Roots10()
    ensures forall t :: 40 <= t < 44 ==> CubeRoot(Whole(t), K(t), Prime(t))
  {
    hide K, Prime;
    KRow(5, 0xa2bfe8a1, 0xa81a664b, 0xc24b8b70, 0xc76c51a3, 0xd192e819, 0xd6990624, 0xf40e3585, 0x106aa070);
    PrimeRow(5, 179, 181, 191, 193, 197, 199, 211, 223);
    Root(40, 5, 0xa2bfe8a1, 179);
    Root(41, 5, 0xa81a664b, 181);
    Root(42, 5, 0xc24b8b70, 191);
    Root(43, 5, 0xc76c51a3, 193);
  }

  lemma Roots11()
    ensures forall t :: 44 <= t < 48 ==> CubeRoot(Whole(t), K(t), Prime(t))
  {
    hide K, Prime;
    KRow(5, 0xa2bfe8a1, 0xa81a664b, 0xc24b8b70, 0xc76c51a3, 0xd192e819, 0xd6990624, 0xf40e3585, 0x106aa070);
    PrimeRow(5, 179, 181, 191, 193, 197, 199, 211, 223);
    Root(44, 5, 0xd192e819, 197);
    Root(45, 5, 0xd6990624, 199);
    Root(46, 5, 0xf40e3585, 211);
    Root(47, 6, 0x106aa070, 223);
  }

  lemma Roots12()
    ensures forall t :: 48 <= t < 52 ==> CubeRoot(Whole(t), K(t), Prime(t))
  {
    hide K, Prime;
    KRow(6, 0x19a4c116, 0x1e376c08, 0x2748774c, 0x34b0bcb5, 0x391c0cb3, 0x4ed8aa4a, 0x5b9cca4f, 0x682e6ff3);
    PrimeRow(6, 227, 229, 233, 239, 241, 251, 257, 263);
    Root(48, 6, 0x19a4c116, 227);
    Root(49, 6, 0x1e376c08, 229);
    Root(50, 6, 0x2748774c, 233);
    Root(51, 6, 0x34b0bcb5, 239);
  }

  lemma Roots13()
    ensures forall t :: 52 <= t < 56 ==> CubeRoot(Whole(t), K(t), Prime(t))
  {
    hide K, Prime;
    KRow(6, 0x19a4c116, 0x1e376c08, 0x2748774c, 0x34b0bcb5, 0x391c0cb3, 0x4ed8aa4a, 0x5b9cca4f, 0x682e6ff3);
    PrimeRow(6, 227, 229, 233, 239, 241, 251, 257, 263);
    Root(52, 6, 0x391c0cb3, 241);
    Root(53, 6, 0x4ed8aa4a, 251);
    Root(54, 6, 0x5b9cca4f, 257);
    Root(55, 6, 0x682e6ff3, 263);
  }

  lemma Roots14()
    ensures forall t :: 56 <= t < 60 ==> CubeRoot(Whole(t), K(t), Prime(t))
  {
    hide K, Prime;
    KRow(7, 0x748f82ee, 0x78a5636f, 0x84c87814, 0x8cc70208, 0x90befffa, 0xa4506ceb, 0xbef9a3f7, 0xc67178f2);
    PrimeRow(7, 269, 271, 277, 281, 283, 293, 307, 311);
    Root(56, 6, 0x748f82ee, 269);
    Root(57, 6, 0x78a5636f, 271);
    Root(58, 6, 0x84c87814, 277);
    Root(59, 6, 0x8cc70208, 281);
  }

  lemma Roots15()
    ensures forall t :: 60 <= t < 64 ==> CubeRoot(Whole(t), K(t), Prime(t))
  {
    hide K, Prime;
    KRow(7, 0x748f82ee, 0x78a5636f, 0x84c87814, 0x8cc70208, 0x90befffa, 0xa4506ceb, 0xbef9a3f7, 0xc67178f2);
    PrimeRow(7, 269, 271, 277, 281, 283, 293, 307, 311);
    Root(60, 6, 0x90befffa, 283);
    Root(61, 6, 0xa4506ceb, 293);
    Root(62, 6, 0xbef9a3f7, 307);
    Root(63, 6, 0xc67178f2, 311);
  }

  lemma Root(t: nat, r: int, k: word, p: nat)
    requires t < 64 && K(t) == k && Prime(t) == p && Whole(t) == r && CubeRoot(r, k, p)
    ensures CubeRoot(Whole(t), K(t), Prime(t))
  {
  }

  /** The round constants are the fractions of the cube roots of the first 64 prime numbers, and the initial values
      those of the square roots of the first eight. */
  lemma ConstantsAreRoots()
    ensures forall t :: 0 <= t < 64 ==> CubeRoot(Whole(t), K(t), Prime(t))
    ensures SquareRoot(1, INITIAL.a, Prime(0)) && SquareRoot(1, INITIAL.b, Prime(1))
    ensures SquareRoot(2, INITIAL.c, Prime(2)) && SquareRoot(2, INITIAL.d, Prime(3))
    ensures SquareRoot(3, INITIAL.e, Prime(4)) && SquareRoot(3, INITIAL.f, Prime(5))
    ensures SquareRoot(4, INITIAL.g, Prime(6)) && SquareRoot(4, INITIAL.h, Prime(7))
  {
    hide K, Whole, CubeRoot, Prime;
    InitialRoots();
    Roots0();
    Roots1();
    Roots2();
    Roots3();
    Roots4();
    Roots5();
    Roots6();
    Roots7();
    Roots8();
    Roots9();
    Roots10();
    Roots11();
    Roots12();
    Roots13();
    Roots14();
    Roots15();
  }

  lemma InitialRoots()
    ensures SquareRoot(1, INITIAL.a, Prime(0)) && SquareRoot(1, INITIAL.b, Prime(1))
    ensures SquareRoot(2, INITIAL.c, Prime(2)) && SquareRoot(2, INITIAL.d, Prime(3))
    ensures SquareRoot(3, INITIAL.e, Prime(4)) && SquareRoot(3, INITIAL.f, Prime(5))
    ensures SquareRoot(4, INITIAL.g, Prime(6)) && SquareRoot(4, INITIAL.h, Prime(7))
  {
    hide Prime;
    PrimeRow(0, 2, 3, 5, 7, 11, 13, 17, 19);
  }

  // ----- the message abc

  /** The message schedule of its one block, eight words to a row. */
  function ScheduleRow(row: nat): (r: seq<word>)
    requires row < 8
    ensures |r| == 8
  {
    match row
    case 0 => [0x61626380, 0x00000000, 0x00000000, 0x00000000, 0x00000000, 0x00000000, 0x00000000, 0x00000000]
    case 1 => [0x00000000, 0x00000000, 0x00000000, 0x00000000, 0x00000000, 0x00000000, 0x00000000, 0x00000018]
    case 2 => [0x61626380, 0x000f0000, 0x7da86405, 0x600003c6, 0x3e9d7b78, 0x0183fc00, 0x12dcbfdb, 0xe2e2c38e]
    case 3 => [0xc8215c1a, 0xb73679a2, 0xe5bc3909, 0x32663c5b, 0x9d209d67, 0xec8726cb, 0x702138a4, 0xd3b7973b]
    case 4 => [0x93f5997f, 0x3b68ba73, 0xaff4ffc1, 0xf10a5c62, 0x0a8b3996, 0x72af830a, 0x9409e33e, 0x24641522]
    case 5 => [0x9f47bf94, 0xf0a64f5a, 0x3e246a79, 0x27333ba3, 0x0c4763f2, 0x840abf27, 0x7a290d5d, 0x065c43da]
    case 6 => [0xfb3e89cb, 0xcc7617db, 0xb9e66c34, 0xa9993667, 0x84badedd, 0xc21462bc, 0x1487472c, 0xb20f7a99]
    case _ => [0xef57b9cd, 0xebe6b238, 0x9fe3095e, 0x78bc8d4b, 0xa43fcf15, 0x668b2ff8, 0xeeaba2cc, 0x12b1edeb]
  }

  function W(t: nat): word
    requires t < 64
  {
    ScheduleRow(t / 8)[t % 8]
  }

  lemma WRow(r: nat, a: word, b: word, c: word, d: word, e: word, f: word, g: word, h: word)
    requires r < 8 && ScheduleRow(r) == [a, b, c, d, e, f, g, h]
    ensures W(8 * r) == a && W(8 * r + 1) == b && W(8 * r + 2) == c && W(8 * r + 3) == d
    ensures W(8 * r + 4) == e && W(8 * r + 5) == f && W(8 * r + 6) == g && W(8 * r + 7) == h
  {
    hide ScheduleRow;
    InRow(r);
  }

  /** The places of the words of a row. */
  lemma InRow(r: nat)
    ensures 8 * r / 8 == (8 * r + 1) / 8 == (8 * r + 2) / 8 == (8 * r + 3) / 8 == r
    ensures (8 * r + 4) / 8 == (8 * r + 5) / 8 == (8 * r + 6) / 8 == (8 * r + 7) / 8 == r
    ensures 8 * r % 8 == 0 && (8 * r + 1) % 8 == 1 && (8 * r + 2) % 8 == 2 && (8 * r + 3) % 8 == 3
    ensures (8 * r + 4) % 8 == 4 && (8 * r + 5) % 8 == 5 && (8 * r + 6) % 8 == 6 && (8 * r + 7) % 8 == 7
  {
  }

  ghost predicate Scheduled(words: seq<word>, n: nat)
    requires |words| == 16 && n <= 64
  {
    forall i :: 0 <= i < n ==> Schedule(words, i) == W(i)
  }

  lemma Extend(words: seq<word>, t: nat, w2: word, w7: word, w15: word, w16: word, s1: word, s0: word, w: word)
    requires |words| == 16 && 16 <= t < 64 && Scheduled(words, t)
    requires W(t - 2) == w2 && W(t - 7) == w7 && W(t - 15) == w15 && W(t - 16) == w16 && W(t) == w
    requires s1 == w2.RotateRight(17) ^ w2.RotateRight(19) ^ (w2 >> 10)
    requires s0 == w15.RotateRight(7) ^ w15.RotateRight(18) ^ (w15 >> 3)
    requires w == s1 + w7 + s0 + w16
    ensures Scheduled(words, t + 1)
  {
    hide W, ScheduleSum;
    SumValue(w2, w7, w15, w16, s1, s0, w);
    assert Schedule(words, t) == ScheduleSum(w2, w7, w15, w16);
  }

  lemma SumValue(w2: word, w7: word, w15: word, w16: word, s1: word, s0: word, w: word)
    requires s1 == w2.RotateRight(17) ^ w2.RotateRight(19) ^ (w2 >> 10)
    requires s0 == w15.RotateRight(7) ^ w15.RotateRight(18) ^ (w15 >> 3)
    requires w == s1 + w7 + s0 + w16
    ensures ScheduleSum(w2, w7, w15, w16) == w
  {
    hide Sigma0, Sigma1, Added;
    Sigma0Value(w15, s0);
    Sigma1Value(w2, s1);
    AddedValue(s1, w7, s0, w16, w);
  }

  lemma Sigma0Value(x: word, y: word)
    requires y == x.RotateRight(7) ^ x.RotateRight(18) ^ (x >> 3)
    ensures Sigma0(x) == y
  {
  }

  lemma Sigma1Value(x: word, y: word)
    requires y == x.RotateRight(17) ^ x.RotateRight(19) ^ (x >> 10)
    ensures Sigma1(x) == y
  {
  }

  lemma AddedValue(a: word, b: word, c: word, d: word, z: word)
    requires z == a + b + c + d
    ensures Added(a, b, c, d) == z
  {
  }

  lemma Schedule16(words: seq<word>)
    requires |words| == 16 && Scheduled(words, 16)
    ensures Scheduled(words, 24)
  {
    hide Schedule, Scheduled, W;
    WRow(0, 0x61626380, 0x00000000, 0x00000000, 0x00000000, 0x00000000, 0x00000000, 0x00000000, 0x00000000);
    WRow(1, 0x00000000, 0x00000000, 0x00000000, 0x00000000, 0x00000000, 0x00000000, 0x00000000, 0x00000018);
    WRow(2, 0x61626380, 0x000f0000, 0x7da86405, 0x600003c6, 0x3e9d7b78, 0x0183fc00, 0x12dcbfdb, 0xe2e2c38e);
    Extend(words, 16, 0x00000000, 0x00000000, 0x00000000, 0x61626380,
           0x00000000, 0x00000000, 0x61626380);
    Extend(words, 17, 0x00000018, 0x00000000, 0x00000000, 0x00000000,
           0x000f0000, 0x00000000, 0x000f0000);
    Extend(words, 18, 0x61626380, 0x00000000, 0x00000000, 0x00000000,
           0x7da86405, 0x00000000, 0x7da86405);
    Extend(words, 19, 0x000f0000, 0x00000000, 0x00000000, 0x00000000,
           0x600003c6, 0x00000000, 0x600003c6);
    Extend(words, 20, 0x7da86405, 0x00000000, 0x00000000, 0x00000000,
           0x3e9d7b78, 0x00000000, 0x3e9d7b78);
    Extend(words, 21, 0x600003c6, 0x00000000, 0x00000000, 0x00000000,
           0x0183fc00, 0x00000000, 0x0183fc00);
    Extend(words, 22, 0x3e9d7b78, 0x00000018, 0x00000000, 0x00000000,
           0x12dcbfc3, 0x00000000, 0x12dcbfdb);
    Extend(words, 23, 0x0183fc00, 0x61626380, 0x00000000, 0x00000000,
           0x8180600e, 0x00000000, 0xe2e2c38e);
  }

  lemma Schedule24(words: seq<word>)
    requires |words| == 16 && Scheduled(words, 24)
    ensures Scheduled(words, 32)
  {
    hide Schedule, Scheduled, W;
    WRow(1, 0x00000000, 0x00000000, 0x00000000, 0x00000000, 0x00000000, 0x00000000, 0x00000000, 0x00000018);
    WRow(2, 0x61626380, 0x000f0000, 0x7da86405, 0x600003c6, 0x3e9d7b78, 0x0183fc00, 0x12dcbfdb, 0xe2e2c38e);
    WRow(3, 0xc8215c1a, 0xb73679a2, 0xe5bc3909, 0x32663c5b, 0x9d209d67, 0xec8726cb, 0x702138a4, 0xd3b7973b);
    Extend(words, 24, 0x12dcbfdb, 0x000f0000, 0x00000000, 0x00000000,
           0xc8125c1a, 0x00000000, 0xc8215c1a);
    Extend(words, 25, 0xe2e2c38e, 0x7da86405, 0x00000000, 0x00000000,
           0x398e159d, 0x00000000, 0xb73679a2);
    Extend(words, 26, 0xc8215c1a, 0x600003c6, 0x00000000, 0x00000000,
           0x85bc3543, 0x00000000, 0xe5bc3909);
    Extend(words, 27, 0xb73679a2, 0x3e9d7b78, 0x00000000, 0x00000000,
           0xf3c8c0e3, 0x00000000, 0x32663c5b);
    Extend(words, 28, 0xe5bc3909, 0x0183fc00, 0x00000000, 0x00000000,
           0x9b9ca167, 0x00000000, 0x9d209d67);
    Extend(words, 29, 0x32663c5b, 0x12dcbfdb, 0x00000000, 0x00000000,
           0xd9aa66f0, 0x00000000, 0xec8726cb);
    Extend(words, 30, 0x9d209d67, 0xe2e2c38e, 0x00000018, 0x00000000,
           0x5d387513, 0x30060003, 0x702138a4);
    Extend(words, 31, 0xec8726cb, 0xc8215c1a, 0x61626380, 0x00000018,
           0x7787aa1a, 0x940e90ef, 0xd3b7973b);
  }

  lemma Schedule32(words: seq<word>)
    requires |words| == 16 && Scheduled(words, 32)
    ensures Scheduled(words, 40)
  {
    hide Schedule, Scheduled, W;
    WRow(2, 0x61626380, 0x000f0000, 0x7da86405, 0x600003c6, 0x3e9d7b78, 0x0183fc00, 0x12dcbfdb, 0xe2e2c38e);
    WRow(3, 0xc8215c1a, 0xb73679a2, 0xe5bc3909, 0x32663c5b, 0x9d209d67, 0xec8726cb, 0x702138a4, 0xd3b7973b);
    WRow(4, 0x93f5997f, 0x3b68ba73, 0xaff4ffc1, 0xf10a5c62, 0x0a8b3996, 0x72af830a, 0x9409e33e, 0x24641522);
    Extend(words, 32, 0x702138a4, 0xb73679a2, 0x000f0000, 0x61626380,
           0xbb5abe5a, 0xc001fe03, 0x93f5997f);
    Extend(words, 33, 0xd3b7973b, 0xe5bc3909, 0x7da86405, 0x000f0000,
           0x394e7e48, 0x1c4f0322, 0x3b68ba73);
    Extend(words, 34, 0x93f5997f, 0x32663c5b, 0x600003c6, 0x7da86405,
           0x7fb4c6e2, 0x8031987f, 0xaff4ffc1);
    Extend(words, 35, 0x3b68ba73, 0x9d209d67, 0x3e9d7b78, 0x600003c6,
           0x4a7920f7, 0xa9709a3e, 0xf10a5c62);
    Extend(words, 36, 0xaff4ffc1, 0xec8726cb, 0x0183fc00, 0x3e9d7b78,
           0xe0331f3b, 0xff337818, 0x0a8b3996);
    Extend(words, 37, 0xf10a5c62, 0x702138a4, 0x12dcbfdb, 0x0183fc00,
           0x65816433, 0x9b88ea33, 0x72af830a);
    Extend(words, 38, 0x0a8b3996, 0xd3b7973b, 0xe2e2c38e, 0x12dcbfdb,
           0xfbfb66da, 0xb17a254e, 0x9409e33e);
    Extend(words, 39, 0x72af830a, 0x93f5997f, 0xc8215c1a, 0xe2e2c38e,
           0x31f8dce2, 0x7b92db33, 0x24641522);
  }

  lemma Schedule40(words: seq<word>)
    requires |words| == 16 && Scheduled(words, 40)
    ensures Scheduled(words, 48)
  {
    hide Schedule, Scheduled, W;
    WRow(3, 0xc8215c1a, 0xb73679a2, 0xe5bc3909, 0x32663c5b, 0x9d209d67, 0xec8726cb, 0x702138a4, 0xd3b7973b);
    WRow(4, 0x93f5997f, 0x3b68ba73, 0xaff4ffc1, 0xf10a5c62, 0x0a8b3996, 0x72af830a, 0x9409e33e, 0x24641522);
    WRow(5, 0x9f47bf94, 0xf0a64f5a, 0x3e246a79, 0x27333ba3, 0x0c4763f2, 0x840abf27, 0x7a290d5d, 0x065c43da);
    Extend(words, 40, 0x9409e33e, 0x3b68ba73, 0xb73679a2, 0xc8215c1a,
           0xcddd9afd, 0xcde00e0a, 0x9f47bf94);
    Extend(words, 41, 0x24641522, 0xaff4ffc1, 0xe5bc3909, 0xb73679a2,
           0x883c4fbb, 0x013e863c, 0xf0a64f5a);
    Extend(words, 42, 0x9f47bf94, 0xf10a5c62, 0x32663c5b, 0xe5bc3909,
           0x281f0da4, 0x3f3ec76a, 0x3e246a79);
    Extend(words, 43, 0xf0a64f5a, 0x0a8b3996, 0x9d209d67, 0x32663c5b,
           0xee7a0fd4, 0xfbc7b5de, 0x27333ba3);
    Extend(words, 44, 0x3e246a79, 0x72af830a, 0xec8726cb, 0x9d209d67,
           0xb87c31cc, 0x43fb11b5, 0x0c4763f2);
    Extend(words, 45, 0x27333ba3, 0x9409e33e, 0x702138a4, 0xec8726cb,
           0xfaac3bb1, 0x08cd796d, 0x840abf27);
    Extend(words, 46, 0x0c4763f2, 0x24641522, 0xd3b7973b, 0x702138a4,
           0x5d845673, 0x881f6924, 0x7a290d5d);
    Extend(words, 47, 0x840abf27, 0x9f47bf94, 0x93f5997f, 0xd3b7973b,
           0x0856302b, 0x8b06bce0, 0x065c43da);
  }

  lemma Schedule48(words: seq<word>)
    requires |words| == 16 && Scheduled(words, 48)
    ensures Scheduled(words, 56)
  {
    hide Schedule, Scheduled, W;
    WRow(4, 0x93f5997f, 0x3b68ba73, 0xaff4ffc1, 0xf10a5c62, 0x0a8b3996, 0x72af830a, 0x9409e33e, 0x24641522);
    WRow(5, 0x9f47bf94, 0xf0a64f5a, 0x3e246a79, 0x27333ba3, 0x0c4763f2, 0x840abf27, 0x7a290d5d, 0x065c43da);
    WRow(6, 0xfb3e89cb, 0xcc7617db, 0xb9e66c34, 0xa9993667, 0x84badedd, 0xc21462bc, 0x1487472c, 0xb20f7a99);
    Extend(words, 48, 0x7a290d5d, 0xf0a64f5a, 0x3b68ba73, 0x93f5997f,
           0xa71b9812, 0xcf8708e0, 0xfb3e89cb);
    Extend(words, 49, 0x065c43da, 0x3e246a79, 0xaff4ffc1, 0x3b68ba73,
           0xa997d4f5, 0xa9511dfa, 0xcc7617db);
    Extend(words, 50, 0xfb3e89cb, 0x27333ba3, 0xf10a5c62, 0xaff4ffc1,
           0x95e24d5a, 0x4cdbe376, 0xb9e66c34);
    Extend(words, 51, 0xcc7617db, 0x0c4763f2, 0x0a8b3996, 0xf10a5c62,
           0xc9258230, 0xe321f3e3, 0xa9993667);
    Extend(words, 52, 0xb9e66c34, 0x840abf27, 0x72af830a, 0x0a8b3996,
           0xfbb2b254, 0xfa7233cc, 0x84badedd);
    Extend(words, 53, 0xa9993667, 0x7a290d5d, 0x9409e33e, 0x72af830a,
           0xbdd547b2, 0x17668aa3, 0xc21462bc);
    Extend(words, 54, 0x84badedd, 0x065c43da, 0x24641522, 0x9409e33e,
           0x34945c7d, 0x458cc397, 0x1487472c);
    Extend(words, 55, 0xc21462bc, 0xfb3e89cb, 0x9f47bf94, 0x24641522,
           0xbd397c50, 0xd5335f5c, 0xb20f7a99);
  }

  lemma Schedule56(words: seq<word>)
    requires |words| == 16 && Scheduled(words, 56)
    ensures Scheduled(words, 64)
  {
    hide Schedule, Scheduled, W;
    WRow(5, 0x9f47bf94, 0xf0a64f5a, 0x3e246a79, 0x27333ba3, 0x0c4763f2, 0x840abf27, 0x7a290d5d, 0x065c43da);
    WRow(6, 0xfb3e89cb, 0xcc7617db, 0xb9e66c34, 0xa9993667, 0x84badedd, 0xc21462bc, 0x1487472c, 0xb20f7a99);
    WRow(7, 0xef57b9cd, 0xebe6b238, 0x9fe3095e, 0x78bc8d4b, 0xa43fcf15, 0x668b2ff8, 0xeeaba2cc, 0x12b1edeb);
    Extend(words, 56, 0x1487472c, 0xcc7617db, 0xf0a64f5a, 0x9f47bf94,
           0x4b76a902, 0x3823395c, 0xef57b9cd);
    Extend(words, 57, 0xb20f7a99, 0xb9e66c34, 0x3e246a79, 0xf0a64f5a,
           0x52336c98, 0xef268a12, 0xebe6b238);
    Extend(words, 58, 0xef57b9cd, 0xa9993667, 0x27333ba3, 0x3e246a79,
           0x2be49faf, 0x8c40c8cf, 0x9fe3095e);
    Extend(words, 59, 0xebe6b238, 0x84badedd, 0x0c4763f2, 0x27333ba3,
           0x8f619123, 0x3d6ce1a8, 0x78bc8d4b);
    Extend(words, 60, 0x9fe3095e, 0xc21462bc, 0x840abf27, 0x0c4763f2,
           0xe5a364cf, 0xf040a398, 0xa43fcf15);
    Extend(words, 61, 0x78bc8d4b, 0x1487472c, 0x7a290d5d, 0x840abf27,
           0xd712fc6a, 0xf6e62d3b, 0x668b2ff8);
    Extend(words, 62, 0xa43fcf15, 0xb20f7a99, 0x065c43da, 0x7a290d5d,
           0x1e41696b, 0xa431b16b, 0xeeaba2cc);
    Extend(words, 63, 0x668b2ff8, 0xef57b9cd, 0xfb3e89cb, 0x065c43da,
           0xf21a9d5f, 0x2ae352e5, 0x12b1edeb);
  }

  /** One round, on words that are known. */
  lemma Next(words: seq<word>, t: nat, a: word, b: word, c: word, d: word, e: word, f: word, g: word, h: word,
             k: word, w: word, s1: word, ch: word, t1: word, s0: word, mj: word, t2: word, a': word, e': word)
    requires |words| == 16 && t < 64 && Scheduled(words, 64) && K(t) == k && W(t) == w
    requires Rounds(INITIAL, words, t) == Regs(a, b, c, d, e, f, g, h)
    requires s1 == e.RotateRight(6) ^ e.RotateRight(11) ^ e.RotateRight(25) && ch == (e & f) ^ (!e & g)
    requires s0 == a.RotateRight(2) ^ a.RotateRight(13) ^ a.RotateRight(22) && mj == (a & b) ^ (a & c) ^ (b & c)
    requires t1 == h + s1 + ch + k + w && t2 == s0 + mj && a' == t1 + t2 && e' == d + t1
    ensures Rounds(INITIAL, words, t + 1) == Regs(a', a, b, c, e', e, f, g)
  {
    hide K, W, Schedule, Sum0, Sum1, Choose, Majority, T1, Plus;
    assert Schedule(words, t) == w;
    Sum1Value(e, s1);
    ChooseValue(e, f, g, ch);
    T1Value(h, s1, ch, k, w, t1);
    Sum0Value(a, s0);
    MajorityValue(a, b, c, mj);
    PlusValue(s0, mj, t2);
    PlusValue(t1, t2, a');
    PlusValue(d, t1, e');
  }

  lemma Sum0Value(x: word, y: word)
    requires y == x.RotateRight(2) ^ x.RotateRight(13) ^ x.RotateRight(22)
    ensures Sum0(x) == y
  {
  }

  lemma Sum1Value(x: word, y: word)
    requires y == x.RotateRight(6) ^ x.RotateRight(11) ^ x.RotateRight(25)
    ensures Sum1(x) == y
  {
  }

  lemma ChooseValue(x: word, y: word, z: word, v: word)
    requires v == (x & y) ^ (!x & z)
    ensures Choose(x, y, z) == v
  {
  }

  lemma MajorityValue(x: word, y: word, z: word, v: word)
    requires v == (x & y) ^ (x & z) ^ (y & z)
    ensures Majority(x, y, z) == v
  {
  }

  lemma T1Value(h: word, sum1: word, ch: word, k: word, w: word, v: word)
    requires v == h + sum1 + ch + k + w
    ensures T1(h, sum1, ch, k, w) == v
  {
  }

  lemma PlusValue(x: word, y: word, v: word)
    requires v == x + y
    ensures Plus(x, y) == v
  {
  }

  lemma Rounds0(words: seq<word>)
    requires |words| == 16 && Scheduled(words, 64)
    requires Rounds(INITIAL, words, 0) ==
             Regs(0x6a09e667, 0xbb67ae85, 0x3c6ef372, 0xa54ff53a, 0x510e527f, 0x9b05688c, 0x1f83d9ab, 0x5be0cd19)
    ensures Rounds(INITIAL, words, 8) ==
            Regs(0x85a07b5f, 0xe5030380, 0x2b4209f5, 0x04409a6a, 0x0c657a79, 0x9b27a401, 0x714260ad, 0x43ada245)
  {
    hide Rounds, Schedule, Scheduled, K, W;
    KRow(0, 0x428a2f98, 0x71374491, 0xb5c0fbcf, 0xe9b5dba5, 0x3956c25b, 0x59f111f1, 0x923f82a4, 0xab1c5ed5);
    WRow(0, 0x61626380, 0x00000000, 0x00000000, 0x00000000, 0x00000000, 0x00000000, 0x00000000, 0x00000000);
    Next(words, 0, 0x6a09e667, 0xbb67ae85, 0x3c6ef372, 0xa54ff53a, 0x510e527f, 0x9b05688c, 0x1f83d9ab, 0x5be0cd19,
         0x428a2f98, 0x61626380, 0x3587272b, 0x1f85c98c, 0x54da50e8,
         0xce20b47e, 0x3a6fe667, 0x08909ae5, 0x5d6aebcd, 0xfa2a4622);
    Next(words, 1, 0x5d6aebcd, 0x6a09e667, 0xbb67ae85, 0x3c6ef372, 0xfa2a4622, 0x510e527f, 0x9b05688c, 0x1f83d9ab,
         0x71374491, 0x00000000, 0x5a94fd2d, 0x510f6aae, 0x3c5f8617,
         0xa29f64d1, 0x7b6beec5, 0x1e0b5396, 0x5a6ad9ad, 0x78ce7989);
    Next(words, 2, 0x5a6ad9ad, 0x5d6aebcd, 0x6a09e667, 0xbb67ae85, 0x78ce7989, 0xfa2a4622, 0x510e527f, 0x9b05688c,
         0xb5c0fbcf, 0x00000000, 0x73f0e495, 0x790a4276, 0x3dc18b66,
         0x3096d054, 0x5a6aebed, 0x8b01bc41, 0xc8c347a7, 0xf92939eb);
    Next(words, 3, 0xc8c347a7, 0x5a6ad9ad, 0x5d6aebcd, 0x6a09e667, 0xf92939eb, 0x78ce7989, 0xfa2a4622, 0x510e527f,
         0xe9b5dba5, 0x00000000, 0x0607743c, 0x7a0a7f89, 0xbad621e9,
         0xc21008d0, 0x586acbad, 0x1a7ad47d, 0xd550f666, 0x24e00850);
    Next(words, 4, 0xd550f666, 0xc8c347a7, 0x5a6ad9ad, 0x5d6aebcd, 0x24e00850, 0xf92939eb, 0x78ce7989, 0xfa2a4622,
         0x3956c25b, 0x00000000, 0x3a933432, 0x782e79c9, 0xe642b678,
         0x45bb0c4b, 0xd842d7a7, 0x1dfde3f2, 0x04409a6a, 0x43ada245);
    Next(words, 5, 0x04409a6a, 0xd550f666, 0xc8c347a7, 0x5a6ad9ad, 0x43ada245, 0x24e00850, 0xf92939eb, 0x78ce7989,
         0x59f111f1, 0x00000000, 0x8b77e19c, 0xb8a019ea, 0x16d78700,
         0x5029ac8f, 0xc440d666, 0x146a82f5, 0x2b4209f5, 0x714260ad);
    Next(words, 6, 0x2b4209f5, 0x04409a6a, 0xd550f666, 0xc8c347a7, 0x714260ad, 0x43ada245, 0x24e00850, 0xf92939eb,
         0x923f82a4, 0x00000000, 0x015b7776, 0x45a02855, 0xd2645c5a,
         0x0d5e0cc0, 0x05409a66, 0x129ea726, 0xe5030380, 0x9b27a401);
    Next(words, 7, 0xe5030380, 0x2b4209f5, 0x04409a6a, 0xd550f666, 0x9b27a401, 0x714260ad, 0x43ada245, 0x24e00850,
         0xab1c5ed5, 0x00000000, 0x158dfaa9, 0x518a2245, 0x37148413,
         0x2949eb6c, 0x25420be0, 0x4e8bf74c, 0x85a07b5f, 0x0c657a79);
  }

  lemma Rounds8(words: seq<word>)
    requires |words| == 16 && Scheduled(words, 64)
    requires Rounds(INITIAL, words, 8) ==
             Regs(0x85a07b5f, 0xe5030380, 0x2b4209f5, 0x04409a6a, 0x0c657a79, 0x9b27a401, 0x714260ad, 0x43ada245)
    ensures Rounds(INITIAL, words, 16) ==
            Regs(0xb0fa238e, 0xc0645fde, 0xd932eb16, 0x87912990, 0x07590dcd, 0x0b92f20c, 0x745a48de, 0x1e578218)
  {
    hide Rounds, Schedule, Scheduled, K, W;
    KRow(1, 0xd807aa98, 0x12835b01, 0x243185be, 0x550c7dc3, 0x72be5d74, 0x80deb1fe, 0x9bdc06a7, 0xc19bf174);
    WRow(1, 0x00000000, 0x00000000, 0x00000000, 0x00000000, 0x00000000, 0x00000000, 0x00000000, 0x00000018);
    Next(words, 8, 0x85a07b5f, 0xe5030380, 0x2b4209f5, 0x04409a6a, 0x0c657a79, 0x9b27a401, 0x714260ad, 0x43ada245,
         0xd807aa98, 0x00000000, 0x99ad25c0, 0x79272085, 0x2e899322,
         0xba794dc2, 0xa5020bd5, 0x5f7b5997, 0x8e04ecb9, 0x32ca2d8c);
    Next(words, 9, 0x8e04ecb9, 0x85a07b5f, 0xe5030380, 0x2b4209f5, 0x32ca2d8c, 0x0c657a79, 0x9b27a401, 0x714260ad,
         0x12835b01, 0x00000000, 0xe45bb7ea, 0x8965a809, 0xf1871ba1,
         0x15ffad31, 0x85006b99, 0x9b0018ca, 0x8c87346b, 0x1cc92596);
    Next(words, 10, 0x8c87346b, 0x8e04ecb9, 0x85a07b5f, 0xe5030380, 0x1cc92596, 0x32ca2d8c, 0x0c657a79, 0x9b27a401,
         0x243185be, 0x00000000, 0x8e2276bc, 0x10ec7fed, 0x5e682068,
         0x5cac0711, 0x8c847c7b, 0xe930838c, 0x4798a3f4, 0x436b23e8);
    Next(words, 11, 0x4798a3f4, 0x8c87346b, 0x8e04ecb9, 0x85a07b5f, 0x436b23e8, 0x1cc92596, 0x32ca2d8c, 0x0c657a79,
         0x550c7dc3, 0x00000000, 0x699435ca, 0x30c92d84, 0xfbcf5b8a,
         0x6ccbc526, 0x8e84a4f9, 0xfb506a1f, 0xf71fc5a9, 0x816fd6e9);
    Next(words, 12, 0xf71fc5a9, 0x4798a3f4, 0x8c87346b, 0x8e04ecb9, 0x816fd6e9, 0x436b23e8, 0x1cc92596, 0x32ca2d8c,
         0x72be5d74, 0x00000000, 0xccdee661, 0x1deb23fe, 0x9052955f,
         0x2f9eee48, 0xc79fa5e9, 0xf73e9431, 0x87912990, 0x1e578218);
    Next(words, 13, 0x87912990, 0xf71fc5a9, 0x4798a3f4, 0x8c87346b, 0x1e578218, 0x816fd6e9, 0x436b23e8, 0x1cc92596,
         0x80deb1fe, 0x00000000, 0x08bb98f7, 0x416fa3e8, 0xe7d31473,
         0x29c634f3, 0xc799a1b0, 0xf15fd6a3, 0xd932eb16, 0x745a48de);
    Next(words, 14, 0xd932eb16, 0x87912990, 0xf71fc5a9, 0x4798a3f4, 0x745a48de, 0x1e578218, 0x816fd6e9, 0x436b23e8,
         0x9bdc06a7, 0x00000000, 0x4f3b8d50, 0x95779639, 0xc3fa4e18,
         0x25562836, 0xd713e990, 0xfc6a11c6, 0xc0645fde, 0x0b92f20c);
    Next(words, 15, 0xc0645fde, 0xd932eb16, 0x87912990, 0xf71fc5a9, 0x0b92f20c, 0x745a48de, 0x1e578218, 0x816fd6e9,
         0xc19bf174, 0x00000018, 0xb8d63f93, 0x1457401c, 0x10394824,
         0xdf906fd4, 0xc1306b96, 0xa0c0db6a, 0xb0fa238e, 0x07590dcd);
  }

  lemma Rounds16(words: seq<word>)
    requires |words| == 16 && Scheduled(words, 64)
    requires Rounds(INITIAL, words, 16) ==
             Regs(0xb0fa238e, 0xc0645fde, 0xd932eb16, 0x87912990, 0x07590dcd, 0x0b92f20c, 0x745a48de, 0x1e578218)
    ensures Rounds(INITIAL, words, 24) ==
            Regs(0xc5d53d8d, 0xa7a3623f, 0xc2606d6d, 0x9dc68b63, 0xaa47c347, 0x49f5114a, 0xe1257970, 0x8ada8930)
  {
    hide Rounds, Schedule, Scheduled, K, W;
    KRow(2, 0xe49b69c1, 0xefbe4786, 0x0fc19dc6, 0x240ca1cc, 0x2de92c6f, 0x4a7484aa, 0x5cb0a9dc, 0x76f988da);
    WRow(2, 0x61626380, 0x000f0000, 0x7da86405, 0x600003c6, 0x3e9d7b78, 0x0183fc00, 0x12dcbfdb, 0xe2e2c38e);
    Next(words, 16, 0xb0fa238e, 0xc0645fde, 0xd932eb16, 0x87912990, 0x07590dcd, 0x0b92f20c, 0x745a48de, 0x1e578218,
         0xe49b69c1, 0x61626380, 0x213b6995, 0x7312401e, 0xf8a2f90c,
         0x58c535f1, 0xd0726b9e, 0x2937a18f, 0x21da9a9b, 0x8034229c);
    Next(words, 17, 0x21da9a9b, 0xb0fa238e, 0xc0645fde, 0xd932eb16, 0x8034229c, 0x07590dcd, 0x0b92f20c, 0x745a48de,
         0xefbe4786, 0x000f0000, 0x3b81984e, 0x0b92d08c, 0xab3bf93e,
         0x76c5c4f5, 0xa0fa1b9e, 0x17bfe093, 0xc2fbd9d1, 0x846ee454);
    Next(words, 18, 0xc2fbd9d1, 0x21da9a9b, 0xb0fa238e, 0xc0645fde, 0x846ee454, 0x8034229c, 0x07590dcd, 0x0b92f20c,
         0x0fc19dc6, 0x7da86405, 0xeff31c0f, 0x8335299d, 0x0c253983,
         0x5157a6a1, 0xa0fa9b9b, 0xf252423c, 0xfe777bbf, 0xcc899961);
    Next(words, 19, 0xfe777bbf, 0xc2fbd9d1, 0x21da9a9b, 0xb0fa238e, 0xcc899961, 0x846ee454, 0x8034229c, 0x07590dcd,
         0x240ca1cc, 0x600003c6, 0xefc707b0, 0x843ca2dc, 0xff695deb,
         0xff8cd2ad, 0xe2fbdb9b, 0xe288ae48, 0xe1f20c33, 0xb0638179);
    Next(words, 20, 0xe1f20c33, 0xfe777bbf, 0xc2fbd9d1, 0x21da9a9b, 0xb0638179, 0xcc899961, 0x846ee454, 0x8034229c,
         0x2de92c6f, 0x3e9d7b78, 0xf8373ead, 0x840de565, 0x68ffee95,
         0x51d3431b, 0xe2f359b3, 0x34c69cce, 0x9dc68b63, 0x8ada8930);
    Next(words, 21, 0x9dc68b63, 0xe1f20c33, 0xfe777bbf, 0xc2fbd9d1, 0x8ada8930, 0xb0638179, 0xcc899961, 0x846ee454,
         0x4a7484aa, 0x0183fc00, 0x897ea930, 0xc4439171, 0x1e299f9f,
         0xa640c29b, 0xfdf60b33, 0xa436cdce, 0xc2606d6d, 0xe1257970);
    Next(words, 22, 0xc2606d6d, 0x9dc68b63, 0xe1f20c33, 0xfe777bbf, 0xe1257970, 0x8ada8930, 0xb0638179, 0xcc899961,
         0x5cb0a9dc, 0x12dcbfdb, 0x7f24093a, 0x90428939, 0x4b7d958b,
         0x9a43bf51, 0xc1e20d63, 0x5c25ccb4, 0xa7a3623f, 0x49f5114a);
    Next(words, 23, 0xa7a3623f, 0xc2606d6d, 0x9dc68b63, 0xe1f20c33, 0x49f5114a, 0xe1257970, 0x8ada8930, 0xb0638179,
         0x76f988da, 0xe2e2c38e, 0xfae64fc3, 0xc32f9970, 0xc855b714,
         0x759d1b0a, 0x87e26b6f, 0xfd7f8679, 0xc5d53d8d, 0xaa47c347);
  }

  lemma Rounds24(words: seq<word>)
    requires |words| == 16 && Scheduled(words, 64)
    requires Rounds(INITIAL, words, 24) ==
             Regs(0xc5d53d8d, 0xa7a3623f, 0xc2606d6d, 0x9dc68b63, 0xaa47c347, 0x49f5114a, 0xe1257970, 0x8ada8930)
    ensures Rounds(INITIAL, words, 32) ==
            Regs(0x73b33bf5, 0xea992a22, 0xa0060b30, 0x363482c9, 0xba591112, 0x0109ab3a, 0xade79437, 0x6112a3b7)
  {
    hide Rounds, Schedule, Scheduled, K, W;
    KRow(3, 0x983e5152, 0xa831c66d, 0xb00327c8, 0xbf597fc7, 0xc6e00bf3, 0xd5a79147, 0x06ca6351, 0x14292967);
    WRow(3, 0xc8215c1a, 0xb73679a2, 0xe5bc3909, 0x32663c5b, 0x9d209d67, 0xec8726cb, 0x702138a4, 0xd3b7973b);
    Next(words, 24, 0xc5d53d8d, 0xa7a3623f, 0xc2606d6d, 0x9dc68b63, 0xaa47c347, 0x49f5114a, 0xe1257970, 0x8ada8930,
         0x983e5152, 0xc8215c1a, 0x55bdf420, 0x49653972, 0x8a5d642e,
         0xc9ed56dd, 0xc7e16d2d, 0x91cec40a, 0x1c2c2838, 0x2823ef91);
    Next(words, 25, 0x1c2c2838, 0xc5d53d8d, 0xa7a3623f, 0xc2606d6d, 0x2823ef91, 0xaa47c347, 0x49f5114a, 0xe1257970,
         0xa831c66d, 0xb73679a2, 0xa7724357, 0x69d7d34b, 0x51d7d021,
         0xf66b0b1f, 0x85a5283d, 0x7c10335c, 0xcde8037d, 0x14383d8e);
    Next(words, 26, 0xcde8037d, 0x1c2c2838, 0xc5d53d8d, 0xa7a3623f, 0x14383d8e, 0x2823ef91, 0xaa47c347, 0x49f5114a,
         0xb00327c8, 0xe5bc3909, 0x958ca0fb, 0xaa67efc1, 0x1fa902d7,
         0xc89998a8, 0xcdec293d, 0x9685c1e5, 0xb62ec4bc, 0xc74c6516);
    Next(words, 27, 0xb62ec4bc, 0xcde8037d, 0x1c2c2838, 0xc5d53d8d, 0xc74c6516, 0x14383d8e, 0x2823ef91, 0xaa47c347,
         0xbf597fc7, 0x32663c5b, 0x5ff7537b, 0x2c2baf87, 0x282a826b,
         0xb37cf281, 0x9c2c003c, 0x4fa8f2bd, 0x77d37528, 0xedffbff8);
    Next(words, 28, 0x77d37528, 0xb62ec4bc, 0xcde8037d, 0x1c2c2838, 0xedffbff8, 0xc74c6516, 0x14383d8e, 0x2823ef91,
         0xc6e00bf3, 0x9d209d67, 0xe375bd7e, 0xd54c2516, 0x44e67b7f,
         0xf963c20e, 0xf7ea453c, 0xf14e074a, 0x363482c9, 0x6112a3b7);
    Next(words, 29, 0x363482c9, 0x77d37528, 0xb62ec4bc, 0xcde8037d, 0x6112a3b7, 0xedffbff8, 0xc74c6516, 0x14383d8e,
         0xd5a79147, 0xec8726cb, 0x2239b36a, 0xe75ee7b0, 0xdfff90ba,
         0x89cfb5ce, 0x3636c4a8, 0xc0067a76, 0xa0060b30, 0xade79437);
    Next(words, 30, 0xa0060b30, 0x363482c9, 0x77d37528, 0xb62ec4bc, 0xade79437, 0x6112a3b7, 0xedffbff8, 0xc74c6516,
         0x06ca6351, 0x702138a4, 0xab883974, 0x611aabff, 0x4adae67e,
         0x69a8407c, 0x36160328, 0x9fbe43a4, 0xea992a22, 0x0109ab3a);
    Next(words, 31, 0xea992a22, 0xa0060b30, 0x363482c9, 0x77d37528, 0x0109ab3a, 0xade79437, 0x6112a3b7, 0xedffbff8,
         0x14292967, 0xd3b7973b, 0x0b919a99, 0x611380b7, 0x42859bea,
         0x8f1995eb, 0xa2140a20, 0x312da00b, 0x73b33bf5, 0xba591112);
  }

  lemma Rounds32(words: seq<word>)
    requires |words| == 16 && Scheduled(words, 64)
    requires Rounds(INITIAL, words, 32) ==
             Regs(0x73b33bf5, 0xea992a22, 0xa0060b30, 0x363482c9, 0xba591112, 0x0109ab3a, 0xade79437, 0x6112a3b7)
    ensures Rounds(INITIAL, words, 40) ==
            Regs(0x79ea687a, 0x6dc57a8a, 0x34df1604, 0x41a65cb1, 0x1efbc0a0, 0xf0781bc8, 0xa507a53d, 0x0772a26b)
  {
    hide Rounds, Schedule, Scheduled, K, W;
    KRow(4, 0x27b70a85, 0x2e1b2138, 0x4d2c6dfc, 0x53380d13, 0x650a7354, 0x766a0abb, 0x81c2c92e, 0x92722c85);
    WRow(4, 0x93f5997f, 0x3b68ba73, 0xaff4ffc1, 0xf10a5c62, 0x0a8b3996, 0x72af830a, 0x9409e33e, 0x24641522);
    Next(words, 32, 0x73b33bf5, 0xea992a22, 0xa0060b30, 0x363482c9, 0xba591112, 0x0109ab3a, 0xade79437, 0x6112a3b7,
         0x27b70a85, 0x93f5997f, 0x4436a63b, 0x05af8537, 0x66a5732d,
         0x4fa886aa, 0xe2932b30, 0x323bb1da, 0x98e12507, 0x9cd9f5f6);
    Next(words, 33, 0x98e12507, 0x73b33bf5, 0xea992a22, 0xa0060b30, 0x9cd9f5f6, 0xba591112, 0x0109ab3a, 0xade79437,
         0x2e1b2138, 0x3b68ba73, 0x085a07a7, 0x99591b1a, 0xb91e92a3,
         0x4a90902b, 0xfab12b27, 0x4541bb52, 0xfe604df5, 0x59249dd3);
    Next(words, 34, 0xfe604df5, 0x98e12507, 0x73b33bf5, 0xea992a22, 0x59249dd3, 0x9cd9f5f6, 0xba591112, 0x0109ab3a,
         0x4d2c6dfc, 0xaff4ffc1, 0x65415f48, 0xba5995d2, 0x1dc60e11,
         0x91003786, 0xfae12df5, 0x8be1657b, 0xa9a7738c, 0x085f3833);
    Next(words, 35, 0xa9a7738c, 0xfe604df5, 0x98e12507, 0x73b33bf5, 0x085f3833, 0x59249dd3, 0x9cd9f5f6, 0xba591112,
         0x53380d13, 0xf10a5c62, 0xe5dc6e83, 0x9c84ddd7, 0x80fcc6e1,
         0x2bc2a37e, 0xb8e16585, 0xe4a40903, 0x65a0cfe4, 0xf4b002d6);
    Next(words, 36, 0x65a0cfe4, 0xa9a7738c, 0xfe604df5, 0x98e12507, 0xf4b002d6, 0x085f3833, 0x59249dd3, 0x9cd9f5f6,
         0x650a7354, 0x0a8b3996, 0x590d3d71, 0x09149d13, 0x6e917d64,
         0xe5748f69, 0xeda04fe4, 0xd314df4d, 0x41a65cb1, 0x0772a26b);
    Next(words, 37, 0x41a65cb1, 0x65a0cfe4, 0xa9a7738c, 0xfe604df5, 0x0772a26b, 0xf4b002d6, 0x085f3833, 0x59249dd3,
         0x766a0abb, 0x72af830a, 0x582c115e, 0x0c3d1a52, 0xa6a75748,
         0x2c915f18, 0x61a65fa4, 0x8e37bebc, 0x34df1604, 0xa507a53d);
    Next(words, 38, 0x34df1604, 0x41a65cb1, 0x65a0cfe4, 0xa9a7738c, 0xa507a53d, 0x0772a26b, 0xf4b002d6, 0x085f3833,
         0x81c2c92e, 0x9409e33e, 0xd2f220b2, 0x55b2a2eb, 0x46d0a83c,
         0xc14e73aa, 0x65a65ea4, 0x26f4d24e, 0x6dc57a8a, 0xf0781bc8);
    Next(words, 39, 0x6dc57a8a, 0x34df1604, 0x41a65cb1, 0x65a0cfe4, 0xf0781bc8, 0xa507a53d, 0x0772a26b, 0xf4b002d6,
         0x92722c85, 0x24641522, 0x66d20b14, 0xa702a12b, 0xb95af0bc,
         0x5ac8193e, 0x65c75e80, 0xc08f77be, 0x79ea687a, 0x1efbc0a0);
  }

  lemma Rounds40(words: seq<word>)
    requires |words| == 16 && Scheduled(words, 64)
    requires Rounds(INITIAL, words, 40) ==
             Regs(0x79ea687a, 0x6dc57a8a, 0x34df1604, 0x41a65cb1, 0x1efbc0a0, 0xf0781bc8, 0xa507a53d, 0x0772a26b)
    ensures Rounds(INITIAL, words, 48) ==
            Regs(0x4172328d, 0xa14c14b0, 0x72ab4b91, 0x26628815, 0xfecf0bc6, 0xd57b94a9, 0xb7755da1, 0xa80f11f0)
  {
    hide Rounds, Schedule, Scheduled, K, W;
    KRow(5, 0xa2bfe8a1, 0xa81a664b, 0xc24b8b70, 0xc76c51a3, 0xd192e819, 0xd6990624, 0xf40e3585, 0x106aa070);
    WRow(5, 0x9f47bf94, 0xf0a64f5a, 0x3e246a79, 0x27333ba3, 0x0c4763f2, 0x840abf27, 0x7a290d5d, 0x065c43da);
    Next(words, 40, 0x79ea687a, 0x6dc57a8a, 0x34df1604, 0x41a65cb1, 0x1efbc0a0, 0xf0781bc8, 0xa507a53d, 0x0772a26b,
         0xa2bfe8a1, 0x9f47bf94, 0xe9986075, 0xb17c259d, 0xe48ed0b2,
         0x7408bcaa, 0x7dcf7a0a, 0xf1d836b4, 0xd6670766, 0x26352d63);
    Next(words, 41, 0xd6670766, 0x79ea687a, 0x6dc57a8a, 0x34df1604, 0x26352d63, 0x1efbc0a0, 0xf0781bc8, 0xa507a53d,
         0xa81a664b, 0xf0a64f5a, 0x3a6aa383, 0xd67912a8, 0x4eac110d,
         0x12b2e9b8, 0x7de76a6a, 0x909a5422, 0xdf46652f, 0x838b2711);
    Next(words, 42, 0xdf46652f, 0xd6670766, 0x79ea687a, 0x6dc57a8a, 0x838b2711, 0x26352d63, 0x1efbc0a0, 0xf0781bc8,
         0xc24b8b70, 0x3e246a79, 0x61add539, 0x1e71e5a1, 0x7107cc8b,
         0xc73bdc05, 0xdf66656e, 0xa6a24173, 0x17aa0dfe, 0xdecd4715);
    Next(words, 43, 0x17aa0dfe, 0xdf46652f, 0xd6670766, 0x79ea687a, 0xdecd4715, 0x838b2711, 0x26352d63, 0x1efbc0a0,
         0xc76c51a3, 0x27333ba3, 0xd363665b, 0xa2b92f73, 0x83b7e3b4,
         0x422dc671, 0xd766056e, 0x1993cbdf, 0x9d4baf93, 0xfda24c2e);
    Next(words, 44, 0x9d4baf93, 0x17aa0dfe, 0xdf46652f, 0xd6670766, 0xfda24c2e, 0xdecd4715, 0x838b2711, 0x26352d63,
         0xd192e819, 0x0c4763f2, 0xef0f2a07, 0xde896715, 0xd1a80a8a,
         0xb5704fcc, 0x9f4a2dbf, 0x54ba7d8b, 0x26628815, 0xa80f11f0);
    Next(words, 45, 0x26628815, 0x9d4baf93, 0x17aa0dfe, 0xdf46652f, 0xa80f11f0, 0xfda24c2e, 0xdecd4715, 0x838b2711,
         0xd6990624, 0x840abf27, 0xfb3dc5f1, 0xfec24625, 0xd82ef872,
         0x8311c588, 0x176a8d97, 0x9a7c531f, 0x72ab4b91, 0xb7755da1);
    Next(words, 46, 0x72ab4b91, 0x26628815, 0x9d4baf93, 0x17aa0dfe, 0xb7755da1, 0xa80f11f0, 0xfda24c2e, 0xdecd4715,
         0xf40e3585, 0x7a290d5d, 0x8845eb06, 0xe88711ae, 0xbdd186ab,
         0xad0f0274, 0x366b8b91, 0xe37a8e05, 0xa14c14b0, 0xd57b94a9);
    Next(words, 47, 0xa14c14b0, 0x72ab4b91, 0x26628815, 0x9d4baf93, 0xd57b94a9, 0xb7755da1, 0xa80f11f0, 0xfda24c2e,
         0x106aa070, 0x065c43da, 0x8fa515ca, 0xbd7515f1, 0x61835c33,
         0xbd84cdc9, 0x226a0891, 0xdfeed65a, 0x4172328d, 0xfecf0bc6);
  }

  lemma Rounds48(words: seq<word>)
    requires |words| == 16 && Scheduled(words, 64)
    requires Rounds(INITIAL, words, 48) ==
             Regs(0x4172328d, 0xa14c14b0, 0x72ab4b91, 0x26628815, 0xfecf0bc6, 0xd57b94a9, 0xb7755da1, 0xa80f11f0)
    ensures Rounds(INITIAL, words, 56) ==
            Regs(0x38cc9913, 0x3ec45cdb, 0xf5702fdb, 0x101fd28f, 0x54cb266b, 0xe50e1b4f, 0x9f4787c3, 0x529e7d00)
  {
    hide Rounds, Schedule, Scheduled, K, W;
    KRow(6, 0x19a4c116, 0x1e376c08, 0x2748774c, 0x34b0bcb5, 0x391c0cb3, 0x4ed8aa4a, 0x5b9cca4f, 0x682e6ff3);
    WRow(6, 0xfb3e89cb, 0xcc7617db, 0xb9e66c34, 0xa9993667, 0x84badedd, 0xc21462bc, 0x1487472c, 0xb20f7a99);
    Next(words, 48, 0x4172328d, 0xa14c14b0, 0x72ab4b91, 0x26628815, 0xfecf0bc6, 0xd57b94a9, 0xb7755da1, 0xa80f11f0,
         0x19a4c116, 0xfb3e89cb, 0x04a106b1, 0xd57b54a1, 0x970eb823,
         0x0cfcb237, 0x616a1291, 0x6e66c4c8, 0x05757ceb, 0xbd714038);
    Next(words, 49, 0x05757ceb, 0x4172328d, 0xa14c14b0, 0x72ab4b91, 0xbd714038, 0xfecf0bc6, 0xd57b94a9, 0xb7755da1,
         0x1e376c08, 0xcc7617db, 0x5d427776, 0xfc4b9481, 0xfbb0ed7b,
         0xf3f6d884, 0x017434a9, 0xf56b0d2d, 0xf11bfaa8, 0x6e5c390c);
    Next(words, 50, 0xf11bfaa8, 0x05757ceb, 0x4172328d, 0xa14c14b0, 0x6e5c390c, 0xbd714038, 0xfecf0bc6, 0xd57b94a9,
         0x2748774c, 0xb9e66c34, 0x3e283d54, 0xbcd302ca, 0xb1a5b847,
         0x86ebd5b1, 0x41737aa9, 0xc85f505a, 0x7a0508a1, 0x52f1ccf7);
    Next(words, 51, 0x7a0508a1, 0xf11bfaa8, 0x05757ceb, 0x4172328d, 0x52f1ccf7, 0x6e5c390c, 0xbd714038, 0xfecf0bc6,
         0x34b0bcb5, 0xa9993667, 0x3b47e2a3, 0xef50080c, 0x07b0e991,
         0x0fa817e8, 0x711578a9, 0x80bd9091, 0x886e7a22, 0x49231c1e);
    Next(words, 52, 0x886e7a22, 0x7a0508a1, 0xf11bfaa8, 0x05757ceb, 0x49231c1e, 0x52f1ccf7, 0x6e5c390c, 0xbd714038,
         0x391c0cb3, 0x84badedd, 0x6b63a737, 0x667d2d16, 0x4d290015,
         0xcae757da, 0xf80f7aa0, 0xc2f6d27a, 0x101fd28f, 0x529e7d00);
    Next(words, 53, 0x101fd28f, 0x886e7a22, 0x7a0508a1, 0xf11bfaa8, 0x529e7d00, 0x49231c1e, 0x52f1ccf7, 0x6e5c390c,
         0x4ed8aa4a, 0xc21462bc, 0xee7eaa12, 0x40639cf7, 0xae2b8d1b,
         0x2f35481d, 0x180f5aa3, 0x4744a2c0, 0xf5702fdb, 0x9f4787c3);
    Next(words, 54, 0xf5702fdb, 0x101fd28f, 0x886e7a22, 0x7a0508a1, 0x9f4787c3, 0x529e7d00, 0x49231c1e, 0x52f1ccf7,
         0x5b9cca4f, 0x1487472c, 0x55cd1720, 0x52261d1c, 0x6b0912ae,
         0x433ccfa2, 0x907e7a8b, 0xd3bb4a2d, 0x3ec45cdb, 0xe50e1b4f);
    Next(words, 55, 0x3ec45cdb, 0xf5702fdb, 0x101fd28f, 0x886e7a22, 0xe50e1b4f, 0x9f4787c3, 0x529e7d00, 0x49231c1e,
         0x682e6ff3, 0xb20f7a99, 0xd1653e5c, 0x97966743, 0xcc5cac49,
         0x381b8def, 0x34545edb, 0x6c6fecca, 0x38cc9913, 0x54cb266b);
  }

  lemma Rounds56(words: seq<word>)
    requires |words| == 16 && Scheduled(words, 64)
    requires Rounds(INITIAL, words, 56) ==
             Regs(0x38cc9913, 0x3ec45cdb, 0xf5702fdb, 0x101fd28f, 0x54cb266b, 0xe50e1b4f, 0x9f4787c3, 0x529e7d00)
    ensures Rounds(INITIAL, words, 64) ==
            Regs(0x506e3058, 0xd39a2165, 0x04d24d6c, 0xb85e2ce9, 0x5ef50f24, 0xfb121210, 0x948d25b6, 0x961f4894)
  {
    hide Rounds, Schedule, Scheduled, K, W;
    KRow(7, 0x748f82ee, 0x78a5636f, 0x84c87814, 0x8cc70208, 0x90befffa, 0xa4506ceb, 0xbef9a3f7, 0xc67178f2);
    WRow(7, 0xef57b9cd, 0xebe6b238, 0x9fe3095e, 0x78bc8d4b, 0xa43fcf15, 0x668b2ff8, 0xeeaba2cc, 0x12b1edeb);
    Next(words, 56, 0x38cc9913, 0x3ec45cdb, 0xf5702fdb, 0x101fd28f, 0x54cb266b, 0xe50e1b4f, 0x9f4787c3, 0x529e7d00,
         0x748f82ee, 0xef57b9cd, 0x05aa8057, 0xcf0e83cb, 0x8b3ebddd,
         0x34ceacc3, 0x3cc41ddb, 0x7192ca9e, 0xfcd1887b, 0x9b5e906c);
    Next(words, 57, 0xfcd1887b, 0x38cc9913, 0x3ec45cdb, 0xf5702fdb, 0x9b5e906c, 0x54cb266b, 0xe50e1b4f, 0x9f4787c3,
         0x78a5636f, 0xebe6b238, 0x10b627de, 0x744a0b6b, 0x88d3d0b3,
         0xfaca6b61, 0x3cc4985b, 0x378f03bc, 0xc062d46f, 0x7e44008e);
    Next(words, 58, 0xc062d46f, 0xfcd1887b, 0x38cc9913, 0x3ec45cdb, 0x7e44008e, 0x9b5e906c, 0x54cb266b, 0xe50e1b4f,
         0x84c87814, 0x9fe3095e, 0x0a369fbd, 0x1acf266d, 0x2ebf62eb,
         0xd837090c, 0xf8c0987b, 0xd0f7a187, 0xffb70472, 0x6d83bfc6);
    Next(words, 59, 0xffb70472, 0xc062d46f, 0xfcd1887b, 0x38cc9913, 0x6d83bfc6, 0x7e44008e, 0x9b5e906c, 0x54cb266b,
         0x8cc70208, 0x78bc8d4b, 0x20a45dbe, 0xfe5c00ae, 0x794f142a,
         0x406bf75a, 0xfcf3847b, 0x3d5f7bd5, 0xb6ae8fff, 0xb21bad3d);
    Next(words, 60, 0xb6ae8fff, 0xffb70472, 0xc062d46f, 0xfcd1887b, 0xb21bad3d, 0x6d83bfc6, 0x7e44008e, 0x9b5e906c,
         0x90befffa, 0xa43fcf15, 0x5ca8b318, 0x6c47ad86, 0x994dc019,
         0x2869e851, 0xf6a6847f, 0x1f106cd0, 0xb85e2ce9, 0x961f4894);
    Next(words, 61, 0xb85e2ce9, 0xb6ae8fff, 0xffb70472, 0xc062d46f, 0x961f4894, 0xb21bad3d, 0x6d83bfc6, 0x7e44008e,
         0xa4506ceb, 0x668b2ff8, 0x4f6ef480, 0xfb9bbf56, 0xd42a5147,
         0x71e9ef2a, 0xbebe0cfb, 0x30a7fc25, 0x04d24d6c, 0x948d25b6);
    Next(words, 62, 0x04d24d6c, 0xb85e2ce9, 0xb6ae8fff, 0xffb70472, 0x948d25b6, 0x961f4894, 0xb21bad3d, 0x6d83bfc6,
         0xbef9a3f7, 0xeeaba2cc, 0x2a127e78, 0xb61f889d, 0xfb5b0d9e,
         0x236105da, 0xb4de0ded, 0xd83f13c7, 0xd39a2165, 0xfb121210);
    Next(words, 63, 0xd39a2165, 0x04d24d6c, 0xb85e2ce9, 0xb6ae8fff, 0xfb121210, 0x948d25b6, 0x961f4894, 0xb21bad3d,
         0xc67178f2, 0x12b1edeb, 0x88fa2277, 0x940d4894, 0xa8467f25,
         0x174d83c6, 0x90da2d6d, 0xa827b133, 0x506e3058, 0x5ef50f24);
  }

  const ABC: seq<byte> := [0x61, 0x62, 0x63]

  function AbcBlock(): (b: seq<byte>)
    ensures |b| == 64
  {
    ABC + [0x80] + Zeros(52) + Encode64(24)
  }

  lemma AbcPadded()
    ensures Blocks(Padded(ABC, Encode64(24))) == [AbcBlock()]
  {
    PaddedBlocks(ABC, Encode64(24));
    assert Tail(ABC) == ABC && Blocks(ABC) == [];
    assert [] + [AbcBlock()] == [AbcBlock()];
  }

  lemma AbcLength()
    ensures Encode64(24) == [0, 0, 0, 0, 0, 0, 0, 0x18]
  {
    hide Octet;
    assert 24 % 256 == 24;
    assert Octet(0) == 0 && Octet(24) == 0x18 by { SmallOctets(); }
  }

  lemma SmallOctets()
    ensures Octet(0) == 0 && Octet(24) == 0x18
  {
  }

  lemma AbcWords()
    ensures Scheduled(Words(AbcBlock()), 16)
  {
    hide Encode64, Decode32;
    var b, words := AbcBlock(), Words(AbcBlock());
    AbcLength();
    DecodedWords();
    forall i | 0 <= i < 16 ensures Schedule(words, i) == W(i) {
      assert b[4 * i..4 * i + 4] == [b[4 * i], b[4 * i + 1], b[4 * i + 2], b[4 * i + 3]];
      FirstWords(i);
    }
  }

  lemma DecodedWords()
    ensures Decode32(0x61, 0x62, 0x63, 0x80) == 0x61626380
    ensures Decode32(0, 0, 0, 0) == 0 && Decode32(0, 0, 0, 0x18) == 0x18
  {
  }

  lemma FirstWords(i: nat)
    requires i < 16
    ensures W(i) == if i == 0 then 0x61626380 else if i == 15 then 0x18 else 0
  {
    assert i / 8 == if i < 8 then 0 else 1;
  }

  lemma AbcRounds()
    ensures Rounds(INITIAL, Words(AbcBlock()), 64) ==
            Regs(0x506e3058, 0xd39a2165, 0x04d24d6c, 0xb85e2ce9, 0x5ef50f24, 0xfb121210, 0x948d25b6, 0x961f4894)
  {
    hide Rounds, Schedule, Scheduled, Words, AbcBlock;
    var words := Words(AbcBlock());
    AbcWords();
    Schedule16(words);
    Schedule24(words);
    Schedule32(words);
    Schedule40(words);
    Schedule48(words);
    Schedule56(words);
    assert Rounds(INITIAL, words, 0) == INITIAL by { NoRounds(words); }
    Rounds0(words);
    Rounds8(words);
    Rounds16(words);
    Rounds24(words);
    Rounds32(words);
    Rounds40(words);
    Rounds48(words);
    Rounds56(words);
  }

  lemma NoRounds(words: seq<word>)
    requires |words| == 16
    ensures Rounds(INITIAL, words, 0) == INITIAL
  {
  }

  /** The registers of the digest. */
  lemma AbcRegs()
    ensures Compress(INITIAL, AbcBlock()) ==
            Regs(0xba7816bf, 0x8f01cfea, 0x414140de, 0x5dae2223, 0xb00361a3, 0x96177a9c, 0xb410ff61, 0xf20015ad)
  {
    hide Rounds, Words, AbcBlock;
    AbcRounds();
  }

  lemma EncodedWords(a: word, b: word, c: word, d: word, e: word, f: word, g: word, h: word)
    ensures EncodeRegs(Regs(a, b, c, d, e, f, g, h)) ==
            Encode(a) + Encode(b) + Encode(c) + Encode(d) + Encode(e) + Encode(f) + Encode(g) + Encode(h)
  {
    hide Encode;
    var s := [a, b, c, d, e, f, g, h];
    assert s[..7][..6] == s[..6] && s[..6][..5] == s[..5] && s[..5][..4] == s[..4] && s[..4][..3] == s[..3];
    assert s[..3][..2] == s[..2] && s[..2][..1] == s[..1] && s[..1][..0] == [];
    assert EncodeWords(s[..1]) == [] + Encode(a) && EncodeWords(s[..2]) == Encode(a) + Encode(b);
    assert EncodeWords(s[..3]) == Encode(a) + Encode(b) + Encode(c);
    assert EncodeWords(s[..4]) == Encode(a) + Encode(b) + Encode(c) + Encode(d);
    assert EncodeWords(s[..5]) == Encode(a) + Encode(b) + Encode(c) + Encode(d) + Encode(e);
    assert EncodeWords(s[..6]) == Encode(a) + Encode(b) + Encode(c) + Encode(d) + Encode(e) + Encode(f);
    assert EncodeWords(s[..7]) == Encode(a) + Encode(b) + Encode(c) + Encode(d) + Encode(e) + Encode(f) + Encode(g);
  }

  /** The bytes of a word that is known. */
  lemma Encoded(u: word, a: byte, b: byte, c: byte, d: byte)
    requires ((u >> 24) & 0xff) as byte == a && ((u >> 16) & 0xff) as byte == b
    requires ((u >> 8) & 0xff) as byte == c && ((u >> 0) & 0xff) as byte == d
    ensures Encode(u) == [a, b, c, d]
  {
    hide Byte;
    BytesAre(u, a, b, c, d);
  }

  lemma BytesAre(u: word, a: byte, b: byte, c: byte, d: byte)
    requires ((u >> 24) & 0xff) as byte == a && ((u >> 16) & 0xff) as byte == b
    requires ((u >> 8) & 0xff) as byte == c && ((u >> 0) & 0xff) as byte == d
    ensures Byte(u, 24) == a && Byte(u, 16) == b && Byte(u, 8) == c && Byte(u, 0) == d
  {
  }

  /** The digest of abc. */
  lemma AbcDigest()
    ensures Digest(ABC) ==
            [0xba, 0x78, 0x16, 0xbf, 0x8f, 0x01, 0xcf, 0xea, 0x41, 0x41, 0x40, 0xde, 0x5d, 0xae, 0x22, 0x23,
             0xb0, 0x03, 0x61, 0xa3, 0x96, 0x17, 0x7a, 0x9c, 0xb4, 0x10, 0xff, 0x61, 0xf2, 0x00, 0x15, 0xad]
  {
    hide EncodeRegs, Encode, Encode64, AbcBlock, Padded, Blocks, Compress, Fold, Digest;
    DigestParts();
    AbcPadded();
    AbcRegs();
    OneCompressed(AbcBlock());
    EncodedWords(0xba7816bf, 0x8f01cfea, 0x414140de, 0x5dae2223, 0xb00361a3, 0x96177a9c, 0xb410ff61, 0xf20015ad);
    Encoded(0xba7816bf, 0xba, 0x78, 0x16, 0xbf);
    Encoded(0x8f01cfea, 0x8f, 0x01, 0xcf, 0xea);
    Encoded(0x414140de, 0x41, 0x41, 0x40, 0xde);
    Encoded(0x5dae2223, 0x5d, 0xae, 0x22, 0x23);
    Encoded(0xb00361a3, 0xb0, 0x03, 0x61, 0xa3);
    Encoded(0x96177a9c, 0x96, 0x17, 0x7a, 0x9c);
    Encoded(0xb410ff61, 0xb4, 0x10, 0xff, 0x61);
    Encoded(0xf20015ad, 0xf2, 0x00, 0x15, 0xad);
  }

  lemma DigestParts()
    ensures Digest(ABC) == EncodeRegs(Fold(Compress, INITIAL, Blocks(Padded(ABC, Encode64(24)))))
  {
    hide EncodeRegs, Encode64, Padded, Blocks, Compress, Fold;
    assert 8 * |ABC| % MAX_SIZE == 24;
  }

  lemma OneCompressed(block: seq<byte>)
    requires |block| == 64
    ensures Fold(Compress, INITIAL, [block]) == Compress(INITIAL, block)
  {
    hide Compress;
    assert [block][..0] == [];
  }
}
