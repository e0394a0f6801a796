/** A test vector of RFC 1321, appendix A.5: the digest of the three bytes abc, as the definition gives it. */
module Md5Vector {
  import opened HashBlocks
  import opened Md5

  /** The words of the one block that abc is padded to. */
  predicate AbcSchedule(words: seq<word>) {
    |words| == 16 && forall k :: 0 <= k < 16 ==> words[k] == if k == 0 then 0x80636261 else if k == 14 then 0x18 else 0
  }

  /** One operation, on words that are known. */
  lemma Next(words: seq<word>, i: nat, a: word, b: word, c: word, d: word, f: word, x: word, t: word, s: nat, sum: word,
             r: word, b': word)
    requires AbcSchedule(words) && i < 64 && T(i) == t && Shift(i) == s && 0 < s < 32
    requires x == if Index(i) == 0 then 0x80636261 else if Index(i) == 14 then 0x18 else 0
    requires Operations(INITIAL, words, i) == Regs(a, b, c, d)
    requires i < 16 ==> f == (b & c) | (!b & d)
    requires 16 <= i < 32 ==> f == (b & d) | (c & !d)
    requires 32 <= i < 48 ==> f == b ^ c ^ d
    requires 48 <= i ==> f == c ^ (b | !d)
    requires sum == a + f + x + t && Turned(sum, s, r) && b' == b + r
    ensures Operations(INITIAL, words, i + 1) == Regs(d, b', b, c)
  {
    hide T, Shift, Index, Auxiliary, Added, Plus, RotateLeft;
    assert words[Index(i)] == x;
    AuxiliaryValue(i, b, c, d, f);
    AddedValue(a, f, x, t, sum);
    RotateValue(sum, s, r);
    PlusValue(b, r, b');
  }

  lemma AuxiliaryValue(i: nat, x: word, y: word, z: word, v: word)
    requires i < 16 ==> v == (x & y) | (!x & z)
    requires 16 <= i < 32 ==> v == (x & z) | (y & !z)
    requires 32 <= i < 48 ==> v == x ^ y ^ z
    requires 48 <= i ==> v == y ^ (x | !z)
    ensures Auxiliary(i, x, y, z) == v
  {
    hide F, G, H, I;
    FValue(x, y, z);
    GValue(x, y, z);
    HValue(x, y, z);
    IValue(x, y, z);
  }

  lemma FValue(x: word, y: word, z: word)
    ensures F(x, y, z) == (x & y) | (!x & z)
  {
  }

  lemma GValue(x: word, y: word, z: word)
    ensures G(x, y, z) == (x & z) | (y & !z)
  {
  }

  lemma HValue(x: word, y: word, z: word)
    ensures H(x, y, z) == x ^ y ^ z
  {
  }

  lemma IValue(x: word, y: word, z: word)
    ensures I(x, y, z) == y ^ (x | !z)
  {
  }

  lemma AddedValue(a: word, f: word, x: word, t: word, v: word)
    requires v == a + f + x + t
    ensures Added(a, f, x, t) == v
  {
  }

  /** Rotation by one of the amounts that occur. */
  predicate Turned(x: word, s: nat, v: word) {
    match s
    case 4 => v == x.RotateLeft(4)
    case 5 => v == x.RotateLeft(5)
    case 6 => v == x.RotateLeft(6)
    case 7 => v == x.RotateLeft(7)
    case 9 => v == x.RotateLeft(9)
    case 10 => v == x.RotateLeft(10)
    case 11 => v == x.RotateLeft(11)
    case 12 => v == x.RotateLeft(12)
    case 14 => v == x.RotateLeft(14)
    case 15 => v == x.RotateLeft(15)
    case 16 => v == x.RotateLeft(16)
    case 17 => v == x.RotateLeft(17)
    case 20 => v == x.RotateLeft(20)
    case 21 => v == x.RotateLeft(21)
    case 22 => v == x.RotateLeft(22)
    case 23 => v == x.RotateLeft(23)
    case _ => false
  }

  lemma RotateValue(x: word, s: nat, v: word)
    requires Turned(x, s, v)
    ensures 0 < s < 32 && RotateLeft(x, s) == v
  {
    hide RotateLeft;
    AmountsF(x);
    AmountsG(x);
    AmountsH(x);
    AmountsI(x);
  }

  lemma AmountsF(x: word)
    ensures RotateLeft(x, 7) == x.RotateLeft(7) && RotateLeft(x, 12) == x.RotateLeft(12)
    ensures RotateLeft(x, 17) == x.RotateLeft(17) && RotateLeft(x, 22) == x.RotateLeft(22)
  {
  }

  lemma AmountsG(x: word)
    ensures RotateLeft(x, 5) == x.RotateLeft(5) && RotateLeft(x, 9) == x.RotateLeft(9)
    ensures RotateLeft(x, 14) == x.RotateLeft(14) && RotateLeft(x, 20) == x.RotateLeft(20)
  {
  }

  lemma AmountsH(x: word)
    ensures RotateLeft(x, 4) == x.RotateLeft(4) && RotateLeft(x, 11) == x.RotateLeft(11)
    ensures RotateLeft(x, 16) == x.RotateLeft(16) && RotateLeft(x, 23) == x.RotateLeft(23)
  {
  }

  lemma AmountsI(x: word)
    ensures RotateLeft(x, 6) == x.RotateLeft(6) && RotateLeft(x, 10) == x.RotateLeft(10)
    ensures RotateLeft(x, 15) == x.RotateLeft(15) && RotateLeft(x, 21) == x.RotateLeft(21)
  {
  }

  lemma PlusValue(x: word, y: word, v: word)
    requires v == x + y
    ensures Plus(x, y) == v
  {
  }

  lemma Operations0(words: seq<word>)
    requires AbcSchedule(words)
    requires Operations(INITIAL, words, 0) == Regs(0x67452301, 0xefcdab89, 0x98badcfe, 0x10325476)
    ensures Operations(INITIAL, words, 4) == Regs(0xd6d117b4, 0x7ad956f2, 0x2f6fbd72, 0x344a8432)
  {
    hide Operations, AbcSchedule;
    Next(words, 0, 0x67452301, 0xefcdab89, 0x98badcfe, 0x10325476, 0x98badcfe, 0x80636261,
         0xd76aa478, 7, 0x57ce06d8, 0xe7036c2b, 0xd6d117b4);
    Next(words, 1, 0x10325476, 0xd6d117b4, 0xefcdab89, 0x98badcfe, 0xceebcbca, 0x00000000,
         0xe8c7b756, 12, 0xc7e5d796, 0x5d796c7e, 0x344a8432);
    Next(words, 2, 0x98badcfe, 0x344a8432, 0xd6d117b4, 0xefcdab89, 0xdfc52fb9, 0x00000000,
         0x242070db, 17, 0x9ca07d92, 0xfb253940, 0x2f6fbd72);
    Next(words, 3, 0xefcdab89, 0x2f6fbd72, 0x344a8432, 0xd6d117b4, 0xf4da86b6, 0x00000000,
         0xc1bdceee, 22, 0xa666012d, 0x4b699980, 0x7ad956f2);
  }

  lemma Operations4(words: seq<word>)
    requires AbcSchedule(words)
    requires Operations(INITIAL, words, 4) == Regs(0xd6d117b4, 0x7ad956f2, 0x2f6fbd72, 0x344a8432)
    ensures Operations(INITIAL, words, 8) == Regs(0xc73741ef, 0x928d99f6, 0x207dc67b, 0x8bac3051)
  {
    hide Operations, AbcSchedule;
    Next(words, 4, 0xd6d117b4, 0x7ad956f2, 0x2f6fbd72, 0x344a8432, 0x2e4b9472, 0x00000000,
         0xf57c0faf, 7, 0xfa98bbd5, 0x4c5deafd, 0xc73741ef);
    Next(words, 5, 0x344a8432, 0xc73741ef, 0x7ad956f2, 0x2f6fbd72, 0x6a59fcf2, 0x00000000,
         0x4787c62a, 12, 0xe62c474e, 0xc474ee62, 0x8bac3051);
    Next(words, 6, 0x2f6fbd72, 0x8bac3051, 0xc73741ef, 0x7ad956f2, 0xf37546e3, 0x00000000,
         0xa8304613, 17, 0xcb154a68, 0x94d1962a, 0x207dc67b);
    Next(words, 7, 0x7ad956f2, 0x207dc67b, 0x8bac3051, 0xc73741ef, 0xc72e01d5, 0x00000000,
         0xfd469501, 22, 0x3f4dedc8, 0x720fd37b, 0x928d99f6);
  }

  lemma Operations8(words: seq<word>)
    requires AbcSchedule(words)
    requires Operations(INITIAL, words, 8) == Regs(0xc73741ef, 0x928d99f6, 0x207dc67b, 0x8bac3051)
    ensures Operations(INITIAL, words, 12) == Regs(0x854b3712, 0x5ed49596, 0x3020401c, 0x74e2f284)
  {
    hide Operations, AbcSchedule;
    Next(words, 8, 0xc73741ef, 0x928d99f6, 0x207dc67b, 0x8bac3051, 0x092da073, 0x00000000,
         0x698098d8, 7, 0x39e57b3a, 0xf2bd9d1c, 0x854b3712);
    Next(words, 9, 0x8bac3051, 0x854b3712, 0x928d99f6, 0x207dc67b, 0xa03dd17b, 0x00000000,
         0x8b44f7af, 12, 0xb72ef97b, 0xef97bb72, 0x74e2f284);
    Next(words, 10, 0x207dc67b, 0x74e2f284, 0x854b3712, 0x928d99f6, 0x864f3b72, 0x00000000,
         0xffff5bb1, 17, 0xa6cc5d9e, 0xbb3d4d98, 0x3020401c);
    Next(words, 11, 0x928d99f6, 0x3020401c, 0x74e2f284, 0x854b3712, 0xb56b7706, 0x00000000,
         0x895cd7be, 22, 0xd155e8ba, 0x2eb4557a, 0x5ed49596);
  }

  lemma Operations12(words: seq<word>)
    requires AbcSchedule(words)
    requires Operations(INITIAL, words, 12) == Regs(0x854b3712, 0x5ed49596, 0x3020401c, 0x74e2f284)
    ensures Operations(INITIAL, words, 16) == Regs(0xdda9b9a6, 0x72aff2e0, 0xe396856b, 0xa1051895)
  {
    hide Operations, AbcSchedule;
    Next(words, 12, 0x854b3712, 0x5ed49596, 0x3020401c, 0x74e2f284, 0x30226214, 0x00000000,
         0x6b901122, 7, 0x20fdaa48, 0x7ed52410, 0xdda9b9a6);
    Next(words, 13, 0x74e2f284, 0xdda9b9a6, 0x5ed49596, 0x3020401c, 0x7c80d19e, 0x00000000,
         0xfd987193, 12, 0xeefc35b5, 0xc35b5eef, 0xa1051895);
    Next(words, 14, 0x3020401c, 0xa1051895, 0xdda9b9a6, 0x5ed49596, 0xdfd19d86, 0x00000018,
         0xa679438e, 17, 0xb66b2148, 0x42916cd6, 0xe396856b);
    Next(words, 15, 0x5ed49596, 0xe396856b, 0xa1051895, 0xdda9b9a6, 0xbd2d3885, 0x00000000,
         0x49b40821, 22, 0x65b5d63c, 0x8f196d75, 0x72aff2e0);
  }

  lemma Operations16(words: seq<word>)
    requires AbcSchedule(words)
    requires Operations(INITIAL, words, 16) == Regs(0xdda9b9a6, 0x72aff2e0, 0xe396856b, 0xa1051895)
    ensures Operations(INITIAL, words, 20) == Regs(0x3e9e9126, 0xb5b204e4, 0xe25e1652, 0x4a1d804e)
  {
    hide Operations, AbcSchedule;
    Next(words, 16, 0xdda9b9a6, 0x72aff2e0, 0xe396856b, 0xa1051895, 0x629795ea, 0x00000000,
         0xf61e2562, 5, 0x365f74f2, 0xcbee9e46, 0x3e9e9126);
    Next(words, 17, 0xa1051895, 0x3e9e9126, 0x72aff2e0, 0xe396856b, 0x32bff3a2, 0x00000000,
         0xc040b340, 9, 0x9405bf77, 0x0b7eef28, 0x4a1d804e);
    Next(words, 18, 0xe396856b, 0x4a1d804e, 0x3e9e9126, 0x72aff2e0, 0x4e1d8146, 0x00000000,
         0x265e5a51, 14, 0x58126102, 0x98409604, 0xe25e1652);
    Next(words, 19, 0x72aff2e0, 0xe25e1652, 0x4a1d804e, 0x3e9e9126, 0x621f104a, 0x80636261,
         0xe9b6c7aa, 20, 0x3ee92d35, 0xd353ee92, 0xb5b204e4);
  }

  lemma Operations20(words: seq<word>)
    requires AbcSchedule(words)
    requires Operations(INITIAL, words, 20) == Regs(0x3e9e9126, 0xb5b204e4, 0xe25e1652, 0x4a1d804e)
    ensures Operations(INITIAL, words, 24) == Regs(0x59a8ffda, 0x47092c07, 0xabfc7920, 0x6d002f1e)
  {
    hide Operations, AbcSchedule;
    Next(words, 20, 0x3e9e9126, 0xb5b204e4, 0xe25e1652, 0x4a1d804e, 0xa0521654, 0x00000000,
         0xd62f105d, 5, 0xb51fb7d7, 0xa3f6faf6, 0x59a8ffda);
    Next(words, 21, 0x4a1d804e, 0x59a8ffda, 0xb5b204e4, 0xe25e1652, 0x55a816f6, 0x00000000,
         0x02441453, 9, 0xa209ab97, 0x13572f44, 0x6d002f1e);
    Next(words, 22, 0xe25e1652, 0x6d002f1e, 0x59a8ffda, 0xb5b204e4, 0x6d08ff1e, 0x00000000,
         0xd8a1e681, 14, 0x2808fbf1, 0x3efc4a02, 0xabfc7920);
    Next(words, 23, 0xb5b204e4, 0xabfc7920, 0x6d002f1e, 0x59a8ffda, 0x2da87904, 0x00000000,
         0xe7d3fbc8, 20, 0xcb2e79b0, 0x9b0cb2e7, 0x47092c07);
  }

  lemma Operations24(words: seq<word>)
    requires AbcSchedule(words)
    requires Operations(INITIAL, words, 24) == Regs(0x59a8ffda, 0x47092c07, 0xabfc7920, 0x6d002f1e)
    ensures Operations(INITIAL, words, 28) == Regs(0xb7f268cf, 0x786acb8f, 0xfe1623b1, 0x09388eff)
  {
    hide Operations, AbcSchedule;
    Next(words, 24, 0x59a8ffda, 0x47092c07, 0xabfc7920, 0x6d002f1e, 0xc7fc7c26, 0x00000000,
         0x21e1cde6, 5, 0x438749e6, 0x70e93cc8, 0xb7f268cf);
    Next(words, 25, 0x6d002f1e, 0xb7f268cf, 0x47092c07, 0xabfc7920, 0xe7f16c07, 0x00000018,
         0xc33707d6, 9, 0x1828a313, 0x51462630, 0x09388eff);
    Next(words, 26, 0xabfc7920, 0x09388eff, 0xb7f268cf, 0x47092c07, 0xb1fa4ccf, 0x00000000,
         0xf4d50d87, 14, 0x52cbd376, 0xf4dd94b2, 0xfe1623b1);
    Next(words, 27, 0x47092c07, 0xfe1623b1, 0x09388eff, 0xb7f268cf, 0xbe1aa6b1, 0x00000000,
         0x455a14ed, 20, 0x4a7de7a5, 0x7a54a7de, 0x786acb8f);
  }

  lemma Operations28(words: seq<word>)
    requires AbcSchedule(words)
    requires Operations(INITIAL, words, 28) == Regs(0xb7f268cf, 0x786acb8f, 0xfe1623b1, 0x09388eff)
    ensures Operations(INITIAL, words, 32) == Regs(0x790a77fb, 0x726342d3, 0xa62884aa, 0x9f47e4f8)
  {
    hide Operations, AbcSchedule;
    Next(words, 28, 0xb7f268cf, 0x786acb8f, 0xfe1623b1, 0x09388eff, 0xfe2eab8f, 0x00000000,
         0xa9e3e905, 5, 0x6004fd63, 0x009fac6c, 0x790a77fb);
    Next(words, 29, 0x09388eff, 0x790a77fb, 0x786acb8f, 0xfe1623b1, 0x786aebbf, 0x00000000,
         0xfcefa3f8, 9, 0x7e931eb6, 0x263d6cfd, 0x9f47e4f8);
    Next(words, 30, 0xfe1623b1, 0x9f47e4f8, 0x790a77fb, 0x786acb8f, 0x1942f4f8, 0x00000000,
         0x676f02d9, 14, 0x7ec81b82, 0x06e09fb2, 0xa62884aa);
    Next(words, 31, 0x786acb8f, 0xa62884aa, 0x9f47e4f8, 0x790a77fb, 0xa64d84aa, 0x00000000,
         0x8d2a4c8a, 20, 0xabe29cc3, 0xcc3abe29, 0x726342d3);
  }

  lemma Operations32(words: seq<word>)
    requires AbcSchedule(words)
    requires Operations(INITIAL, words, 32) == Regs(0x790a77fb, 0x726342d3, 0xa62884aa, 0x9f47e4f8)
    ensures Operations(INITIAL, words, 36) == Regs(0xb3707ebf, 0x3b0875c7, 0x8d212ff5, 0x60127b2e)
  {
    hide Operations, AbcSchedule;
    Next(words, 32, 0x790a77fb, 0x726342d3, 0xa62884aa, 0x9f47e4f8, 0x4b0c2281, 0x00000000,
         0xfffa3942, 4, 0xc410d3be, 0x410d3bec, 0xb3707ebf);
    Next(words, 33, 0x9f47e4f8, 0xb3707ebf, 0x726342d3, 0xa62884aa, 0x673bb8c6, 0x00000000,
         0x8771f681, 11, 0x8df5943f, 0xaca1fc6f, 0x60127b2e);
    Next(words, 34, 0xa62884aa, 0x60127b2e, 0xb3707ebf, 0x726342d3, 0xa1014742, 0x00000000,
         0x6d9d6122, 16, 0xb4c72d0e, 0x2d0eb4c7, 0x8d212ff5);
    Next(words, 35, 0x726342d3, 0x8d212ff5, 0x60127b2e, 0xb3707ebf, 0x5e432a64, 0x00000018,
         0xfde5380c, 23, 0xce8ba55b, 0xade745d2, 0x3b0875c7);
  }

  lemma Operations36(words: seq<word>)
    requires AbcSchedule(words)
    requires Operations(INITIAL, words, 36) == Regs(0xb3707ebf, 0x3b0875c7, 0x8d212ff5, 0x60127b2e)
    ensures Operations(INITIAL, words, 40) == Regs(0x21b117b9, 0x5a2f5ea5, 0x3575227e, 0x6e7429d5)
  {
    hide Operations, AbcSchedule;
    Next(words, 36, 0xb3707ebf, 0x3b0875c7, 0x8d212ff5, 0x60127b2e, 0xd63b211c, 0x00000000,
         0xa4beea44, 4, 0x2e6a8a1f, 0xe6a8a1f2, 0x21b117b9);
    Next(words, 37, 0x60127b2e, 0x21b117b9, 0x3b0875c7, 0x8d212ff5, 0x97984d8b, 0x00000000,
         0x4bdecfa9, 11, 0x43899862, 0x4cc3121c, 0x6e7429d5);
    Next(words, 38, 0x8d212ff5, 0x6e7429d5, 0x21b117b9, 0x3b0875c7, 0x74cd4bab, 0x00000000,
         0xf6bb4b60, 16, 0xf8a9c700, 0xc700f8a9, 0x3575227e);
    Next(words, 39, 0x3b0875c7, 0x3575227e, 0x6e7429d5, 0x21b117b9, 0x7ab01c12, 0x00000000,
         0xbebfbc70, 23, 0x74784e49, 0x24ba3c27, 0x5a2f5ea5);
  }

  lemma Operations40(words: seq<word>)
    requires AbcSchedule(words)
    requires Operations(INITIAL, words, 40) == Regs(0x21b117b9, 0x5a2f5ea5, 0x3575227e, 0x6e7429d5)
    ensures Operations(INITIAL, words, 44) == Regs(0x11de1779, 0x4c6124f4, 0x31c465ca, 0xfadcaa38)
  {
    hide Operations, AbcSchedule;
    Next(words, 40, 0x21b117b9, 0x5a2f5ea5, 0x3575227e, 0x6e7429d5, 0x012e550e, 0x00000000,
         0x289b7ec6, 4, 0x4b7aeb8d, 0xb7aeb8d4, 0x11de1779);
    Next(words, 41, 0x6e7429d5, 0x11de1779, 0x5a2f5ea5, 0x3575227e, 0x7e846ba2, 0x80636261,
         0xeaa127fa, 11, 0x57fd1fd2, 0xe8fe92bf, 0xfadcaa38);
    Next(words, 42, 0x3575227e, 0xfadcaa38, 0x11de1779, 0x5a2f5ea5, 0xb12de3e4, 0x00000000,
         0xd4ef3085, 16, 0xbb9236e7, 0x36e7bb92, 0x31c465ca);
    Next(words, 43, 0x5a2f5ea5, 0x31c465ca, 0xfadcaa38, 0x11de1779, 0xdac6d88b, 0x00000000,
         0x04881d05, 23, 0x397e5435, 0x1a9cbf2a, 0x4c6124f4);
  }

  lemma Operations44(words: seq<word>)
    requires AbcSchedule(words)
    requires Operations(INITIAL, words, 44) == Regs(0x11de1779, 0x4c6124f4, 0x31c465ca, 0xfadcaa38)
    ensures Operations(INITIAL, words, 48) == Regs(0x7f2e507b, 0x7beb9700, 0x8fae6399, 0x99d9679d)
  {
    hide Operations, AbcSchedule;
    Next(words, 44, 0x11de1779, 0x4c6124f4, 0x31c465ca, 0xfadcaa38, 0x8779eb06, 0x00000000,
         0xd9d4d039, 4, 0x732cd2b8, 0x32cd2b87, 0x7f2e507b);
    Next(words, 45, 0xfadcaa38, 0x7f2e507b, 0x4c6124f4, 0x31c465ca, 0x028b1145, 0x00000000,
         0xe6db99e5, 11, 0xe4435562, 0x1aab1722, 0x99d9679d);
    Next(words, 46, 0x31c465ca, 0x99d9679d, 0x7f2e507b, 0x4c6124f4, 0xaa961312, 0x00000000,
         0x1fa27cf8, 16, 0xfbfcf5d4, 0xf5d4fbfc, 0x8fae6399);
    Next(words, 47, 0x4c6124f4, 0x8fae6399, 0x99d9679d, 0x7f2e507b, 0x6959547f, 0x00000000,
         0xc4ac5665, 23, 0x7a66cfd8, 0xec3d3367, 0x7beb9700);
  }

  lemma Operations48(words: seq<word>)
    requires AbcSchedule(words)
    requires Operations(INITIAL, words, 48) == Regs(0x7f2e507b, 0x7beb9700, 0x8fae6399, 0x99d9679d)
    ensures Operations(INITIAL, words, 52) == Regs(0x7b201df8, 0x8bf025c4, 0xb298cefd, 0xf4e8e96e)
  {
    hide Operations, AbcSchedule;
    Next(words, 48, 0x7f2e507b, 0x7beb9700, 0x8fae6399, 0x99d9679d, 0xf041fcfb, 0x80636261,
         0xf4292244, 6, 0xe3fcd21b, 0xff3486f8, 0x7b201df8);
    Next(words, 49, 0x99d9679d, 0x7b201df8, 0x7beb9700, 0x8fae6399, 0x009a0afe, 0x00000000,
         0x432aff97, 10, 0xdd9e7232, 0x79c8cb76, 0xf4e8e96e);
    Next(words, 50, 0x8fae6399, 0xf4e8e96e, 0x7b201df8, 0x7beb9700, 0x8fdcf407, 0x00000018,
         0xab9423a7, 15, 0xcb1f7b5f, 0xbdafe58f, 0xb298cefd);
    Next(words, 51, 0x7beb9700, 0xb298cefd, 0xf4e8e96e, 0x7b201df8, 0x42370791, 0x00000000,
         0xfc93a039, 21, 0xbab63eca, 0xd95756c7, 0x8bf025c4);
  }

  lemma Operations52(words: seq<word>)
    requires AbcSchedule(words)
    requires Operations(INITIAL, words, 52) == Regs(0x7b201df8, 0x8bf025c4, 0xb298cefd, 0xf4e8e96e)
    ensures Operations(INITIAL, words, 56) == Regs(0x06cc5e8a, 0x3bfa2c27, 0x7d632dd0, 0x5b0d97aa)
  {
    hide Operations, AbcSchedule;
    Next(words, 52, 0x7b201df8, 0x8bf025c4, 0xb298cefd, 0xf4e8e96e, 0x396ff928, 0x00000000,
         0x655b59c3, 6, 0x19eb70e3, 0x7adc38c6, 0x06cc5e8a);
    Next(words, 53, 0xf4e8e96e, 0x06cc5e8a, 0x8bf025c4, 0xb298cefd, 0xc41f5a4e, 0x00000000,
         0x8f0ccc92, 10, 0x4815104e, 0x54413920, 0x5b0d97aa);
    Next(words, 54, 0xb298cefd, 0x5b0d97aa, 0x06cc5e8a, 0x8bf025c4, 0x79c38131, 0x00000000,
         0xffeff47d, 15, 0x2c4c44ab, 0x22559626, 0x7d632dd0);
    Next(words, 55, 0x8bf025c4, 0x7d632dd0, 0x5b0d97aa, 0x06cc5e8a, 0xa67e3a5f, 0x00000000,
         0x85845dd1, 21, 0xb7f2bdf4, 0xbe96fe57, 0x3bfa2c27);
  }

  lemma Operations56(words: seq<word>)
    requires AbcSchedule(words)
    requires Operations(INITIAL, words, 56) == Regs(0x06cc5e8a, 0x3bfa2c27, 0x7d632dd0, 0x5b0d97aa)
    ensures Operations(INITIAL, words, 60) == Regs(0x7f81cc35, 0x7327d604, 0x4f9dbe3f, 0x094454ab)
  {
    hide Operations, AbcSchedule;
    Next(words, 56, 0x06cc5e8a, 0x3bfa2c27, 0x7d632dd0, 0x5b0d97aa, 0xc29941a7, 0x00000000,
         0x6fa87e4f, 6, 0x390e1e80, 0x4387a00e, 0x7f81cc35);
    Next(words, 57, 0x5b0d97aa, 0x7f81cc35, 0x3bfa2c27, 0x7d632dd0, 0xc467f218, 0x00000000,
         0xfe2ce6e0, 10, 0x1da270a2, 0x89c28876, 0x094454ab);
    Next(words, 58, 0x7d632dd0, 0x094454ab, 0x7f81cc35, 0x3bfa2c27, 0xb2c41bce, 0x00000000,
         0xa3014314, 15, 0xd3288cb2, 0x46596994, 0x4f9dbe3f);
    Next(words, 59, 0x3bfa2c27, 0x4f9dbe3f, 0x094454ab, 0x7f81cc35, 0xc6bbeb54, 0x00000000,
         0x4e0811a1, 21, 0x50be291c, 0x238a17c5, 0x7327d604);
  }

  lemma Operations60(words: seq<word>)
    requires AbcSchedule(words)
    requires Operations(INITIAL, words, 60) == Regs(0x7f81cc35, 0x7327d604, 0x4f9dbe3f, 0x094454ab)
    ensures Operations(INITIAL, words, 64) == Regs(0x310ade8f, 0xc08226b3, 0xe484b9d8, 0x624d8cb2)
  {
    hide Operations, AbcSchedule;
    Next(words, 60, 0x7f81cc35, 0x7327d604, 0x4f9dbe3f, 0x094454ab, 0xb822416b, 0x00000000,
         0xf7537e82, 6, 0x2ef78c22, 0xbde3088b, 0x310ade8f);
    Next(words, 61, 0x094454ab, 0x310ade8f, 0x7327d604, 0x4f9dbe3f, 0xc24d09cb, 0x00000000,
         0xbd3af235, 10, 0x88cc50ab, 0x3142ae23, 0x624d8cb2);
    Next(words, 62, 0x4f9dbe3f, 0x624d8cb2, 0x310ade8f, 0x7327d604, 0xdfd77374, 0x00000000,
         0x2ad7d2bb, 15, 0x5a4d046e, 0x82372d26, 0xe484b9d8);
    Next(words, 63, 0x7327d604, 0xe484b9d8, 0x624d8cb2, 0x310ade8f, 0x8cb8354a, 0x00000000,
         0xeb86d391, 21, 0xeb66dedf, 0xdbfd6cdb, 0xc08226b3);
  }

  const ABC: seq<byte> := [0x61, 0x62, 0x63]

  function AbcBlock(): (b: seq<byte>)
    ensures |b| == 64
  {
    ABC + [0x80] + Zeros(52) + Encode64(24)
  }

  lemma AbcPadded()
    ensures Blocks(Padded(ABC, Encode64(24))) == [AbcBlock()]
  {
    PaddedBlocks(ABC, Encode64(24));
    assert Tail(ABC) == ABC && Blocks(ABC) == [];
    assert [] + [AbcBlock()] == [AbcBlock()];
  }

  lemma AbcLength()
    ensures Encode64(24) == [0x18, 0, 0, 0, 0, 0, 0, 0]
  {
    hide Octet;
    assert Octet(0) == 0 && Octet(24) == 0x18 by { SmallOctets(); }
  }

  lemma SmallOctets()
    ensures Octet(0) == 0 && Octet(24) == 0x18
  {
  }

  lemma AbcWords()
    ensures AbcSchedule(Words(AbcBlock()))
  {
    hide Encode64, Decode;
    var b := AbcBlock();
    AbcLength();
    DecodedWords();
    forall i | 0 <= i < 16
      ensures Words(b)[i] == if i == 0 then 0x80636261 else if i == 14 then 0x18 else 0
    {
      assert b[4 * i..4 * i + 4] == [b[4 * i], b[4 * i + 1], b[4 * i + 2], b[4 * i + 3]];
    }
  }

  lemma DecodedWords()
    ensures Decode([0x61, 0x62, 0x63, 0x80]) == 0x80636261
    ensures Decode([0, 0, 0, 0]) == 0 && Decode([0x18, 0, 0, 0]) == 0x18
  {
  }

  lemma AbcOperations()
    ensures Operations(INITIAL, Words(AbcBlock()), 64) == Regs(0x310ade8f, 0xc08226b3, 0xe484b9d8, 0x624d8cb2)
  {
    hide Operations, AbcSchedule, Words, AbcBlock;
    var words := Words(AbcBlock());
    AbcWords();
    assert Operations(INITIAL, words, 0) == INITIAL by { NoOperations(words); }
    Operations0(words);
    Operations4(words);
    Operations8(words);
    Operations12(words);
    Operations16(words);
    Operations20(words);
    Operations24(words);
    Operations28(words);
    Operations32(words);
    Operations36(words);
    Operations40(words);
    Operations44(words);
    Operations48(words);
    Operations52(words);
    Operations56(words);
    Operations60(words);
  }

  lemma NoOperations(words: seq<word>)
    requires |words| == 16
    ensures Operations(INITIAL, words, 0) == INITIAL
  {
  }

  /** The registers of the digest. */
  lemma AbcRegs()
    ensures Compress(INITIAL, AbcBlock()) == Regs(0x98500190, 0xb04fd23c, 0x7d3f96d6, 0x727fe128)
  {
    hide Operations, Words, AbcBlock;
    AbcOperations();
  }

  /** The bytes of a word that is known. */
  lemma Encoded(u: word, a: byte, b: byte, c: byte, d: byte)
    requires ((u >> 0) & 0xff) as byte == a && ((u >> 8) & 0xff) as byte == b
    requires ((u >> 16) & 0xff) as byte == c && ((u >> 24) & 0xff) as byte == d
    ensures Encode(u) == [a, b, c, d]
  {
    hide Byte;
    BytesAre(u, a, b, c, d);
  }

  lemma BytesAre(u: word, a: byte, b: byte, c: byte, d: byte)
    requires ((u >> 0) & 0xff) as byte == a && ((u >> 8) & 0xff) as byte == b
    requires ((u >> 16) & 0xff) as byte == c && ((u >> 24) & 0xff) as byte == d
    ensures Byte(u, 0) == a && Byte(u, 8) == b && Byte(u, 16) == c && Byte(u, 24) == d
  {
  }

  /** The digest of abc. */
  lemma AbcDigest()
    ensures Digest(ABC) ==
            [0x90, 0x01, 0x50, 0x98, 0x3c, 0xd2, 0x4f, 0xb0, 0xd6, 0x96, 0x3f, 0x7d, 0x28, 0xe1, 0x7f, 0x72]
  {
    hide Encode, Encode64, AbcBlock, Padded, Blocks, Compress, Fold, Digest;
    DigestParts();
    AbcPadded();
    AbcRegs();
    OneCompressed(AbcBlock());
    Encoded(0x98500190, 0x90, 0x01, 0x50, 0x98);
    Encoded(0xb04fd23c, 0x3c, 0xd2, 0x4f, 0xb0);
    Encoded(0x7d3f96d6, 0xd6, 0x96, 0x3f, 0x7d);
    Encoded(0x727fe128, 0x28, 0xe1, 0x7f, 0x72);
  }

  lemma DigestParts()
    ensures Digest(ABC) == EncodeRegs(Fold(Compress, INITIAL, Blocks(Padded(ABC, Encode64(24)))))
  {
    hide EncodeRegs, Encode64, Padded, Blocks, Compress, Fold;
    assert 8 * |ABC| % MAX_SIZE == 24;
  }

  lemma OneCompressed(block: seq<byte>)
    requires |block| == 64
    ensures Fold(Compress, INITIAL, [block]) == Compress(INITIAL, block)
  {
    hide Compress;
    assert [block][..0] == [];
  }
}
