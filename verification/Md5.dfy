/** MD5 as mkhash.c computes it, with its rounds written out step by step and a buffered message, against RFC 1321. */
module Md5 {
  import opened HashBlocks

  // ----- RFC 1321, section 3.4

  function F(x: word, y: word, z: word): word { (x & y) | (!x & z) }
  function G(x: word, y: word, z: word): word { (x & z) | (y & !z) }
  function H(x: word, y: word, z: word): word { x ^ y ^ z }
  function I(x: word, y: word, z: word): word { y ^ (x | !z) }

  /** The function of operation i, the word of the block it takes, how far it rotates, and its constant. */
  function Auxiliary(i: nat, x: word, y: word, z: word): word {
    if i < 16 then F(x, y, z) else if i < 32 then G(x, y, z) else if i < 48 then H(x, y, z) else I(x, y, z)
  }

  function Index(i: nat): (k: nat)
    ensures k < 16
  {
    if i < 16 then i else if i < 32 then (5 * i + 1) % 16 else if i < 48 then (3 * i + 5) % 16 else 7 * i % 16
  }

  function Shift(i: nat): (s: nat)
    ensures 0 < s < 32
  {
    if i < 16 then Pick(i % 4, Four(7, 12, 17, 22))
    else if i < 32 then Pick(i % 4, Four(5, 9, 14, 20))
    else if i < 48 then Pick(i % 4, Four(4, 11, 16, 23))
    else Pick(i % 4, Four(6, 10, 15, 21))
  }

  datatype Four<X> = Four(first: X, second: X, third: X, fourth: X)

  function Pick<X>(i: nat, f: Four<X>): X
    requires i < 4
  {
    if i == 0 then f.first else if i == 1 then f.second else if i == 2 then f.third else f.fourth
  }

  /** The table of constants, four to a row. */
  function Row(q: nat): Four<word>
    requires q < 16
  {
    match q
    case 0 => Four(0xd76aa478, 0xe8c7b756, 0x242070db, 0xc1bdceee)
    case 1 => Four(0xf57c0faf, 0x4787c62a, 0xa8304613, 0xfd469501)
    case 2 => Four(0x698098d8, 0x8b44f7af, 0xffff5bb1, 0x895cd7be)
    case 3 => Four(0x6b901122, 0xfd987193, 0xa679438e, 0x49b40821)
    case 4 => Four(0xf61e2562, 0xc040b340, 0x265e5a51, 0xe9b6c7aa)
    case 5 => Four(0xd62f105d, 0x02441453, 0xd8a1e681, 0xe7d3fbc8)
    case 6 => Four(0x21e1cde6, 0xc33707d6, 0xf4d50d87, 0x455a14ed)
    case 7 => Four(0xa9e3e905, 0xfcefa3f8, 0x676f02d9, 0x8d2a4c8a)
    case 8 => Four(0xfffa3942, 0x8771f681, 0x6d9d6122, 0xfde5380c)
    case 9 => Four(0xa4beea44, 0x4bdecfa9, 0xf6bb4b60, 0xbebfbc70)
    case 10 => Four(0x289b7ec6, 0xeaa127fa, 0xd4ef3085, 0x04881d05)
    case 11 => Four(0xd9d4d039, 0xe6db99e5, 0x1fa27cf8, 0xc4ac5665)
    case 12 => Four(0xf4292244, 0x432aff97, 0xab9423a7, 0xfc93a039)
    case 13 => Four(0x655b59c3, 0x8f0ccc92, 0xffeff47d, 0x85845dd1)
    case 14 => Four(0x6fa87e4f, 0xfe2ce6e0, 0xa3014314, 0x4e0811a1)
    case _ => Four(0xf7537e82, 0xbd3af235, 0x2ad7d2bb, 0xeb86d391)
  }

  function T(i: nat): word
    requires i < 64
  {
    Pick(i % 4, Row(i / 4))
  }

  datatype Regs = Regs(a: word, b: word, c: word, d: word)

  const INITIAL: Regs := Regs(0x67452301, 0xefcdab89, 0x98badcfe, 0x10325476)

  function RotateLeft(x: word, s: nat): word
    requires 0 < s < 32
  {
    x.RotateLeft(s)
  }

  function Plus(x: word, y: word): word { x + y }

  function Added(a: word, f: word, x: word, t: word): word { a + f + x + t }

  /** One operation; the registers then change places. */
  function Operation(r: Regs, words: seq<word>, i: nat): Regs
    requires |words| == 16 && i < 64
  {
    var sum := Added(r.a, Auxiliary(i, r.b, r.c, r.d), words[Index(i)], T(i));
    Regs(r.d, Plus(r.b, RotateLeft(sum, Shift(i))), r.b, r.c)
  }

  function Operations(r: Regs, words: seq<word>, n: nat): Regs
    requires |words| == 16 && n <= 64
  {
    if n == 0 then r else Operation(Operations(r, words, n - 1), words, n - 1)
  }

  function Sum(r: Regs, s: Regs): Regs { Regs(Plus(r.a, s.a), Plus(r.b, s.b), Plus(r.c, s.c), Plus(r.d, s.d)) }

  function Decode(p: seq<byte>): word
    requires |p| == 4
  {
    (p[0] as word) | ((p[1] as word) << 8) | ((p[2] as word) << 16) | ((p[3] as word) << 24)
  }

  function Encode(u: word): (p: seq<byte>)
    ensures |p| == 4
  {
    [Byte(u, 0), Byte(u, 8), Byte(u, 16), Byte(u, 24)]
  }

  function Words(block: seq<byte>): (w: seq<word>)
    requires |block| == 64
    ensures |w| == 16 && forall i :: 0 <= i < 16 ==> w[i] == Decode(block[4 * i..4 * i + 4])
  {
    seq(16, i requires 0 <= i < 16 => Decode(block[4 * i..4 * i + 4]))
  }

  function Compress(r: Regs, block: seq<byte>): Regs
    requires |block| == 64
  {
    Sum(Operations(r, Words(block), 64), r)
  }

  // ----- the operations as mkhash.c writes them

  function FastF(x: word, y: word, z: word): word { z ^ (x & (y ^ z)) }
  function FastG(x: word, y: word, z: word): word { y ^ (z & (x ^ y)) }
  function H2(x: word, y: word, z: word): word { x ^ (y ^ z) }

  lemma BitsF(x: word, y: word, z: word)
    ensures z ^ (x & (y ^ z)) == (x & y) | (!x & z)
  {
  }

  lemma BitsG(x: word, y: word, z: word)
    ensures y ^ (z & (x ^ y)) == (x & z) | (y & !z)
  {
  }

  lemma BitsH(x: word, y: word, z: word)
    ensures x ^ (y ^ z) == x ^ y ^ z
  {
  }

  lemma FastFAt(i: nat, x: word, y: word, z: word)
    requires i < 16
    ensures FastF(x, y, z) == Auxiliary(i, x, y, z)
  {
    BitsF(x, y, z);
  }

  lemma FastGAt(i: nat, x: word, y: word, z: word)
    requires 16 <= i < 32
    ensures FastG(x, y, z) == Auxiliary(i, x, y, z)
  {
    BitsG(x, y, z);
  }

  lemma HAt(i: nat, x: word, y: word, z: word)
    requires 32 <= i < 48
    ensures H(x, y, z) == Auxiliary(i, x, y, z)
  {
    hide H;
  }

  lemma H2At(i: nat, x: word, y: word, z: word)
    requires 32 <= i < 48
    ensures H2(x, y, z) == Auxiliary(i, x, y, z)
  {
    BitsH(x, y, z);
  }

  lemma IAt(i: nat, x: word, y: word, z: word)
    requires 48 <= i < 64
    ensures I(x, y, z) == Auxiliary(i, x, y, z)
  {
    hide I;
  }

  /** The STEP macro; f is the value of its function. */
  function Step(f: word, a: word, b: word, x: word, t: word, s: nat): word
    requires 0 < s < 32
  {
    Plus(RotateLeft(FastAdded(f, a, x, t), s), b)
  }

  function FastAdded(f: word, a: word, x: word, t: word): word { a + (f + x + t) }

  lemma BitsAdded(f: word, a: word, x: word, t: word)
    ensures a + (f + x + t) == a + f + x + t
  {
  }

  lemma FastAddedIsAdded(f: word, a: word, x: word, t: word)
    ensures FastAdded(f, a, x, t) == Added(a, f, x, t)
  {
    BitsAdded(f, a, x, t);
  }

  lemma BitsSwap(x: word, y: word)
    ensures x + y == y + x
  {
  }

  lemma PlusCommutes(x: word, y: word)
    ensures Plus(x, y) == Plus(y, x)
  {
    BitsSwap(x, y);
  }

  /** A step of the macro is an operation. */
  lemma StepIsOperation(r: Regs, words: seq<word>, i: nat)
    requires |words| == 16 && i < 64
    ensures Operation(r, words, i) ==
            Regs(r.d, Step(Auxiliary(i, r.b, r.c, r.d), r.a, r.b, words[Index(i)], T(i), Shift(i)), r.b, r.c)
  {
    hide RotateLeft, Auxiliary, Index, T, Shift, Plus, Added, FastAdded;
    var f, x, t, s := Auxiliary(i, r.b, r.c, r.d), words[Index(i)], T(i), Shift(i);
    FastAddedIsAdded(f, r.a, x, t);
    PlusCommutes(RotateLeft(Added(r.a, f, x, t), s), r.b);
  }

  /** Four operations, after which the registers are back in their places. */
  lemma FourSteps(r: Regs, words: seq<word>, q: nat, o: Regs, n: Regs)
    requires |words| == 16 && q < 16 && o == Operations(r, words, 4 * q)
    requires n.a == Step(Auxiliary(4 * q, o.b, o.c, o.d), o.a, o.b, words[Index(4 * q)], Row(q).first, Shift(4 * q))
    requires n.d == Step(Auxiliary(4 * q + 1, n.a, o.b, o.c), o.d, n.a, words[Index(4 * q + 1)], Row(q).second,
             Shift(4 * q + 1))
    requires n.c == Step(Auxiliary(4 * q + 2, n.d, n.a, o.b), o.c, n.d, words[Index(4 * q + 2)], Row(q).third,
             Shift(4 * q + 2))
    requires n.b == Step(Auxiliary(4 * q + 3, n.c, n.d, n.a), o.b, n.c, words[Index(4 * q + 3)], Row(q).fourth,
             Shift(4 * q + 3))
    ensures n == Operations(r, words, 4 * q + 4)
  {
    hide Step, Auxiliary, Index, T, Shift, Operation, Row;
    RowOfFour(q);
    StepIsOperation(o, words, 4 * q);
    StepIsOperation(Regs(o.d, n.a, o.b, o.c), words, 4 * q + 1);
    StepIsOperation(Regs(o.c, n.d, n.a, o.b), words, 4 * q + 2);
    StepIsOperation(Regs(o.b, n.c, n.d, n.a), words, 4 * q + 3);
    assert Operations(r, words, 4 * q + 1) == Regs(o.d, n.a, o.b, o.c);
    assert Operations(r, words, 4 * q + 2) == Regs(o.c, n.d, n.a, o.b);
    assert Operations(r, words, 4 * q + 3) == Regs(o.b, n.c, n.d, n.a);
  }

  lemma RowOfFour(q: nat)
    requires q < 16
    ensures T(4 * q) == Row(q).first && T(4 * q + 1) == Row(q).second
    ensures T(4 * q + 2) == Row(q).third && T(4 * q + 3) == Row(q).fourth
  {
    hide Row;
  }

  lemma OrderF(q: nat)
    requires 0 <= q < 4
    ensures Index(4 * q) == 4 * q && Index(4 * q + 1) == 4 * q + 1
    ensures Index(4 * q + 2) == 4 * q + 2 && Index(4 * q + 3) == 4 * q + 3
    ensures Shift(4 * q) == 7 && Shift(4 * q + 1) == 12 && Shift(4 * q + 2) == 17 && Shift(4 * q + 3) == 22
  {
  }

  lemma OrderG(q: nat)
    requires 4 <= q < 8
    ensures Index(4 * q) == (20 * q + 1) % 16 && Index(4 * q + 1) == (20 * q + 6) % 16
    ensures Index(4 * q + 2) == (20 * q + 11) % 16 && Index(4 * q + 3) == 20 * q % 16
    ensures Shift(4 * q) == 5 && Shift(4 * q + 1) == 9 && Shift(4 * q + 2) == 14 && Shift(4 * q + 3) == 20
  {
  }

  lemma OrderH(q: nat)
    requires 8 <= q < 12
    ensures Index(4 * q) == (12 * q + 5) % 16 && Index(4 * q + 1) == (12 * q + 8) % 16
    ensures Index(4 * q + 2) == (12 * q + 11) % 16 && Index(4 * q + 3) == (12 * q + 14) % 16
    ensures Shift(4 * q) == 4 && Shift(4 * q + 1) == 11 && Shift(4 * q + 2) == 16 && Shift(4 * q + 3) == 23
  {
  }

  lemma OrderI(q: nat)
    requires 12 <= q < 16
    ensures Index(4 * q) == 28 * q % 16 && Index(4 * q + 1) == (28 * q + 7) % 16
    ensures Index(4 * q + 2) == (28 * q + 14) % 16 && Index(4 * q + 3) == (28 * q + 5) % 16
    ensures Shift(4 * q) == 6 && Shift(4 * q + 1) == 10 && Shift(4 * q + 2) == 15 && Shift(4 * q + 3) == 21
  {
  }

  lemma FourF(r: Regs, words: seq<word>, q: nat, o: Regs, n: Regs)
    requires |words| == 16 && 0 <= q < 4 && o == Operations(r, words, 4 * q)
    requires n.a == Step(FastF(o.b, o.c, o.d), o.a, o.b, words[4 * q], Row(q).first, 7)
    requires n.d == Step(FastF(n.a, o.b, o.c), o.d, n.a, words[4 * q + 1], Row(q).second, 12)
    requires n.c == Step(FastF(n.d, n.a, o.b), o.c, n.d, words[4 * q + 2], Row(q).third, 17)
    requires n.b == Step(FastF(n.c, n.d, n.a), o.b, n.c, words[4 * q + 3], Row(q).fourth, 22)
    ensures n == Operations(r, words, 4 * q + 4)
  {
    hide Step, FastF, FastG, H, H2, I, Auxiliary, Operations, Row, Index, Shift;
    OrderF(q);
    FastFAt(4 * q, o.b, o.c, o.d);
    FastFAt(4 * q + 1, n.a, o.b, o.c);
    FastFAt(4 * q + 2, n.d, n.a, o.b);
    FastFAt(4 * q + 3, n.c, n.d, n.a);
    FourSteps(r, words, q, o, n);
  }

  lemma FourG(r: Regs, words: seq<word>, q: nat, o: Regs, n: Regs)
    requires |words| == 16 && 4 <= q < 8 && o == Operations(r, words, 4 * q)
    requires n.a == Step(FastG(o.b, o.c, o.d), o.a, o.b, words[(20 * q + 1) % 16], Row(q).first, 5)
    requires n.d == Step(FastG(n.a, o.b, o.c), o.d, n.a, words[(20 * q + 6) % 16], Row(q).second, 9)
    requires n.c == Step(FastG(n.d, n.a, o.b), o.c, n.d, words[(20 * q + 11) % 16], Row(q).third, 14)
    requires n.b == Step(FastG(n.c, n.d, n.a), o.b, n.c, words[20 * q % 16], Row(q).fourth, 20)
    ensures n == Operations(r, words, 4 * q + 4)
  {
    hide Step, FastF, FastG, H, H2, I, Auxiliary, Operations, Row, Index, Shift;
    OrderG(q);
    FastGAt(4 * q, o.b, o.c, o.d);
    FastGAt(4 * q + 1, n.a, o.b, o.c);
    FastGAt(4 * q + 2, n.d, n.a, o.b);
    FastGAt(4 * q + 3, n.c, n.d, n.a);
    FourSteps(r, words, q, o, n);
  }

  lemma FourH(r: Regs, words: seq<word>, q: nat, o: Regs, n: Regs)
    requires |words| == 16 && 8 <= q < 12 && o == Operations(r, words, 4 * q)
    requires n.a == Step(H(o.b, o.c, o.d), o.a, o.b, words[(12 * q + 5) % 16], Row(q).first, 4)
    requires n.d == Step(H2(n.a, o.b, o.c), o.d, n.a, words[(12 * q + 8) % 16], Row(q).second, 11)
    requires n.c == Step(H(n.d, n.a, o.b), o.c, n.d, words[(12 * q + 11) % 16], Row(q).third, 16)
    requires n.b == Step(H2(n.c, n.d, n.a), o.b, n.c, words[(12 * q + 14) % 16], Row(q).fourth, 23)
    ensures n == Operations(r, words, 4 * q + 4)
  {
    hide Step, FastF, FastG, H, H2, I, Auxiliary, Operations, Row, Index, Shift;
    OrderH(q);
    HAt(4 * q, o.b, o.c, o.d);
    H2At(4 * q + 1, n.a, o.b, o.c);
    HAt(4 * q + 2, n.d, n.a, o.b);
    H2At(4 * q + 3, n.c, n.d, n.a);
    FourSteps(r, words, q, o, n);
  }

  lemma FourI(r: Regs, words: seq<word>, q: nat, o: Regs, n: Regs)
    requires |words| == 16 && 12 <= q < 16 && o == Operations(r, words, 4 * q)
    requires n.a == Step(I(o.b, o.c, o.d), o.a, o.b, words[28 * q % 16], Row(q).first, 6)
    requires n.d == Step(I(n.a, o.b, o.c), o.d, n.a, words[(28 * q + 7) % 16], Row(q).second, 10)
    requires n.c == Step(I(n.d, n.a, o.b), o.c, n.d, words[(28 * q + 14) % 16], Row(q).third, 15)
    requires n.b == Step(I(n.c, n.d, n.a), o.b, n.c, words[(28 * q + 5) % 16], Row(q).fourth, 21)
    ensures n == Operations(r, words, 4 * q + 4)
  {
    hide Step, FastF, FastG, H, H2, I, Auxiliary, Operations, Row, Index, Shift;
    OrderI(q);
    IAt(4 * q, o.b, o.c, o.d);
    IAt(4 * q + 1, n.a, o.b, o.c);
    IAt(4 * q + 2, n.d, n.a, o.b);
    IAt(4 * q + 3, n.c, n.d, n.a);
    FourSteps(r, words, q, o, n);
  }

  method Round1(o: Regs, X: seq<word>, ghost r: Regs) returns (n: Regs)
    requires |X| == 16 && o == Operations(r, X, 0)
    ensures n == Operations(r, X, 16)
  {
    hide Step, FastF, FastG, H2, H, I, Auxiliary, Operation, Operations;
    var a, b, c, d := o.a, o.b, o.c, o.d;
    ghost var r0 := Regs(a, b, c, d);
    a := Step(FastF(b, c, d), a, b, X[0], 0xd76aa478, 7);
    d := Step(FastF(a, b, c), d, a, X[1], 0xe8c7b756, 12);
    c := Step(FastF(d, a, b), c, d, X[2], 0x242070db, 17);
    b := Step(FastF(c, d, a), b, c, X[3], 0xc1bdceee, 22);
    FourF(r, X, 0, r0, Regs(a, b, c, d));
    ghost var r1 := Regs(a, b, c, d);
    a := Step(FastF(b, c, d), a, b, X[4], 0xf57c0faf, 7);
    d := Step(FastF(a, b, c), d, a, X[5], 0x4787c62a, 12);
    c := Step(FastF(d, a, b), c, d, X[6], 0xa8304613, 17);
    b := Step(FastF(c, d, a), b, c, X[7], 0xfd469501, 22);
    FourF(r, X, 1, r1, Regs(a, b, c, d));
    ghost var r2 := Regs(a, b, c, d);
    a := Step(FastF(b, c, d), a, b, X[8], 0x698098d8, 7);
    d := Step(FastF(a, b, c), d, a, X[9], 0x8b44f7af, 12);
    c := Step(FastF(d, a, b), c, d, X[10], 0xffff5bb1, 17);
    b := Step(FastF(c, d, a), b, c, X[11], 0x895cd7be, 22);
    FourF(r, X, 2, r2, Regs(a, b, c, d));
    ghost var r3 := Regs(a, b, c, d);
    a := Step(FastF(b, c, d), a, b, X[12], 0x6b901122, 7);
    d := Step(FastF(a, b, c), d, a, X[13], 0xfd987193, 12);
    c := Step(FastF(d, a, b), c, d, X[14], 0xa679438e, 17);
    b := Step(FastF(c, d, a), b, c, X[15], 0x49b40821, 22);
    FourF(r, X, 3, r3, Regs(a, b, c, d));
    n := Regs(a, b, c, d);
  }

  method Round2(o: Regs, X: seq<word>, ghost r: Regs) returns (n: Regs)
    requires |X| == 16 && o == Operations(r, X, 16)
    ensures n == Operations(r, X, 32)
  {
    hide Step, FastF, FastG, H2, H, I, Auxiliary, Operation, Operations;
    var a, b, c, d := o.a, o.b, o.c, o.d;
    ghost var r0 := Regs(a, b, c, d);
    a := Step(FastG(b, c, d), a, b, X[1], 0xf61e2562, 5);
    d := Step(FastG(a, b, c), d, a, X[6], 0xc040b340, 9);
    c := Step(FastG(d, a, b), c, d, X[11], 0x265e5a51, 14);
    b := Step(FastG(c, d, a), b, c, X[0], 0xe9b6c7aa, 20);
    FourG(r, X, 4, r0, Regs(a, b, c, d));
    ghost var r1 := Regs(a, b, c, d);
    a := Step(FastG(b, c, d), a, b, X[5], 0xd62f105d, 5);
    d := Step(FastG(a, b, c), d, a, X[10], 0x02441453, 9);
    c := Step(FastG(d, a, b), c, d, X[15], 0xd8a1e681, 14);
    b := Step(FastG(c, d, a), b, c, X[4], 0xe7d3fbc8, 20);
    FourG(r, X, 5, r1, Regs(a, b, c, d));
    ghost var r2 := Regs(a, b, c, d);
    a := Step(FastG(b, c, d), a, b, X[9], 0x21e1cde6, 5);
    d := Step(FastG(a, b, c), d, a, X[14], 0xc33707d6, 9);
    c := Step(FastG(d, a, b), c, d, X[3], 0xf4d50d87, 14);
    b := Step(FastG(c, d, a), b, c, X[8], 0x455a14ed, 20);
    FourG(r, X, 6, r2, Regs(a, b, c, d));
    ghost var r3 := Regs(a, b, c, d);
    a := Step(FastG(b, c, d), a, b, X[13], 0xa9e3e905, 5);
    d := Step(FastG(a, b, c), d, a, X[2], 0xfcefa3f8, 9);
    c := Step(FastG(d, a, b), c, d, X[7], 0x676f02d9, 14);
    b := Step(FastG(c, d, a), b, c, X[12], 0x8d2a4c8a, 20);
    FourG(r, X, 7, r3, Regs(a, b, c, d));
    n := Regs(a, b, c, d);
  }

  method Round3(o: Regs, X: seq<word>, ghost r: Regs) returns (n: Regs)
    requires |X| == 16 && o == Operations(r, X, 32)
    ensures n == Operations(r, X, 48)
  {
    hide Step, FastF, FastG, H2, H, I, Auxiliary, Operation, Operations;
    var a, b, c, d := o.a, o.b, o.c, o.d;
    ghost var r0 := Regs(a, b, c, d);
    a := Step(H(b, c, d), a, b, X[5], 0xfffa3942, 4);
    d := Step(H2(a, b, c), d, a, X[8], 0x8771f681, 11);
    c := Step(H(d, a, b), c, d, X[11], 0x6d9d6122, 16);
    b := Step(H2(c, d, a), b, c, X[14], 0xfde5380c, 23);
    FourH(r, X, 8, r0, Regs(a, b, c, d));
    ghost var r1 := Regs(a, b, c, d);
    a := Step(H(b, c, d), a, b, X[1], 0xa4beea44, 4);
    d := Step(H2(a, b, c), d, a, X[4], 0x4bdecfa9, 11);
    c := Step(H(d, a, b), c, d, X[7], 0xf6bb4b60, 16);
    b := Step(H2(c, d, a), b, c, X[10], 0xbebfbc70, 23);
    FourH(r, X, 9, r1, Regs(a, b, c, d));
    ghost var r2 := Regs(a, b, c, d);
    a := Step(H(b, c, d), a, b, X[13], 0x289b7ec6, 4);
    d := Step(H2(a, b, c), d, a, X[0], 0xeaa127fa, 11);
    c := Step(H(d, a, b), c, d, X[3], 0xd4ef3085, 16);
    b := Step(H2(c, d, a), b, c, X[6], 0x04881d05, 23);
    FourH(r, X, 10, r2, Regs(a, b, c, d));
    ghost var r3 := Regs(a, b, c, d);
    a := Step(H(b, c, d), a, b, X[9], 0xd9d4d039, 4);
    d := Step(H2(a, b, c), d, a, X[12], 0xe6db99e5, 11);
    c := Step(H(d, a, b), c, d, X[15], 0x1fa27cf8, 16);
    b := Step(H2(c, d, a), b, c, X[2], 0xc4ac5665, 23);
    FourH(r, X, 11, r3, Regs(a, b, c, d));
    n := Regs(a, b, c, d);
  }

  method Round4(o: Regs, X: seq<word>, ghost r: Regs) returns (n: Regs)
    requires |X| == 16 && o == Operations(r, X, 48)
    ensures n == Operations(r, X, 64)
  {
    hide Step, FastF, FastG, H2, H, I, Auxiliary, Operation, Operations;
    var a, b, c, d := o.a, o.b, o.c, o.d;
    ghost var r0 := Regs(a, b, c, d);
    a := Step(I(b, c, d), a, b, X[0], 0xf4292244, 6);
    d := Step(I(a, b, c), d, a, X[7], 0x432aff97, 10);
    c := Step(I(d, a, b), c, d, X[14], 0xab9423a7, 15);
    b := Step(I(c, d, a), b, c, X[5], 0xfc93a039, 21);
    FourI(r, X, 12, r0, Regs(a, b, c, d));
    ghost var r1 := Regs(a, b, c, d);
    a := Step(I(b, c, d), a, b, X[12], 0x655b59c3, 6);
    d := Step(I(a, b, c), d, a, X[3], 0x8f0ccc92, 10);
    c := Step(I(d, a, b), c, d, X[10], 0xffeff47d, 15);
    b := Step(I(c, d, a), b, c, X[1], 0x85845dd1, 21);
    FourI(r, X, 13, r1, Regs(a, b, c, d));
    ghost var r2 := Regs(a, b, c, d);
    a := Step(I(b, c, d), a, b, X[8], 0x6fa87e4f, 6);
    d := Step(I(a, b, c), d, a, X[15], 0xfe2ce6e0, 10);
    c := Step(I(d, a, b), c, d, X[6], 0xa3014314, 15);
    b := Step(I(c, d, a), b, c, X[13], 0x4e0811a1, 21);
    FourI(r, X, 14, r2, Regs(a, b, c, d));
    ghost var r3 := Regs(a, b, c, d);
    a := Step(I(b, c, d), a, b, X[4], 0xf7537e82, 6);
    d := Step(I(a, b, c), d, a, X[11], 0xbd3af235, 10);
    c := Step(I(d, a, b), c, d, X[2], 0x2ad7d2bb, 15);
    b := Step(I(c, d, a), b, c, X[9], 0xeb86d391, 21);
    FourI(r, X, 15, r3, Regs(a, b, c, d));
    n := Regs(a, b, c, d);
  }

  // ----- a whole message

  /** The bytes of a 64-bit number, the lowest one first. */
  function Encode64(n: nat): (p: seq<byte>)
    ensures |p| == 8
  {
    [Octet(n), Octet(n / 0x100), Octet(n / 0x1_0000), Octet(n / 0x100_0000), Octet(n / 0x1_0000_0000),
     Octet(n / 0x100_0000_0000), Octet(n / 0x1_0000_0000_0000), Octet(n / 0x100_0000_0000_0000)]
  }

  lemma Encode64Value(n: nat)
    requires n < MAX_SIZE
    ensures var p := Encode64(n); BigEndianValue([p[7], p[6], p[5], p[4], p[3], p[2], p[1], p[0]]) == n
  {
    var p := Encode64(n);
    OctetsValue(n, [p[7], p[6], p[5], p[4], p[3], p[2], p[1], p[0]]);
  }

  function EncodeRegs(r: Regs): (p: seq<byte>)
    ensures |p| == 16
  {
    Encode(r.a) + Encode(r.b) + Encode(r.c) + Encode(r.d)
  }

  /** The digest of a message, sections 3.1 to 3.5 of RFC 1321: its length in bits counts modulo 2^64. */
  function Digest(m: seq<byte>): seq<byte> {
    EncodeRegs(Fold(Compress, INITIAL, Blocks(Padded(m, Encode64(8 * |m| % MAX_SIZE)))))
  }

  // ----- the length counter

  /** The two halves of the byte counter, 29 and 32 bits. */
  const LO := 0x2000_0000
  const HI := 0x1_0000_0000

  /** The counter after k more bytes: the carry is noticed because the low half has become smaller. */
  lemma CounterCarry(n: nat, k: nat)
    ensures var lo := (n % LO + k) % LO;
            lo == (n + k) % LO &&
            ((n / LO) % HI + (if lo < n % LO then 1 else 0) + k / LO) % HI == ((n + k) / LO) % HI
  {
    var lo, carry := (n % LO + k) % LO, if (n % LO + k) % LO < n % LO then 1 else 0;
    assert (n + k) / LO == n / LO + carry + k / LO;
    ModAdd(n / LO, carry + k / LO);
  }

  lemma ModAdd(x: nat, y: nat)
    ensures (x % HI + y) % HI == (x + y) % HI
  {
  }

  lemma ModIs(x: nat, q: nat, r: nat)
    requires x == MAX_SIZE * q + r && r < MAX_SIZE
    ensures x % MAX_SIZE == r
  {
  }

  lemma SameBlock(x: nat, k: nat, y: nat)
    requires x == 64 * k + y
    ensures x % 64 == y % 64
  {
  }

  lemma Halved(n: nat)
    ensures n == LO * (n / LO) + n % LO && n / LO == HI * (n / LO / HI) + n / LO % HI && n / LO % HI < HI && n % LO < LO
  {
  }

  /** The two halves, the low one shifted by three bits, are the bit length modulo 2^64. */
  lemma CounterBits(n: nat)
    ensures (n / LO % HI) * HI + 8 * (n % LO) == 8 * n % MAX_SIZE
    ensures 8 * (n % LO) < HI && n % LO % 64 == n % 64
  {
    Halved(n);
    CounterParts(n, n / LO, n % LO, n / LO / HI, n / LO % HI);
  }

  lemma CounterParts(n: nat, h: nat, lo: nat, q: nat, hi: nat)
    requires n == LO * h + lo && h == HI * q + hi && hi < HI && lo < LO
    ensures hi * HI + 8 * lo == 8 * n % MAX_SIZE && 8 * lo < HI && lo % 64 == n % 64
  {
    ModIs(8 * n, q, hi * HI + 8 * lo);
    SameBlock(n, 0x80_0000 * h, lo);
  }

  /** What `MD5_end` stores in the last eight bytes. */
  function LengthBytes(lo: nat, hi: nat): (p: seq<byte>)
    ensures |p| == 8
  {
    [Octet(lo), Octet(lo / 0x100), Octet(lo / 0x1_0000), Octet(lo / 0x100_0000),
     Octet(hi), Octet(hi / 0x100), Octet(hi / 0x1_0000), Octet(hi / 0x100_0000)]
  }

  lemma SameOctet(x: nat, y: nat)
    requires x % 256 == y % 256
    ensures Octet(x) == Octet(y)
  {
  }

  /** A multiple of 256 does not change the lowest eight bits. */
  lemma LowByte(n: nat, k: nat, x: nat)
    requires n == 256 * k + x
    ensures Octet(n) == Octet(x)
  {
    hide Octet;
    assert n % 256 == x % 256;
    SameOctet(n, x);
  }

  lemma Quotients(lo: nat, hi: nat)
    requires lo < HI
    ensures var n := hi * HI + lo;
            n / 0x100 == hi * 0x100_0000 + lo / 0x100 && n / 0x1_0000 == hi * 0x1_0000 + lo / 0x1_0000 &&
            n / 0x100_0000 == hi * 0x100 + lo / 0x100_0000
  {
  }

  lemma HighPart(lo: nat, hi: nat)
    requires lo < HI
    ensures var n := hi * HI + lo;
            n / HI == hi && n / 0x100_0000_0000 == hi / 0x100 &&
            n / 0x1_0000_0000_0000 == hi / 0x1_0000 && n / 0x100_0000_0000_0000 == hi / 0x100_0000
  {
    assert (hi * HI + lo) / HI == hi;
  }

  lemma LengthBytesEncode(lo: nat, hi: nat)
    requires lo < HI
    ensures LengthBytes(lo, hi) == Encode64(hi * HI + lo)
  {
    hide Octet;
    var n := hi * HI + lo;
    Quotients(lo, hi);
    HighPart(lo, hi);
    LowByte(n, hi * 0x100_0000, lo);
    LowByte(n / 0x100, hi * 0x1_0000, lo / 0x100);
    LowByte(n / 0x1_0000, hi * 0x100, lo / 0x1_0000);
    LowByte(n / 0x100_0000, hi, lo / 0x100_0000);
  }

  // ----- the streaming interface

  /** The state of a hash over a message that arrives in pieces. */
  class Context {
    var lo: nat
    var hi: nat
    var a: word
    var b: word
    var c: word
    var d: word
    const buffer: array<byte>
    ghost var message: seq<byte>

    function Now(): Regs
      reads this`a, this`b, this`c, this`d
    {
      Regs(a, b, c, d)
    }

    ghost predicate Valid()
      reads this, buffer
    {
      && buffer.Length == 64 && lo == |message| % LO && hi == |message| / LO % HI
      && Now() == Fold(Compress, INITIAL, Blocks(message)) && buffer[..|message| % 64] == Tail(message)
    }

    /** `MD5_begin`. */
    constructor ()
      ensures Valid() && message == [] && fresh(buffer)
    {
      a, b, c, d := INITIAL.a, INITIAL.b, INITIAL.c, INITIAL.d;
      lo, hi := 0, 0;
      buffer := new byte[64];
      message := [];
    }

    /** `MD5_body`: one or more complete blocks. */
    method Body(data: seq<byte>)
      requires |data| > 0 && |data| % 64 == 0
      modifies this`a, this`b, this`c, this`d
      ensures Now() == Fold(Compress, old(Now()), Blocks(data))
    {
      hide Compress, Blocks, Fold;
      var n := 0;
      HashNothing(Now());
      assert data[..0] == [];
      while n < |data|
        invariant n <= |data| && n % 64 == 0
        invariant Now() == Fold(Compress, old(Now()), Blocks(data[..n]))
      {
        HashNext(old(Now()), data, n);
        var r := CompressBlock(Now(), data[n..n + 64]);
        a, b, c, d := r.a, r.b, r.c, r.d;
        n := n + 64;
      }
      assert data[..n] == data;
    }

    /** `MD5_hash`: the bytes of `data` are added to the message. */
    method Update(data: seq<byte>)
      requires Valid() && |data| < MAX_SIZE
      modifies this, buffer
      ensures Valid() && message == old(message) + data
    {
      hide Fold, Blocks, Tail, Now;
      var savedLo := lo;
      Count(|data|);
      CounterBits(|message|);
      var used := savedLo % 64;
      if used != 0 && |data| < 64 - used {
        Copy(buffer, used, data);
        TailGrows(message, data);
      } else if used != 0 {
        Complete(used, data);
      } else {
        BlocksAppend(message, data);
        assert Tail(message) == [] && [] + data == data;
        FoldConcat(Compress, INITIAL, Blocks(message), Blocks(data));
        Whole(data);
        assert |message + data| % 64 == |data| % 64;
      }
      message := message + data;
    }

    /** The counter of `MD5_hash`. */
    method Count(size: nat)
      requires lo == |message| % LO && hi == |message| / LO % HI
      modifies this`lo, this`hi
      ensures lo == (|message| + size) % LO && hi == (|message| + size) / LO % HI
    {
      CounterCarry(|message|, size);
      var savedLo, savedHi := lo, hi;
      lo := (savedLo + size) % LO;
      if lo < savedLo {
        hi := (hi + 1) % HI;
      }
      ModAdd(savedHi + (if lo < savedLo then 1 else 0), size / LO);
      hi := (hi + size / LO) % HI;
    }

    /** The block in the buffer is completed, and the rest of the data follows. */
    method Complete(used: nat, data: seq<byte>)
      requires buffer.Length == 64 && 0 < used == |message| % 64 && 64 - used <= |data|
      requires Now() == Fold(Compress, INITIAL, Blocks(message)) && buffer[..used] == Tail(message)
      modifies this`a, this`b, this`c, this`d, buffer
      ensures Now() == Fold(Compress, INITIAL, Blocks(message + data))
      ensures buffer[..|message + data| % 64] == Tail(message + data)
    {
      hide Fold, Blocks, Tail, Now;
      Copy(buffer, used, data[..64 - used]);
      assert buffer[..] == Tail(message) + data[..64 - used];
      Body(buffer[..]);
      Whole(data[64 - used..]);
      Absorbed(message, data, used);
      BlockCompleted(message, data, used);
    }

    /** The end of `MD5_hash`: the complete blocks are hashed, and what is left goes to the start of the buffer. */
    method Whole(data: seq<byte>)
      requires buffer.Length == 64
      modifies this`a, this`b, this`c, this`d, buffer
      ensures Now() == Fold(Compress, old(Now()), Blocks(data)) && buffer[..|data| % 64] == Tail(data)
    {
      hide Fold, Blocks, Tail, Now;
      var n := 0;
      if |data| >= 64 {
        n := |data| - |data| % 64;
        Body(data[..n]);
      } else {
        HashNothing(Now());
      }
      BlocksEnd(data, n);
      assert data[..0] == [];
      Copy(buffer, 0, data[n..]);
      assert buffer[..|data| % 64] == data[n..];
    }

    /** `MD5_end`: the digest of the message. The context is cleared. */
    method End(result: array<byte>)
      requires Valid() && result.Length == 16 && result != buffer
      modifies this, buffer, result
      ensures result[..] == Digest(old(message))
      ensures lo == 0 && hi == 0 && Now() == Regs(0, 0, 0, 0) && buffer[..] == Zeros(64)
    {
      hide Fold, Blocks, Tail, Encode64, Padded, Encode;
      Pad();
      PutRegs(result, Now());
      lo, hi, a, b, c, d := 0, 0, 0, 0, 0, 0;
      forall i | 0 <= i < 64 { buffer[i] := 0; }
    }

    /** The padding of `MD5_end`. */
    method Pad()
      requires Valid()
      modifies this`lo, this`a, this`b, this`c, this`d, buffer
      ensures Now() == Fold(Compress, INITIAL, Blocks(Padded(message, Encode64(8 * |message| % MAX_SIZE))))
    {
      hide Fold, Blocks, Tail, Encode64, Padded, Now, Zeros, LengthBytes;
      CounterBits(|message|);
      ghost var tail, length := Tail(message), Encode64(8 * |message| % MAX_SIZE);
      LengthBytesEncode(8 * lo, hi);
      PaddedHash(message, length);
      var used := lo % 64;
      Copy(buffer, used, [0x80]);
      used := used + 1;
      ghost var front := tail + [0x80];
      assert buffer[..used] == front;
      if 64 - used < 8 {
        FillBlock(used, front);
        used := 0;
        front := [];
      }
      assert 8 * lo % HI == 8 * lo && [] + Zeros(56) == Zeros(56);
      FinalBlock(used, front);
    }

    /** No room for the length: the block is filled up with zeros. */
    method FillBlock(used: nat, ghost front: seq<byte>)
      requires buffer.Length == 64 && used <= 64 && buffer[..used] == front
      modifies this`a, this`b, this`c, this`d, buffer
      ensures Now() == Fold(Compress, old(Now()), Blocks(front + Zeros(64 - used)))
    {
      hide Fold, Blocks, Now, Zeros;
      Copy(buffer, used, Zeros(64 - used));
      assert buffer[..] == front + Zeros(64 - used);
      Body(buffer[..]);
    }

    /** The last block ends with the length. */
    method FinalBlock(used: nat, ghost front: seq<byte>)
      requires buffer.Length == 64 && used <= 56 && buffer[..used] == front
      modifies this`lo, this`a, this`b, this`c, this`d, buffer
      ensures Now() == Fold(Compress, old(Now()), Blocks(front + Zeros(56 - used) + LengthBytes(8 * old(lo) % HI, hi)))
    {
      hide Fold, Blocks, Now, Zeros, LengthBytes;
      Copy(buffer, used, Zeros(56 - used));
      assert buffer[..56] == front + Zeros(56 - used);
      lo := 8 * lo % HI;
      Copy(buffer, 56, LengthBytes(lo, hi));
      assert buffer[..] == front + Zeros(56 - used) + LengthBytes(lo, hi);
      Body(buffer[..]);
    }
  }

  lemma HashNext(r: Regs, data: seq<byte>, n: nat)
    requires n % 64 == 0 && n + 64 <= |data|
    ensures Fold(Compress, r, Blocks(data[..n + 64])) == Compress(Fold(Compress, r, Blocks(data[..n])), data[n..n + 64])
  {
    hide Compress, Blocks;
    BlocksNext(data, n);
    var blocks := Blocks(data[..n]);
    assert (blocks + [data[n..n + 64]])[..|blocks|] == blocks;
  }

  lemma HashNothing(r: Regs)
    ensures Fold(Compress, r, []) == r && Blocks([]) == []
  {
  }

  /** The hash after bytes that complete a block. */
  lemma Absorbed(m: seq<byte>, x: seq<byte>, r: nat)
    requires r == |m| % 64 && 64 - r <= |x|
    ensures Fold(Compress, INITIAL, Blocks(m + x)) ==
            Fold(Compress, Fold(Compress, Fold(Compress, INITIAL, Blocks(m)), Blocks(Tail(m) + x[..64 - r])),
              Blocks(x[64 - r..]))
  {
    hide Fold;
    BlockCompleted(m, x, r);
    OneBlock(Tail(m) + x[..64 - r]);
    FoldConcat(Compress, INITIAL, Blocks(m) + [Tail(m) + x[..64 - r]], Blocks(x[64 - r..]));
    FoldConcat(Compress, INITIAL, Blocks(m), [Tail(m) + x[..64 - r]]);
  }

  /** The blocks that the padding adds. */
  lemma PaddedHash(m: seq<byte>, length: seq<byte>)
    requires |length| == 8
    ensures var h, t := Fold(Compress, INITIAL, Blocks(m)), Tail(m);
            Fold(Compress, INITIAL, Blocks(Padded(m, length))) ==
            if |t| < 56 then Fold(Compress, h, Blocks(t + [0x80] + Zeros(55 - |t|) + length))
            else Fold(Compress, Fold(Compress, h, Blocks(t + [0x80] + Zeros(63 - |t|))), Blocks(Zeros(56) + length))
  {
    hide Fold, Padded, Zeros, Blocks, Tail;
    PaddedBlocks(m, length);
    var last := LastBlocks(Tail(m), length);
    FoldConcat(Compress, INITIAL, Blocks(m), last);
    OneBlock(last[0]);
    if |last| == 2 {
      OneBlock(last[1]);
      assert last == [last[0]] + [last[1]];
      FoldConcat(Compress, Fold(Compress, INITIAL, Blocks(m)), [last[0]], [last[1]]);
    }
  }

  /** One block: the words are read as they are needed; all rounds; the sum with the saved registers. */
  method CompressBlock(saved: Regs, block: seq<byte>) returns (r: Regs)
    requires |block| == 64
    ensures r == Compress(saved, block)
  {
    hide Operation, Plus, Decode;
    var X := Words(block);
    r := Round1(saved, X, saved);
    r := Round2(r, X, saved);
    r := Round3(r, X, saved);
    r := Round4(r, X, saved);
    r := Regs(Plus(r.a, saved.a), Plus(r.b, saved.b), Plus(r.c, saved.c), Plus(r.d, saved.d));
  }

  /** The digest is written out. */
  method PutRegs(result: array<byte>, r: Regs)
    requires result.Length == 16
    modifies result
    ensures result[..] == EncodeRegs(r)
  {
    hide Encode;
    Copy(result, 0, Encode(r.a));
    Copy(result, 4, Encode(r.b));
    Copy(result, 8, Encode(r.c));
    Copy(result, 12, Encode(r.d));
  }

  /** `md5_hash`: however the message is cut into pieces, empty ones included, the digest is that of the whole. */
  method HashPieces(pieces: seq<seq<byte>>) returns (digest: array<byte>)
    requires forall i :: 0 <= i < |pieces| ==> |pieces[i]| < MAX_SIZE
    ensures digest[..] == Digest(Joined(pieces))
  {
    hide Digest, Fold, Blocks, Tail;
    var ctx := new Context();
    var i := 0;
    while i < |pieces|
      invariant i <= |pieces| && ctx.Valid() && ctx.message == Joined(pieces[..i])
      invariant fresh(ctx) && fresh(ctx.buffer)
    {
      ctx.Update(pieces[i]);
      assert pieces[..i + 1][..i] == pieces[..i];
      i := i + 1;
    }
    assert pieces[..i] == pieces;
    digest := new byte[16];
    ctx.End(digest);
  }
}
