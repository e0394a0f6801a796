/** SHA-256 as mkhash.c computes it, with a rotating state and a buffered message, against FIPS 180-4. */
module Sha256 {
  import opened HashBlocks

  // ----- FIPS 180-4, sections 3.2, 4.1.2, 4.2.2, 5.3.3 and 6.2.2

  function Plus(x: word, y: word): word { x + y }

  function Sum0(x: word): word { x.RotateRight(2) ^ x.RotateRight(13) ^ x.RotateRight(22) }
  function Sum1(x: word): word { x.RotateRight(6) ^ x.RotateRight(11) ^ x.RotateRight(25) }
  function Sigma0(x: word): word { x.RotateRight(7) ^ x.RotateRight(18) ^ (x >> 3) }
  function Sigma1(x: word): word { x.RotateRight(17) ^ x.RotateRight(19) ^ (x >> 10) }
  function Choose(x: word, y: word, z: word): word { (x & y) ^ (!x & z) }
  function Majority(x: word, y: word, z: word): word { (x & y) ^ (x & z) ^ (y & z) }

  /** The constants, eight to a row. */
  function Constants(row: nat): (r: seq<word>)
    requires row < 8
    ensures |r| == 8
  {
    match row
    case 0 => [0x428a2f98, 0x71374491, 0xb5c0fbcf, 0xe9b5dba5, 0x3956c25b, 0x59f111f1, 0x923f82a4, 0xab1c5ed5]
    case 1 => [0xd807aa98, 0x12835b01, 0x243185be, 0x550c7dc3, 0x72be5d74, 0x80deb1fe, 0x9bdc06a7, 0xc19bf174]
    case 2 => [0xe49b69c1, 0xefbe4786, 0x0fc19dc6, 0x240ca1cc, 0x2de92c6f, 0x4a7484aa, 0x5cb0a9dc, 0x76f988da]
    case 3 => [0x983e5152, 0xa831c66d, 0xb00327c8, 0xbf597fc7, 0xc6e00bf3, 0xd5a79147, 0x06ca6351, 0x14292967]
    case 4 => [0x27b70a85, 0x2e1b2138, 0x4d2c6dfc, 0x53380d13, 0x650a7354, 0x766a0abb, 0x81c2c92e, 0x92722c85]
    case 5 => [0xa2bfe8a1, 0xa81a664b, 0xc24b8b70, 0xc76c51a3, 0xd192e819, 0xd6990624, 0xf40e3585, 0x106aa070]
    case 6 => [0x19a4c116, 0x1e376c08, 0x2748774c, 0x34b0bcb5, 0x391c0cb3, 0x4ed8aa4a, 0x5b9cca4f, 0x682e6ff3]
    case _ => [0x748f82ee, 0x78a5636f, 0x84c87814, 0x8cc70208, 0x90befffa, 0xa4506ceb, 0xbef9a3f7, 0xc67178f2]
  }

  function K(t: nat): word
    requires t < 64
  {
    Constants(t / 8)[t % 8]
  }

  /** The working variables, and the hash value. */
  datatype Registers<T> = Regs(a: T, b: T, c: T, d: T, e: T, f: T, g: T, h: T)

  type Regs = Registers<word>

  const INITIAL: Regs :=
    Regs(0x6A09E667, 0xBB67AE85, 0x3C6EF372, 0xA54FF53A, 0x510E527F, 0x9B05688C, 0x1F83D9AB, 0x5BE0CD19)

  /** The message schedule of a block of sixteen words. */
  function Schedule(words: seq<word>, t: nat): word
    requires |words| == 16
  {
    if t < 16 then words[t]
    else ScheduleSum(Schedule(words, t - 2), Schedule(words, t - 7), Schedule(words, t - 15), Schedule(words, t - 16))
  }

  function ScheduleSum(w2: word, w7: word, w15: word, w16: word): word { Added(Sigma1(w2), w7, Sigma0(w15), w16) }

  function Added(a: word, b: word, c: word, d: word): word { a + b + c + d }

  function T1(h: word, sum1: word, ch: word, k: word, w: word): word { h + sum1 + ch + k + w }

  /** One round: all registers shift, and two of them get a new value. */
  function Round(r: Regs, k: word, w: word): Regs {
    var t1 := T1(r.h, Sum1(r.e), Choose(r.e, r.f, r.g), k, w);
    var t2 := Plus(Sum0(r.a), Majority(r.a, r.b, r.c));
    Regs(Plus(t1, t2), r.a, r.b, r.c, Plus(r.d, t1), r.e, r.f, r.g)
  }

  function Rounds(r: Regs, words: seq<word>, t: nat): Regs
    requires |words| == 16 && t <= 64
  {
    if t == 0 then r else Round(Rounds(r, words, t - 1), K(t - 1), Schedule(words, t - 1))
  }

  function Sum(r: Regs, s: Regs): Regs {
    Regs(Plus(r.a, s.a), Plus(r.b, s.b), Plus(r.c, s.c), Plus(r.d, s.d),
         Plus(r.e, s.e), Plus(r.f, s.f), Plus(r.g, s.g), Plus(r.h, s.h))
  }

  function Words(block: seq<byte>): (w: seq<word>)
    requires |block| == 64
    ensures |w| == 16 && forall i :: 0 <= i < 16 ==> w[i] == Decode(block[4 * i..4 * i + 4])
  {
    seq(16, i requires 0 <= i < 16 => Decode(block[4 * i..4 * i + 4]))
  }

  /** The compression function. */
  function Compress(r: Regs, block: seq<byte>): Regs
    requires |block| == 64
  {
    Sum(r, Rounds(r, Words(block), 64))
  }

  // ----- big-endian words

  /** `be32dec`, which puts two `be16dec` together. */
  function Decode32(a: byte, b: byte, c: byte, d: byte): word {
    (((((a as bv16) << 8) | (b as bv16)) as word) << 16) | ((((c as bv16) << 8) | (d as bv16)) as word)
  }

  function Decode(p: seq<byte>): word
    requires |p| == 4
  {
    Decode32(p[0], p[1], p[2], p[3])
  }

  function Encode(u: word): (p: seq<byte>)
    ensures |p| == 4
  {
    [Byte(u, 24), Byte(u, 16), Byte(u, 8), Byte(u, 0)]
  }

  /** The bits of a word that is put together from four bytes. */
  lemma WordBits(a: byte, b: byte, c: byte, d: byte, u: word)
    requires u == (((((a as bv16) << 8) | (b as bv16)) as word) << 16) | ((((c as bv16) << 8) | (d as bv16)) as word)
    ensures ((u >> 24) & 0xff) as byte == a && ((u >> 16) & 0xff) as byte == b
    ensures ((u >> 8) & 0xff) as byte == c && ((u >> 0) & 0xff) as byte == d
  {
  }

  lemma DecodedBytes(a: byte, b: byte, c: byte, d: byte)
    ensures var u := Decode32(a, b, c, d); Byte(u, 24) == a && Byte(u, 16) == b && Byte(u, 8) == c && Byte(u, 0) == d
  {
    WordBits(a, b, c, d, Decode32(a, b, c, d));
  }

  lemma EncodeDecode(p: seq<byte>)
    requires |p| == 4
    ensures Encode(Decode(p)) == p
  {
    hide Byte, Decode32;
    DecodedBytes(p[0], p[1], p[2], p[3]);
  }

  lemma ByteBits(u: word, a: byte, b: byte, c: byte, d: byte)
    requires ((u >> 24) & 0xff) as byte == a && ((u >> 16) & 0xff) as byte == b
    requires ((u >> 8) & 0xff) as byte == c && ((u >> 0) & 0xff) as byte == d
    ensures u == (((((a as bv16) << 8) | (b as bv16)) as word) << 16) | ((((c as bv16) << 8) | (d as bv16)) as word)
  {
  }

  lemma EncodedWord(u: word)
    ensures Decode32(Byte(u, 24), Byte(u, 16), Byte(u, 8), Byte(u, 0)) == u
  {
    ByteBits(u, Byte(u, 24), Byte(u, 16), Byte(u, 8), Byte(u, 0));
  }

  lemma DecodeEncode(u: word)
    ensures Decode(Encode(u)) == u
  {
    hide Byte, Decode32;
    EncodedWord(u);
  }

  // ----- the compression as mkhash.c does it

  function Ch(x: word, y: word, z: word): word { (x & (y ^ z)) ^ z }
  function Maj(x: word, y: word, z: word): word { (x & (y | z)) | (y & z) }

  lemma ChooseBits(x: word, y: word, z: word)
    ensures (x & (y ^ z)) ^ z == (x & y) ^ (!x & z)
  {
  }

  lemma MajorityBits(x: word, y: word, z: word)
    ensures (x & (y | z)) | (y & z) == (x & y) ^ (x & z) ^ (y & z)
  {
  }

  lemma FastCh(x: word, y: word, z: word)
    ensures Ch(x, y, z) == Choose(x, y, z)
  {
    ChooseBits(x, y, z);
  }

  lemma FastMaj(x: word, y: word, z: word)
    ensures Maj(x, y, z) == Majority(x, y, z)
  {
    MajorityBits(x, y, z);
  }

  /** The registers after i rounds stay where they are; the names move. */
  function View<T>(s: seq<T>, i: nat): Registers<T>
    requires |s| == 8 && i <= 16
  {
    Regs(s[(64 - i) % 8], s[(65 - i) % 8], s[(66 - i) % 8], s[(67 - i) % 8],
         s[(68 - i) % 8], s[(69 - i) % 8], s[(70 - i) % 8], s[(71 - i) % 8])
  }

  /** What the round macro adds to register h. */
  function FastT1(h: word, sum1: word, ch: word, k: word, w: word): word { h + (sum1 + ch + (w + k)) }

  function FastRound(r: Regs, k: word, w: word): Regs {
    var t1 := FastT1(r.h, Sum1(r.e), Ch(r.e, r.f, r.g), k, w);
    Regs(Plus(t1, Plus(Sum0(r.a), Maj(r.a, r.b, r.c))), r.a, r.b, r.c, Plus(r.d, t1), r.e, r.f, r.g)
  }

  lemma SumBits(h: word, sum1: word, ch: word, k: word, w: word)
    ensures h + (sum1 + ch + (w + k)) == h + sum1 + ch + k + w
  {
  }

  lemma FastT1IsT1(h: word, sum1: word, ch: word, k: word, w: word)
    ensures FastT1(h, sum1, ch, k, w) == T1(h, sum1, ch, k, w)
  {
    SumBits(h, sum1, ch, k, w);
  }

  /** The macro computes the standard's round. */
  lemma FastRoundIsRound(r: Regs, k: word, w: word)
    ensures FastRound(r, k, w) == Round(r, k, w)
  {
    hide Sum0, Sum1, Ch, Maj, Choose, Majority, Plus, T1, FastT1;
    FastCh(r.e, r.f, r.g);
    FastMaj(r.a, r.b, r.c);
    FastT1IsT1(r.h, Sum1(r.e), Choose(r.e, r.f, r.g), k, w);
  }

  /** Only d and h are stored to, and every register moves on by one name. */
  lemma ViewStep<T>(s: seq<T>, i: nat, d: T, h: T)
    requires |s| == 8 && i < 16
    ensures var r := View(s, i);
            View(s[(67 - i) % 8 := d][(71 - i) % 8 := h], i + 1) == Regs(h, r.a, r.b, r.c, d, r.e, r.f, r.g)
  {
    var t := s[(67 - i) % 8 := d][(71 - i) % 8 := h];
    assert t[(63 - i) % 8] == h && t[(67 - i) % 8] == d;
    Elsewhere(i, 64);
    Elsewhere(i, 65);
    Elsewhere(i, 66);
    Elsewhere(i, 68);
    Elsewhere(i, 69);
    Elsewhere(i, 70);
  }

  lemma Elsewhere(i: nat, n: nat)
    requires i < 16 && 64 <= n < 71 && n != 67
    ensures (n - i) % 8 != (67 - i) % 8 && (n - i) % 8 != (71 - i) % 8
  {
  }

  /** The round macro with its rotating indices. */
  method RoundRotating(S: array<word>, i: nat, k: word, w: word)
    requires S.Length == 8 && i < 16
    modifies S
    ensures View(S[..], i + 1) == Round(View(old(S[..]), i), k, w)
  {
    hide Sum0, Sum1, Ch, Maj, Round, Plus, FastT1;
    ghost var before := S[..];
    ghost var r := View(before, i);
    var a, b, c := S[(64 - i) % 8], S[(65 - i) % 8], S[(66 - i) % 8];
    var e, f, g := S[(68 - i) % 8], S[(69 - i) % 8], S[(70 - i) % 8];
    var d, h := (67 - i) % 8, (71 - i) % 8;
    var t1 := FastT1(S[h], Sum1(e), Ch(e, f, g), k, w);
    var t2 := Plus(Sum0(a), Maj(a, b, c));
    Stored(S, d, h, t1, t2);
    ViewStep(before, i, Plus(before[d], t1), Plus(t1, t2));
    FastRoundIsRound(r, k, w);
  }

  /** The three assignments of the round macro. */
  method Stored(S: array<word>, d: nat, h: nat, t1: word, t2: word)
    requires S.Length == 8 && d < 8 && h < 8 && d != h
    modifies S
    ensures S[..] == old(S[..])[d := Plus(old(S[d]), t1)][h := Plus(t1, t2)]
  {
    hide Plus;
    S[h] := t1;
    S[d] := Plus(S[d], t1);
    S[h] := Plus(S[h], t2);
  }

  predicate Scheduled(w: seq<word>, words: seq<word>, n: nat)
    requires |w| == 64 && |words| == 16 && n <= 64
  {
    forall t :: 0 <= t < n ==> w[t] == Schedule(words, t)
  }

  /** Sixteen rounds. */
  method SixteenRounds(S: array<word>, W: array<word>, i: nat, ghost r: Regs, ghost words: seq<word>)
    requires S.Length == 8 && W.Length == 64 && S != W && i + 16 <= 64 && |words| == 16
    requires Scheduled(W[..], words, i + 16) && View(S[..], 0) == Rounds(r, words, i)
    modifies S
    ensures View(S[..], 0) == Rounds(r, words, i + 16)
  {
    hide Round, K, Schedule;
    var n := 0;
    while n < 16
      invariant n <= 16 && View(S[..], n) == Rounds(r, words, i + n)
      invariant Scheduled(W[..], words, i + 16)
    {
      assert W[..][i + n] == Schedule(words, i + n);
      RoundRotating(S, n, K(i + n), W[i + n]);
      n := n + 1;
    }
  }

  /** The next sixteen words of the schedule. */
  method ExtendSchedule(W: array<word>, i: nat, ghost words: seq<word>)
    requires W.Length == 64 && i + 32 <= 64 && |words| == 16 && Scheduled(W[..], words, i + 16)
    modifies W
    ensures Scheduled(W[..], words, i + 32)
  {
    hide ScheduleSum;
    var n := 0;
    while n < 16
      invariant n <= 16 && Scheduled(W[..], words, i + 16 + n)
    {
      ghost var before := W[..];
      var t := i + n + 16;
      assert before[t - 2] == Schedule(words, t - 2) && before[t - 7] == Schedule(words, t - 7);
      assert before[t - 15] == Schedule(words, t - 15) && before[t - 16] == Schedule(words, t - 16);
      W[t] := ScheduleSum(W[i + n + 14], W[i + n + 9], W[i + n + 1], W[i + n]);
      assert W[..] == before[t := W[t]];
      n := n + 1;
    }
  }

  /** `SHA256_Transform`: the compression function, with the schedule extended as it is needed. */
  method Transform(state: array<word>, block: seq<byte>)
    requires state.Length == 8 && |block| == 64
    modifies state
    ensures View(state[..], 0) == Compress(View(old(state[..]), 0), block)
  {
    hide Plus, Decode32, Round, K, Schedule, Words;
    ghost var words := Words(block);
    ghost var r := View(state[..], 0);
    var W := new word[64];
    LoadWords(W, block);
    var S := new word[8];
    forall j | 0 <= j < 8 { S[j] := state[j]; }
    assert S[..] == state[..] && Rounds(r, words, 0) == r;
    Mix(S, W, r, words);
    AddState(state, S);
  }

  /** The first part of the schedule. */
  method LoadWords(W: array<word>, block: seq<byte>)
    requires W.Length == 64 && |block| == 64
    modifies W
    ensures Scheduled(W[..], Words(block), 16)
  {
    hide Decode32, ScheduleSum;
    ghost var words := Words(block);
    var t := 0;
    while t < 16
      invariant t <= 16 && Scheduled(W[..], words, t)
    {
      ghost var before := W[..];
      W[t] := Decode(block[4 * t..4 * t + 4]);
      assert W[..] == before[t := words[t]];
      t := t + 1;
    }
  }

  /** The sixty-four rounds. */
  method Mix(S: array<word>, W: array<word>, ghost r: Regs, ghost words: seq<word>)
    requires S.Length == 8 && W.Length == 64 && S != W && |words| == 16
    requires Scheduled(W[..], words, 16) && View(S[..], 0) == r
    modifies S, W
    ensures View(S[..], 0) == Rounds(r, words, 64)
  {
    hide Round, K, Schedule, View;
    var i := 0;
    while i < 64
      invariant 0 <= i <= 64 && i % 16 == 0 && (i < 64 ==> Scheduled(W[..], words, i + 16))
      invariant View(S[..], 0) == Rounds(r, words, i)
    {
      SixteenRounds(S, W, i, r, words);
      if i == 48 {
        i := 64;
        break;
      }
      ExtendSchedule(W, i, words);
      i := i + 16;
    }
  }

  /** The working variables are added to the state. */
  method AddState(state: array<word>, S: array<word>)
    requires state.Length == 8 && S.Length == 8 && state != S
    modifies state
    ensures View(state[..], 0) == Sum(View(old(state[..]), 0), View(S[..], 0))
  {
    hide Plus;
    var j := 0;
    while j < 8
      invariant 0 <= j <= 8
      invariant forall n :: 0 <= n < j ==> state[n] == Plus(old(state[n]), S[n])
      invariant forall n :: j <= n < 8 ==> state[n] == old(state[n])
    {
      state[j] := Plus(state[j], S[j]);
      j := j + 1;
    }
  }

  // ----- a whole message

  /** `be64enc`. */
  function Encode64(n: nat): (p: seq<byte>)
    ensures |p| == 8
  {
    [Octet(n / 0x100_0000_0000_0000), Octet(n / 0x1_0000_0000_0000), Octet(n / 0x100_0000_0000),
     Octet(n / 0x1_0000_0000), Octet(n / 0x100_0000), Octet(n / 0x1_0000), Octet(n / 0x100), Octet(n)]
  }

  /** The length field holds the length. */
  lemma Encode64Value(n: nat)
    requires n < MAX_SIZE
    ensures BigEndianValue(Encode64(n)) == n
  {
    OctetsValue(n, Encode64(n));
  }

  function EncodeWords(words: seq<word>): (p: seq<byte>)
    ensures |p| == 4 * |words|
  {
    if words == [] then [] else EncodeWords(words[..|words| - 1]) + Encode(words[|words| - 1])
  }

  function EncodeRegs(r: Regs): seq<byte> { EncodeWords([r.a, r.b, r.c, r.d, r.e, r.f, r.g, r.h]) }

  /** The digest of a message, section 6.2 of FIPS 180-4. The standard only knows messages of less than 2^64 bits. */
  function Digest(m: seq<byte>): seq<byte> {
    EncodeRegs(Fold(Compress, INITIAL, Blocks(Padded(m, Encode64(8 * |m| % MAX_SIZE)))))
  }

  // ----- the streaming interface

  /** The byte count is the bit count without its last three bits, also when the bit count has wrapped around. */
  lemma BufferedBytes(n: nat)
    ensures 8 * n % MAX_SIZE / 8 % 64 == n % 64
  {
    var q := 8 * n / MAX_SIZE;
    assert 8 * n % MAX_SIZE == 8 * (n - 0x2000_0000_0000_0000 * q);
    assert 8 * n % MAX_SIZE / 8 == n - 64 * (0x80_0000_0000_0000 * q);
  }

  lemma CountAdded(n: nat, k: nat)
    ensures (8 * n % MAX_SIZE + 8 * k % MAX_SIZE) % MAX_SIZE == 8 * (n + k) % MAX_SIZE
  {
  }

  /** The state of a hash over a message that arrives in pieces. */
  class Context {
    const state: array<word>
    /** The number of bits so far, a 64-bit counter. */
    var count: nat
    const buf: array<byte>
    ghost var message: seq<byte>

    ghost predicate Valid()
      reads this, state, buf
    {
      && state.Length == 8 && buf.Length == 64 && count == 8 * |message| % MAX_SIZE
      && View(state[..], 0) == Fold(Compress, INITIAL, Blocks(message)) && buf[..|message| % 64] == Tail(message)
    }

    /** `SHA256_Init`. */
    constructor ()
      ensures Valid() && message == [] && fresh(state) && fresh(buf)
    {
      state := new word[8];
      buf := new byte[64];
      count := 0;
      message := [];
      new;
      state[0], state[1], state[2], state[3] := INITIAL.a, INITIAL.b, INITIAL.c, INITIAL.d;
      state[4], state[5], state[6], state[7] := INITIAL.e, INITIAL.f, INITIAL.g, INITIAL.h;
    }

    /** `SHA256_Update`: the bytes of `src` are added to the message. */
    method Update(src: seq<byte>)
      requires Valid() && |src| < MAX_SIZE
      modifies this, state, buf
      ensures Valid() && message == old(message) + src
    {
      hide Fold, Blocks, Tail, Compress, View;
      var r := count / 8 % 64;
      BufferedBytes(|message|);
      CountAdded(|message|, |src|);
      count := (count + 8 * |src| % MAX_SIZE) % MAX_SIZE;
      if |src| < 64 - r {
        Copy(buf, r, src);
        TailGrows(message, src);
      } else {
        Complete(r, src);
      }
      message := message + src;
    }

    /** The part of `SHA256_Update` that completes the block in the buffer. */
    method Complete(r: nat, src: seq<byte>)
      requires state.Length == 8 && buf.Length == 64 && r == |message| % 64 && 64 - r <= |src|
      requires View(state[..], 0) == Fold(Compress, INITIAL, Blocks(message)) && buf[..r] == Tail(message)
      modifies state, buf
      ensures View(state[..], 0) == Fold(Compress, INITIAL, Blocks(message + src))
      ensures buf[..|message + src| % 64] == Tail(message + src)
    {
      hide Fold, Blocks, Tail, Compress, View;
      Copy(buf, r, src[..64 - r]);
      assert buf[..] == Tail(message) + src[..64 - r];
      Transform(state, buf[..]);
      var rest := src[64 - r..];
      var n := Absorb(state, rest);
      Copy(buf, 0, rest[n..]);
      assert buf[..|rest| % 64] == rest[n..];
      Absorbed(message, src, r);
      BlockCompleted(message, src, r);
    }

    /** `SHA256_Pad`. */
    method Pad()
      requires Valid()
      modifies state, buf
      ensures View(state[..], 0) == Fold(Compress, INITIAL, Blocks(Padded(message, Encode64(8 * |message| % MAX_SIZE))))
    {
      hide Fold, Blocks, Tail, Compress, View, Encode64, Padded, Zeros;
      var r := count / 8 % 64;
      BufferedBytes(|message|);
      ghost var tail := Tail(message);
      ghost var length := Encode64(count);
      PadStart(64 - r);
      if r < 56 {
        PadStart(56 - r);
        Copy(buf, r, PAD[..56 - r]);
        Copy(buf, 56, Encode64(count));
        assert buf[..] == tail + [0x80] + Zeros(55 - r) + length;
        Transform(state, buf[..]);
      } else {
        Copy(buf, r, PAD[..64 - r]);
        assert buf[..] == tail + [0x80] + Zeros(63 - r);
        Transform(state, buf[..]);
        Copy(buf, 0, Zeros(56));
        Copy(buf, 56, Encode64(count));
        assert buf[..] == Zeros(56) + length;
        Transform(state, buf[..]);
      }
      PaddedHash(message, length);
    }

    /** `SHA256_Final`: the digest of the message. The context is cleared. */
    method Final(digest: array<byte>)
      requires Valid() && digest.Length == 32 && digest != buf
      modifies this, state, buf, digest
      ensures digest[..] == Digest(old(message))
      ensures count == 0 && state[..] == seq(8, _ => 0) && buf[..] == Zeros(64)
    {
      hide Fold, Blocks, Compress, Encode64, Padded, Encode;
      Pad();
      EncodeVector(digest, state);
      Clear();
    }

    method Clear()
      requires state.Length == 8 && buf.Length == 64
      modifies this, state, buf
      ensures count == 0 && state[..] == seq(8, _ => 0) && buf[..] == Zeros(64)
    {
      count := 0;
      forall i | 0 <= i < 8 { state[i] := 0; }
      forall i | 0 <= i < 64 { buf[i] := 0; }
    }
  }

  const PAD: seq<byte> := [0x80] + Zeros(63)

  lemma PadStart(n: nat)
    requires 0 < n <= 64
    ensures PAD[..n] == [0x80] + Zeros(n - 1)
  {
  }

  /** The blocks that the padding adds. */
  lemma PaddedHash(m: seq<byte>, length: seq<byte>)
    requires |length| == 8
    ensures var h, last := Fold(Compress, INITIAL, Blocks(m)), LastBlocks(Tail(m), length);
            Fold(Compress, INITIAL, Blocks(Padded(m, length))) ==
            if |last| == 1 then Compress(h, last[0]) else Compress(Compress(h, last[0]), last[1])
  {
    hide Compress, Padded, Zeros, Blocks, LastBlocks, Fold;
    PaddedBlocks(m, length);
    var last := LastBlocks(Tail(m), length);
    FoldConcat(Compress, INITIAL, Blocks(m), last);
    HashLast(Fold(Compress, INITIAL, Blocks(m)), last);
  }

  lemma HashLast(r: Regs, blocks: seq<seq<byte>>)
    requires 1 <= |blocks| <= 2 && forall i :: 0 <= i < |blocks| ==> |blocks[i]| == 64
    ensures Fold(Compress, r, blocks) ==
            if |blocks| == 1 then Compress(r, blocks[0]) else Compress(Compress(r, blocks[0]), blocks[1])
  {
    hide Compress;
    assert Fold(Compress, r, blocks[..|blocks| - 1][..0]) == r;
  }

  /** `be32enc_vect`. */
  method EncodeVector(digest: array<byte>, state: array<word>)
    requires digest.Length == 32 && state.Length == 8
    modifies digest
    ensures digest[..] == EncodeRegs(View(state[..], 0))
  {
    hide Encode;
    var i := 0;
    while i < 8
      invariant i <= 8 && digest[..4 * i] == EncodeWords(state[..i])
    {
      assert state[..i + 1][..i] == state[..i];
      Copy(digest, 4 * i, Encode(state[i]));
      i := i + 1;
    }
    ghost var r := View(state[..], 0);
    assert state[..8] == [r.a, r.b, r.c, r.d, r.e, r.f, r.g, r.h];
    assert digest[..] == digest[..4 * 8];
  }

  /** `sha256_hash`: however the message is cut into pieces, empty ones included, the digest is that of the whole. */
  method HashPieces(pieces: seq<seq<byte>>) returns (digest: array<byte>)
    requires forall i :: 0 <= i < |pieces| ==> |pieces[i]| < MAX_SIZE
    ensures digest[..] == Digest(Joined(pieces))
  {
    hide Digest, Fold, Blocks, View, Tail;
    var ctx := new Context();
    var i := 0;
    while i < |pieces|
      invariant i <= |pieces| && ctx.Valid() && ctx.message == Joined(pieces[..i])
      invariant fresh(ctx) && fresh(ctx.state) && fresh(ctx.buf)
    {
      ctx.Update(pieces[i]);
      assert pieces[..i + 1][..i] == pieces[..i];
      i := i + 1;
    }
    assert pieces[..i] == pieces;
    digest := new byte[32];
    ctx.Final(digest);
  }

  /** The hash after bytes that complete a block. */
  lemma Absorbed(m: seq<byte>, x: seq<byte>, r: nat)
    requires r == |m| % 64 && 64 - r <= |x|
    ensures Fold(Compress, INITIAL, Blocks(m + x)) ==
            Fold(Compress, Compress(Fold(Compress, INITIAL, Blocks(m)), Tail(m) + x[..64 - r]), Blocks(x[64 - r..]))
  {
    hide Compress;
    var first := Tail(m) + x[..64 - r];
    BlockCompleted(m, x, r);
    FoldConcat(Compress, INITIAL, Blocks(m) + [first], Blocks(x[64 - r..]));
    assert (Blocks(m) + [first])[..|Blocks(m)|] == Blocks(m);
  }

  /** The loop over complete blocks. */
  method Absorb(state: array<word>, data: seq<byte>) returns (n: nat)
    requires state.Length == 8
    modifies state
    ensures n == |data| - |data| % 64
    ensures View(state[..], 0) == Fold(Compress, View(old(state[..]), 0), Blocks(data)) && data[n..] == Tail(data)
  {
    hide Compress;
    n := 0;
    while |data| - n >= 64
      invariant n <= |data| && n % 64 == 0
      invariant View(state[..], 0) == Fold(Compress, View(old(state[..]), 0), Blocks(data[..n]))
    {
      BlocksNext(data, n);
      Transform(state, data[n..n + 64]);
      n := n + 64;
    }
    BlocksEnd(data, n);
  }
}
