/** Messages cut into 64-byte blocks, and their padding. Both hashes of mkhash.c work on these. */
module HashBlocks {

  type byte = bv8
  type word = bv32

  const MAX_SIZE := 0x1_0000_0000_0000_0000

  function Zeros(n: nat): (s: seq<byte>)
    ensures |s| == n && forall i :: 0 <= i < n ==> s[i] == 0
  {
    seq(n, _ => 0)
  }

  /** The complete blocks of a message. */
  function Blocks(m: seq<byte>): (blocks: seq<seq<byte>>)
    ensures |blocks| == |m| / 64
    ensures forall i :: 0 <= i < |blocks| ==> |blocks[i]| == 64
  {
    if |m| < 64 then [] else [m[..64]] + Blocks(m[64..])
  }

  /** Every block is compressed into the state that the ones before it have left. */
  function Fold<S(!new)>(compress: (S, seq<byte>) --> S, state: S, blocks: seq<seq<byte>>): S
    requires forall s: S, i :: 0 <= i < |blocks| ==> compress.requires(s, blocks[i])
  {
    if blocks == [] then state
    else compress(Fold(compress, state, blocks[..|blocks| - 1]), blocks[|blocks| - 1])
  }

  lemma {:induction false} FoldConcat<S(!new)>(compress: (S, seq<byte>) --> S, state: S, a: seq<seq<byte>>,
                                        b: seq<seq<byte>>)
    requires forall s: S, i :: 0 <= i < |a| ==> compress.requires(s, a[i])
    requires forall s: S, i :: 0 <= i < |b| ==> compress.requires(s, b[i])
    ensures forall s: S, i :: 0 <= i < |a + b| ==> compress.requires(s, (a + b)[i])
    ensures Fold(compress, state, a + b) == Fold(compress, Fold(compress, state, a), b)
  {
    if b == [] {
      assert a + b == a;
    } else {
      var n := |b| - 1;
      assert (a + b)[..|a + b| - 1] == a + b[..n];
      FoldConcat(compress, state, a, b[..n]);
    }
  }

  /** What is left after the complete blocks. */
  function Tail(m: seq<byte>): (t: seq<byte>)
    ensures |t| == |m| % 64
  {
    m[|m| - |m| % 64..]
  }

  lemma {:induction false} BlocksConcat(a: seq<byte>, b: seq<byte>)
    requires |a| % 64 == 0
    ensures Blocks(a + b) == Blocks(a) + Blocks(b)
  {
    if a == [] {
      assert a + b == b;
    } else {
      assert (a + b)[..64] == a[..64] && (a + b)[64..] == a[64..] + b;
      BlocksConcat(a[64..], b);
    }
  }

  /** Appending to a message only concerns the tail. */
  lemma BlocksAppend(m: seq<byte>, x: seq<byte>)
    ensures Blocks(m + x) == Blocks(m) + Blocks(Tail(m) + x)
    ensures Tail(m + x) == Tail(Tail(m) + x)
  {
    var n := |m| - |m| % 64;
    var front := m[..n];
    assert m == front + Tail(m) && m + x == front + (Tail(m) + x);
    assert Blocks(Tail(m)) == [];
    BlocksConcat(front, Tail(m));
    BlocksConcat(front, Tail(m) + x);
    var r := |Tail(m) + x| % 64;
    assert |m + x| == n + |Tail(m) + x| && |m + x| % 64 == r;
  }

  lemma BlockFirst(block: seq<byte>, rest: seq<byte>)
    requires |block| == 64
    ensures Blocks(block + rest) == [block] + Blocks(rest) && Tail(block + rest) == Tail(rest)
  {
    assert (block + rest)[..64] == block && (block + rest)[64..] == rest;
    assert |block + rest| % 64 == |rest| % 64;
  }

  lemma OneBlock(block: seq<byte>)
    requires |block| == 64
    ensures Blocks(block) == [block]
  {
    assert block[..64] == block && block[64..] == [];
  }

  /** One more complete block. */
  lemma BlocksNext(m: seq<byte>, n: nat)
    requires n % 64 == 0 && n + 64 <= |m|
    ensures Blocks(m[..n + 64]) == Blocks(m[..n]) + [m[n..n + 64]]
  {
    hide Blocks;
    var front, block := m[..n], m[n..n + 64];
    assert m[..n + 64] == front + block;
    BlocksConcat(front, block);
    OneBlock(block);
  }

  lemma Remainder(k: nat, n: nat)
    requires n % 64 == 0 && n <= k < n + 64
    ensures k % 64 == k - n
  {
  }

  lemma FewBytes(m: seq<byte>)
    requires |m| < 64
    ensures Blocks(m) == []
  {
  }

  lemma TailFrom(m: seq<byte>, n: nat)
    requires n <= |m| && |m| % 64 == |m| - n
    ensures Tail(m) == m[n..]
  {
  }

  lemma BlocksCut(m: seq<byte>, n: nat)
    requires n % 64 == 0 && n <= |m|
    ensures Blocks(m) == Blocks(m[..n]) + Blocks(m[n..])
  {
    hide Blocks;
    var a, b := m[..n], m[n..];
    assert m == a + b && |a| == n;
    BlocksConcat(a, b);
  }

  lemma BlocksEnd(m: seq<byte>, n: nat)
    requires n % 64 == 0 && n <= |m| < n + 64
    ensures Blocks(m) == Blocks(m[..n]) && Tail(m) == m[n..]
  {
    hide Blocks, Tail;
    BlocksCut(m, n);
    FewBytes(m[n..]);
    Remainder(|m|, n);
    TailFrom(m, n);
  }

  /** Bytes that do not complete a block are only stored. */
  lemma TailGrows(m: seq<byte>, x: seq<byte>)
    requires |m| % 64 + |x| < 64
    ensures Blocks(m + x) == Blocks(m) && Tail(m + x) == Tail(m) + x && |m + x| % 64 == |m| % 64 + |x|
  {
    BlocksAppend(m, x);
  }

  /** Bytes that complete a block: the completed block, the blocks after it, and the rest. */
  lemma BlockCompleted(m: seq<byte>, x: seq<byte>, r: nat)
    requires r == |m| % 64 && 64 - r <= |x|
    ensures Blocks(m + x) == Blocks(m) + [Tail(m) + x[..64 - r]] + Blocks(x[64 - r..])
    ensures Tail(m + x) == Tail(x[64 - r..]) && |m + x| % 64 == |x[64 - r..]| % 64
  {
    hide Blocks, Tail;
    var first, rest := Tail(m) + x[..64 - r], x[64 - r..];
    BlocksAppend(m, x);
    assert Tail(m) + x == first + rest;
    BlockFirst(first, rest);
    assert Blocks(m) + ([first] + Blocks(rest)) == (Blocks(m) + [first]) + Blocks(rest);
    CompletedRest(|m|, |x|);
  }

  lemma CompletedRest(m: nat, x: nat)
    requires 64 - m % 64 <= x
    ensures (m + x) % 64 == (x - (64 - m % 64)) % 64
  {
  }

  /** Section 5.1.1 of FIPS 180-4 and sections 3.1 and 3.2 of RFC 1321: a one bit, zeros up to 8 bytes before the end
      of a block, and the length. */
  function Padded(m: seq<byte>, length: seq<byte>): seq<byte>
    requires |length| == 8
  {
    m + ([0x80] + Zeros((55 - |m|) % 64) + length)
  }

  /** The padding is the shortest one that completes a block. */
  lemma PaddedShortest(m: seq<byte>, length: seq<byte>, zeros: nat)
    requires |length| == 8
    ensures |Padded(m, length)| % 64 == 0
    ensures (|m| + 1 + zeros + 8) % 64 == 0 ==> |Padded(m, length)| <= |m| + 1 + zeros + 8
  {
  }

  /** The last blocks, given the tail of the message. */
  function LastBlocks(tail: seq<byte>, length: seq<byte>): (last: seq<seq<byte>>)
    requires |tail| < 64 && |length| == 8
    ensures |last| == (if |tail| < 56 then 1 else 2) && forall i :: 0 <= i < |last| ==> |last[i]| == 64
  {
    if |tail| < 56 then [tail + [0x80] + Zeros(55 - |tail|) + length]
    else [tail + [0x80] + Zeros(63 - |tail|), Zeros(56) + length]
  }

  lemma ZerosSum(a: nat, b: nat)
    ensures Zeros(a + b) == Zeros(a) + Zeros(b)
  {
  }

  lemma ShortTail(t: seq<byte>, length: seq<byte>)
    requires |t| < 56 && |length| == 8
    ensures Blocks(t + ([0x80] + Zeros(55 - |t|) + length)) == LastBlocks(t, length)
  {
    var last := t + [0x80] + Zeros(55 - |t|) + length;
    assert t + ([0x80] + Zeros(55 - |t|) + length) == last + [];
    BlockFirst(last, []);
  }

  lemma LongTail(t: seq<byte>, length: seq<byte>)
    requires 56 <= |t| < 64 && |length| == 8
    ensures Blocks(t + ([0x80] + Zeros(119 - |t|) + length)) == LastBlocks(t, length)
  {
    var z := 63 - |t|;
    var first, last := t + [0x80] + Zeros(z), Zeros(56) + length;
    ZerosSum(z, 56);
    assert t + ([0x80] + (Zeros(z) + Zeros(56)) + length) == first + (last + []);
    BlockFirst(last, []);
    BlockFirst(first, last + []);
  }

  lemma PadZeros(n: nat)
    ensures (55 - n) % 64 == if n % 64 < 56 then 55 - n % 64 else 119 - n % 64
  {
  }

  lemma PaddedBlocks(m: seq<byte>, length: seq<byte>)
    requires |length| == 8
    ensures Blocks(Padded(m, length)) == Blocks(m) + LastBlocks(Tail(m), length)
  {
    hide Blocks, Zeros, LastBlocks, Tail;
    var t := Tail(m);
    var zeros := (55 - |m|) % 64;
    BlocksAppend(m, [0x80] + Zeros(zeros) + length);
    PadZeros(|m|);
    if |t| < 56 { ShortTail(t, length); } else { LongTail(t, length); }
  }

  /** `memcpy`. */
  method Copy(buf: array<byte>, at: nat, data: seq<byte>)
    requires at + |data| <= buf.Length
    modifies buf
    ensures buf[..] == old(buf[..at]) + data + old(buf[at + |data|..])
  {
    ghost var was := buf[..];
    var i := 0;
    while i < |data|
      invariant i <= |data| && buf[..] == Copied(was, at, data[..i])
    {
      CopyOne(was, at, data, i);
      buf[at + i] := data[i];
      i := i + 1;
    }
    assert data[..|data|] == data && was[..at] == old(buf[..at]) && was[at + |data|..] == old(buf[at + |data|..]);
  }

  function Copied(buf: seq<byte>, at: nat, data: seq<byte>): seq<byte>
    requires at + |data| <= |buf|
  {
    buf[..at] + data + buf[at + |data|..]
  }

  lemma CopyOne(buf: seq<byte>, at: nat, data: seq<byte>, i: nat)
    requires at + |data| <= |buf| && i < |data|
    ensures |Copied(buf, at, data[..i])| == |buf|
    ensures Copied(buf, at, data[..i])[at + i := data[i]] == Copied(buf, at, data[..i + 1])
  {
  }

  /** The parts of a message that were passed in one by one. */
  function Joined(parts: seq<seq<byte>>): seq<byte> {
    if parts == [] then [] else Joined(parts[..|parts| - 1]) + parts[|parts| - 1]
  }

  // ----- words and numbers as bytes

  function Byte(u: word, shift: nat): byte
    requires shift < 32
  {
    ((u >> shift) & 0xff) as byte
  }

  /** The lowest eight bits of a number. */
  function Octet(n: nat): byte { (n % 256) as byte }

  lemma NextByte(b: byte)
    requires b as nat < 255
    ensures (b + 1) as nat == b as nat + 1
  {
  }

  lemma {:induction false} ByteOf(x: nat) returns (b: byte)
    requires x < 256
    ensures b as nat == x
  {
    if x == 0 {
      b := 0;
    } else {
      var c := ByteOf(x - 1);
      NextByte(c);
      b := c + 1;
    }
  }

  lemma SameByte(b: byte)
    ensures (b as nat) as byte == b
  {
  }

  lemma ByteValue(x: nat)
    requires x < 256
    ensures (x as byte) as nat == x
  {
    var b := ByteOf(x);
    SameByte(b);
  }

  lemma OctetValue(n: nat)
    ensures Octet(n) as nat == n % 256
  {
    ByteValue(n % 256);
  }

  function BigEndianValue(p: seq<byte>): nat {
    if p == [] then 0 else 256 * BigEndianValue(p[..|p| - 1]) + (p[|p| - 1] as nat)
  }

  /** One more byte at the end. */
  lemma LastOctet(p: seq<byte>, rest: seq<byte>, n: nat)
    requires p == rest + [Octet(n)] && BigEndianValue(rest) == n / 256
    ensures BigEndianValue(p) == n
  {
    OctetValue(n);
    assert p[..|p| - 1] == rest;
  }

  lemma FourOctets(p: seq<byte>, rest: seq<byte>, n: nat)
    requires p == rest + [Octet(n / 0x100_0000), Octet(n / 0x1_0000), Octet(n / 0x100), Octet(n)]
    requires BigEndianValue(rest) == n / 0x1_0000_0000
    ensures BigEndianValue(p) == n
  {
    hide Octet, BigEndianValue;
    var k := |rest|;
    assert n / 0x100_0000 / 256 == n / 0x1_0000_0000 && p[..k] == rest;
    LastOctet(p[..k + 1], rest, n / 0x100_0000);
    assert n / 0x1_0000 / 256 == n / 0x100_0000;
    LastOctet(p[..k + 2], p[..k + 1], n / 0x1_0000);
    assert n / 0x100 / 256 == n / 0x1_0000;
    LastOctet(p[..k + 3], p[..k + 2], n / 0x100);
    LastOctet(p, p[..k + 3], n);
  }

  lemma OctetsValue(n: nat, p: seq<byte>)
    requires n < MAX_SIZE
    requires p == [Octet(n / 0x100_0000_0000_0000), Octet(n / 0x1_0000_0000_0000), Octet(n / 0x100_0000_0000),
                   Octet(n / 0x1_0000_0000), Octet(n / 0x100_0000), Octet(n / 0x1_0000), Octet(n / 0x100), Octet(n)]
    ensures BigEndianValue(p) == n
  {
    hide Octet, BigEndianValue;
    EmptyValue();
    var high := n / 0x1_0000_0000;
    assert high / 0x100_0000 == n / 0x100_0000_0000_0000 && high / 0x1_0000 == n / 0x1_0000_0000_0000;
    assert high / 0x100 == n / 0x100_0000_0000 && high / 0x1_0000_0000 == 0;
    FourOctets(p[..4], [], high);
    FourOctets(p, p[..4], n);
  }

  lemma EmptyValue()
    ensures BigEndianValue([]) == 0
  {
  }
}
