/** The portable SHA-256 of src/audit.c: a streaming context fed byte by byte,
    against the block definition of FIPS 180-4. */
module Sha256 {

  type Byte = bv8
  type Word = bv32

  // ---------------------------------------- functions of section 4.1.2 and 4.2.2

  function RotR(x: Word, n: bv6): Word
    requires 0 < n < 32
  {
    (x >> n) | (x << (32 - n))
  }

  function ShR(x: Word, n: bv6): Word
    requires 0 < n < 32
  {
    x >> n
  }

  function Ch(x: Word, y: Word, z: Word): Word {
    (x & y) ^ (!x & z)
  }

  function Maj(x: Word, y: Word, z: Word): Word {
    (x & y) ^ (x & z) ^ (y & z)
  }

  function Xor(x: Word, y: Word): Word {
    x ^ y
  }

  function BigSigma0(x: Word): Word {
    Xor(Xor(RotR(x, 2), RotR(x, 13)), RotR(x, 22))
  }

  function BigSigma1(x: Word): Word {
    Xor(Xor(RotR(x, 6), RotR(x, 11)), RotR(x, 25))
  }

  function SmallSigma0(x: Word): Word {
    Xor(Xor(RotR(x, 7), RotR(x, 18)), ShR(x, 3))
  }

  function SmallSigma1(x: Word): Word {
    Xor(Xor(RotR(x, 17), RotR(x, 19)), ShR(x, 10))
  }

  function Add(x: Word, y: Word): Word {
    x + y
  }

  const K: seq<Word> :=
    (([0x428a2f98, 0x71374491, 0xb5c0fbcf, 0xe9b5dba5, 0x3956c25b, 0x59f111f1, 0x923f82a4, 0xab1c5ed5] +
      [0xd807aa98, 0x12835b01, 0x243185be, 0x550c7dc3, 0x72be5d74, 0x80deb1fe, 0x9bdc06a7, 0xc19bf174]) +
     ([0xe49b69c1, 0xefbe4786, 0x0fc19dc6, 0x240ca1cc, 0x2de92c6f, 0x4a7484aa, 0x5cb0a9dc, 0x76f988da] +
      [0x983e5152, 0xa831c66d, 0xb00327c8, 0xbf597fc7, 0xc6e00bf3, 0xd5a79147, 0x06ca6351, 0x14292967])) +
    (([0x27b70a85, 0x2e1b2138, 0x4d2c6dfc, 0x53380d13, 0x650a7354, 0x766a0abb, 0x81c2c92e, 0x92722c85] +
      [0xa2bfe8a1, 0xa81a664b, 0xc24b8b70, 0xc76c51a3, 0xd192e819, 0xd6990624, 0xf40e3585, 0x106aa070]) +
     ([0x19a4c116, 0x1e376c08, 0x2748774c, 0x34b0bcb5, 0x391c0cb3, 0x4ed8aa4a, 0x5b9cca4f, 0x682e6ff3] +
      [0x748f82ee, 0x78a5636f, 0x84c87814, 0x8cc70208, 0x90befffa, 0xa4506ceb, 0xbef9a3f7, 0xc67178f2]))

  const H0: seq<Word> := [
    0x6a09e667, 0xbb67ae85, 0x3c6ef372, 0xa54ff53a, 0x510e527f, 0x9b05688c, 0x1f83d9ab, 0x5be0cd19]

  // --------------------------------------------- compression, section 6.2.2

  function WordAt(block: seq<Byte>, i: nat): Word
    requires 4 * i + 3 < |block|
  {
    ((block[4 * i] as Word) << 24) | ((block[4 * i + 1] as Word) << 16)
    | ((block[4 * i + 2] as Word) << 8) | (block[4 * i + 3] as Word)
  }

  /** The message schedule word W_t. */
  function Schedule(block: seq<Byte>, t: nat): Word
    requires |block| == 64
  {
    if t < 16 then WordAt(block, t)
    else Add(Add(Add(SmallSigma1(Schedule(block, t - 2)), Schedule(block, t - 7)),
                 SmallSigma0(Schedule(block, t - 15))), Schedule(block, t - 16))
  }

  datatype Vars = Vars(a: Word, b: Word, c: Word, d: Word, e: Word, f: Word, g: Word, h: Word)

  function Round(v: Vars, k: Word, w: Word): Vars {
    var t1 := Add(Add(Add(Add(v.h, BigSigma1(v.e)), Ch(v.e, v.f, v.g)), k), w);
    var t2 := Add(BigSigma0(v.a), Maj(v.a, v.b, v.c));
    Vars(Add(t1, t2), v.a, v.b, v.c, Add(v.d, t1), v.e, v.f, v.g)
  }

  /** The working variables after t rounds. */
  function Rounds(v: Vars, block: seq<Byte>, t: nat): Vars
    requires |block| == 64 && t <= 64
  {
    if t == 0 then v else Round(Rounds(v, block, t - 1), K[t - 1], Schedule(block, t - 1))
  }

  function VarsOf(h: seq<Word>): Vars
    requires |h| == 8
  {
    Vars(h[0], h[1], h[2], h[3], h[4], h[5], h[6], h[7])
  }

  function Compress(h: seq<Word>, block: seq<Byte>): (r: seq<Word>)
    requires |h| == 8 && |block| == 64
    ensures |r| == 8
  {
    var v := Rounds(VarsOf(h), block, 64);
    [Add(h[0], v.a), Add(h[1], v.b), Add(h[2], v.c), Add(h[3], v.d),
     Add(h[4], v.e), Add(h[5], v.f), Add(h[6], v.g), Add(h[7], v.h)]
  }

  // ------------------------------------------ padding and hashing, 5.1.1 and 6.2

  /** The least count of zero bytes that leaves room for exactly the length field. */
  function ZeroCount(length: nat): (k: nat)
    ensures k < 64 && (length + 1 + k) % 64 == 56
  {
    (119 - length % 64) % 64
  }

  /** The 64-bit big-endian length in bits. */
  function LengthField(bits: nat, n: nat): (f: seq<Byte>)
    ensures |f| == n
  {
    if n == 0 then [] else LengthField(bits / 256, n - 1) + [(bits % 256) as Byte]
  }

  function Zeros(n: nat): (z: seq<Byte>)
    ensures |z| == n
  {
    seq(n, i => 0)
  }

  function Pad(message: seq<Byte>): (p: seq<Byte>)
    ensures |p| % 64 == 0
  {
    var zeros := ZeroCount(|message|);
    assert (|message| + 1 + zeros + 8) % 64 == 0;
    message + [0x80] + Zeros(zeros) + LengthField(8 * |message|, 8)
  }

  /** The hash value after the 64-byte blocks of the data. */
  function HashBlocks(h: seq<Word>, data: seq<Byte>): (r: seq<Word>)
    requires |h| == 8 && |data| % 64 == 0
    ensures |r| == 8
    decreases |data|
  {
    if data == [] then h else HashBlocks(Compress(h, data[..64]), data[64..])
  }

  function WordBytes(w: Word): seq<Byte> {
    [(w >> 24) as Byte, ((w >> 16) & 0xFF) as Byte, ((w >> 8) & 0xFF) as Byte, (w & 0xFF) as Byte]
  }

  function DigestBytes(h: seq<Word>): seq<Byte> {
    if h == [] then [] else WordBytes(h[0]) + DigestBytes(h[1..])
  }

  /** SHA-256 by definition. */
  function Digest(message: seq<Byte>): seq<Byte> {
    DigestBytes(HashBlocks(H0, Pad(message)))
  }

  // ------------------------------------------------------- the streaming context

  const WRAP: nat := 0x1_0000_0000_0000_0000

  /** The 64 rounds of sha256_compress. */
  method RunRounds(v0: Vars, w: array<Word>, ghost block: seq<Byte>) returns (v: Vars)
    requires |block| == 64 && w.Length == 64 && forall t | 0 <= t < 64 :: w[t] == Schedule(block, t)
    ensures v == Rounds(v0, block, 64)
  {
    hide Add, BigSigma0, BigSigma1, Ch, Maj, Schedule;
    var a, b, c, d, e, f, g, h := v0.a, v0.b, v0.c, v0.d, v0.e, v0.f, v0.g, v0.h;
    var i := 0;
    while i < 64
      invariant 0 <= i <= 64
      invariant Vars(a, b, c, d, e, f, g, h) == Rounds(v0, block, i)
    {
      var t1 := Add(Add(Add(Add(h, BigSigma1(e)), Ch(e, f, g)), K[i]), w[i]);
      var t2 := Add(BigSigma0(a), Maj(a, b, c));
      h := g;
      g := f;
      f := e;
      e := Add(d, t1);
      d := c;
      c := b;
      b := a;
      a := Add(t1, t2);
      i := i + 1;
    }
    return Vars(a, b, c, d, e, f, g, h);
  }

  /** sha256_compress, in place. */
  method CompressInPlace(st: array<Word>, block: array<Byte>)
    requires st.Length == 8 && block.Length == 64
    modifies st
    ensures st[..] == Compress(old(st[..]), block[..])
  {
    hide Add, Rounds;
    ghost var h := st[..];
    var w := MessageSchedule(block);
    var v := RunRounds(Vars(st[0], st[1], st[2], st[3], st[4], st[5], st[6], st[7]), w, block[..]);
    assert v == Rounds(VarsOf(h), block[..], 64);
    st[0] := Add(st[0], v.a);
    st[1] := Add(st[1], v.b);
    st[2] := Add(st[2], v.c);
    st[3] := Add(st[3], v.d);
    st[4] := Add(st[4], v.e);
    st[5] := Add(st[5], v.f);
    st[6] := Add(st[6], v.g);
    st[7] := Add(st[7], v.h);
  }

  method MessageSchedule(block: array<Byte>) returns (w: array<Word>)
    requires block.Length == 64
    ensures fresh(w) && w.Length == 64
    ensures forall t | 0 <= t < 64 :: w[t] == Schedule(block[..], t)
  {
    hide Add, SmallSigma0, SmallSigma1, WordAt;
    ghost var blk := block[..];
    w := new Word[64];
    var i := 0;
    while i < 16
      invariant 0 <= i <= 16 && block[..] == blk
      invariant forall t | 0 <= t < i :: w[t] == Schedule(blk, t)
    {
      w[i] := BigEndian(block[4 * i], block[4 * i + 1], block[4 * i + 2], block[4 * i + 3]);
      WordAtIs(blk, i);
      i := i + 1;
    }
    while i < 64
      invariant 16 <= i <= 64 && block[..] == blk
      invariant forall t | 0 <= t < i :: w[t] == Schedule(blk, t)
    {
      w[i] := Add(Add(Add(SmallSigma1(w[i - 2]), w[i - 7]), SmallSigma0(w[i - 15])), w[i - 16]);
      i := i + 1;
    }
  }

  function BigEndian(b0: Byte, b1: Byte, b2: Byte, b3: Byte): Word {
    ((b0 as Word) << 24) | ((b1 as Word) << 16) | ((b2 as Word) << 8) | (b3 as Word)
  }

  lemma WordAtIs(block: seq<Byte>, i: nat)
    requires 4 * i + 3 < |block|
    ensures WordAt(block, i) == BigEndian(block[4 * i], block[4 * i + 1], block[4 * i + 2], block[4 * i + 3])
  {}

  lemma {:induction false} HashOneMore(h: seq<Word>, data: seq<Byte>, block: seq<Byte>)
    requires |h| == 8 && |data| % 64 == 0 && |block| == 64
    ensures HashBlocks(h, data + block) == Compress(HashBlocks(h, data), block)
    decreases |data|
  {
    hide Compress;
    if data == [] {
      assert data + block == block && block[..64] == block && block[64..] == [];
    } else {
      assert (data + block)[..64] == data[..64] && (data + block)[64..] == data[64..] + block;
      HashOneMore(Compress(h, data[..64]), data[64..], block);
    }
  }

  /** The part of a message in complete blocks, and the rest. */
  function Whole(message: seq<Byte>): (w: seq<Byte>)
    ensures |w| % 64 == 0
  {
    message[..|message| - |message| % 64]
  }

  function Partial(message: seq<Byte>): (p: seq<Byte>)
    ensures |p| == |message| % 64
  {
    message[|message| - |message| % 64..]
  }

  lemma OneMoreByte(message: seq<Byte>, b: Byte)
    ensures var m := message + [b];
            if |Partial(message)| == 63
            then Whole(m) == Whole(message) + (Partial(message) + [b]) && Partial(m) == []
            else Whole(m) == Whole(message) && Partial(m) == Partial(message) + [b]
  {}

  /** SHA256CTX. `message` is everything fed so far. */
  class Context {
    const state: array<Word>
    const buf: array<Byte>
    var count: nat
    var bufLen: nat
    ghost var message: seq<Byte>

    ghost predicate Valid()
      reads this, state, buf
    {
      && state.Length == 8 && buf.Length == 64
      && bufLen < 64 && count == |message| % WRAP
      && buf[..bufLen] == Partial(message)
      && state[..] == HashBlocks(H0, Whole(message))
    }

    /** sha256_init */
    constructor ()
      ensures Valid() && fresh(state) && fresh(buf) && message == []
    {
      hide Compress;
      state := new Word[8](i requires 0 <= i < 8 => H0[i]);
      buf := new Byte[64];
      count, bufLen, message := 0, 0, [];
      new;
      assert state[..] == H0;
    }

    /** sha256_update on one byte */
    method UpdateByte(b: Byte)
      requires Valid()
      modifies this, state, buf
      ensures Valid() && message == old(message) + [b]
    {
      hide Compress, HashBlocks, Whole, Partial;
      OneMoreByte(message, b);
      ghost var partial := Partial(message);
      buf[bufLen] := b;
      assert buf[..bufLen + 1] == partial + [b];
      bufLen := bufLen + 1;
      count := (count + 1) % WRAP;
      if bufLen == 64 {
        assert buf[..] == partial + [b];
        HashOneMore(H0, Whole(message), buf[..]);
        CompressInPlace(state, buf);
        bufLen := 0;
      }
      message := message + [b];
    }

    /** sha256_update: what has been fed is all that matters, not how it was cut. */
    method Update(data: seq<Byte>)
      requires Valid()
      modifies this, state, buf
      ensures Valid() && message == old(message) + data
    {
      hide Compress, HashBlocks, Valid;
      var i := 0;
      while i < |data|
        invariant i <= |data| && Valid()
        invariant message == old(message) + data[..i]
      {
        UpdateByte(data[i]);
        i := i + 1;
      }
    }

    /** sha256_final */
    method Final() returns (digest: seq<Byte>)
      requires Valid()
      modifies this, state, buf
      ensures digest == Digest(old(message))
    {
      hide Compress, HashBlocks, Valid, LengthField;
      ghost var m := message;
      var bits := (Count() * 8) % WRAP;
      UpdateByte(0x80);
      PadWithZeros(m);
      var field := LengthBytes(bits);
      CountWraps(|m|);
      Update(field);
      assert message == Pad(m);
      WholeBlocks();
      digest := StateBytes();
    }

    function Count(): (c: nat)
      requires Valid()
      reads this, state, buf
      ensures c == |message| % WRAP
    {
      count
    }

    /** while (buf_len != 56) feed a zero */
    method PadWithZeros(ghost m: seq<Byte>)
      requires Valid() && message == m + [0x80]
      modifies this, state, buf
      ensures Valid() && message == m + [0x80] + Zeros(ZeroCount(|m|))
    {
      hide Compress, HashBlocks;
      ghost var zeros := 0;
      PadStops(|m|, zeros);
      while bufLen != 56
        invariant Valid() && zeros <= ZeroCount(|m|)
        invariant message == m + [0x80] + Zeros(zeros)
        decreases ZeroCount(|m|) - zeros
      {
        PadStops(|m|, zeros);
        assert Zeros(zeros) + [0] == Zeros(zeros + 1);
        UpdateByte(0);
        zeros := zeros + 1;
      }
      PadStops(|m|, zeros);
    }

    lemma WholeBlocks()
      requires Valid() && |message| % 64 == 0
      ensures state.Length == 8 && state[..] == HashBlocks(H0, message)
    {
      assert Whole(message) == message;
    }

    method StateBytes() returns (digest: seq<Byte>)
      requires state.Length == 8
      ensures digest == DigestBytes(state[..])
    {
      hide WordBytes;
      digest := [];
      var i := 0;
      while i < 8
        invariant 0 <= i <= 8
        invariant digest + DigestBytes(state[i..]) == DigestBytes(state[..])
      {
        assert state[i..][0] == state[i] && state[i..][1..] == state[i + 1..];
        digest := digest + WordBytes(state[i]);
        i := i + 1;
      }
    }
  }

  /** The eight bytes of the bit count, filled from the last one. */
  method LengthBytes(bits: nat) returns (field: seq<Byte>)
    ensures field == LengthField(bits, 8)
  {
    field := [];
    var rest := bits;
    var i := 0;
    while i < 8
      invariant 0 <= i <= 8
      invariant LengthField(rest, 8 - i) + field == LengthField(bits, 8)
    {
      field := [(rest % 256) as Byte] + field;
      rest := rest / 256;
      i := i + 1;
    }
  }

  /** The loop that pads stops at the first length that is 56 modulo 64. */
  lemma PadStops(length: nat, zeros: nat)
    requires zeros <= ZeroCount(length)
    ensures (length + 1 + zeros) % 64 == 56 <==> zeros == ZeroCount(length)
  {}

  function Pow256(n: nat): nat {
    if n == 0 then 1 else 256 * Pow256(n - 1)
  }

  lemma {:induction false} LengthFieldWraps(a: nat, j: nat, n: nat)
    ensures LengthField(a + j * Pow256(n), n) == LengthField(a, n)
  {
    if n > 0 {
      var x := j * Pow256(n - 1);
      assert j * Pow256(n) == 256 * x;
      assert (a + 256 * x) / 256 == a / 256 + x && (a + 256 * x) % 256 == a % 256;
      LengthFieldWraps(a / 256, j, n - 1);
    }
  }

  /** The wrapped counter gives the length field of the true length. */
  lemma CountWraps(length: nat)
    ensures LengthField((length % WRAP * 8) % WRAP, 8) == LengthField(8 * length, 8)
  {
    var c := length % WRAP;
    var bits := (c * 8) % WRAP;
    var j := 8 * (length / WRAP) + (c * 8) / WRAP;
    assert 8 * length == bits + j * WRAP;
    assert Pow256(8) == WRAP;
    LengthFieldWraps(bits, j, 8);
  }
}
