/** SHA-256 as FIPS 180-4 defines it, over messages of whole bytes. */
module Sha256Spec {
  type Byte = bv8
  type Word = bv32

  // ---- Functions and constants (sections 4.1.2, 4.2.2 and 5.3.3) ----

  /** Addition modulo 2^32. */
  function Add(x: Word, y: Word): Word { x + y }

  function Ch(x: Word, y: Word, z: Word): Word { (x & y) ^ (!x & z) }

  function Maj(x: Word, y: Word, z: Word): Word { (x & y) ^ (x & z) ^ (y & z) }

  function BigSigma0(x: Word): Word { x.RotateRight(2) ^ x.RotateRight(13) ^ x.RotateRight(22) }

  function BigSigma1(x: Word): Word { x.RotateRight(6) ^ x.RotateRight(11) ^ x.RotateRight(25) }

  function SmallSigma0(x: Word): Word { x.RotateRight(7) ^ x.RotateRight(18) ^ (x >> 3) }

  function SmallSigma1(x: Word): Word { x.RotateRight(17) ^ x.RotateRight(19) ^ (x >> 10) }

  /** The constants, four to a row. */
  const K: seq<seq<Word>> := [
    [0x428a2f98, 0x71374491, 0xb5c0fbcf, 0xe9b5dba5],
    [0x3956c25b, 0x59f111f1, 0x923f82a4, 0xab1c5ed5],
    [0xd807aa98, 0x12835b01, 0x243185be, 0x550c7dc3],
    [0x72be5d74, 0x80deb1fe, 0x9bdc06a7, 0xc19bf174],
    [0xe49b69c1, 0xefbe4786, 0x0fc19dc6, 0x240ca1cc],
    [0x2de92c6f, 0x4a7484aa, 0x5cb0a9dc, 0x76f988da],
    [0x983e5152, 0xa831c66d, 0xb00327c8, 0xbf597fc7],
    [0xc6e00bf3, 0xd5a79147, 0x06ca6351, 0x14292967],
    [0x27b70a85, 0x2e1b2138, 0x4d2c6dfc, 0x53380d13],
    [0x650a7354, 0x766a0abb, 0x81c2c92e, 0x92722c85],
    [0xa2bfe8a1, 0xa81a664b, 0xc24b8b70, 0xc76c51a3],
    [0xd192e819, 0xd6990624, 0xf40e3585, 0x106aa070],
    [0x19a4c116, 0x1e376c08, 0x2748774c, 0x34b0bcb5],
    [0x391c0cb3, 0x4ed8aa4a, 0x5b9cca4f, 0x682e6ff3],
    [0x748f82ee, 0x78a5636f, 0x84c87814, 0x8cc70208],
    [0x90befffa, 0xa4506ceb, 0xbef9a3f7, 0xc67178f2]
  ]

  function Constant(t: nat): Word
    requires t < 64
  {
    K[t / 4][t % 4]
  }

  /** The initial hash value, of section 5.3.3. */
  const H0: seq<Word> := [0x6a09e667, 0xbb67ae85, 0x3c6ef372, 0xa54ff53a,
                          0x510e527f, 0x9b05688c, 0x1f83d9ab, 0x5be0cd19]

  // ---- Padding (section 5.1.1) ----

  function Zeros(n: nat): (s: seq<Byte>)
    ensures |s| == n && forall i :: 0 <= i < n ==> s[i] == 0
  {
    seq(n, _ => 0)
  }

  /** The lowest `k` bytes of `n`, most significant first. */
  function BigEndian(n: nat, k: nat): (s: seq<Byte>)
    ensures |s| == k
  {
    if k == 0 then [] else BigEndian(n / 0x100, k - 1) + [(n % 0x100) as Byte]
  }

  /** The number of zero bytes after the byte 0x80. */
  function ZeroBytes(len: nat): (z: nat)
    ensures z < 64 && (len + 1 + z) % 64 == 56
  {
    (119 - len % 64) % 64
  }

  /** The message, a 1 bit, zero bits and a 64-bit length. */
  function PadWith(m: seq<Byte>, bits: nat): (p: seq<Byte>)
    ensures |p| == |m| + ZeroBytes(|m|) + 9 && |p| % 64 == 0
  {
    m + [0x80] + Zeros(ZeroBytes(|m|)) + BigEndian(bits, 8)
  }

  function Pad(m: seq<Byte>): seq<Byte>
    requires |m| < 0x2000_0000_0000_0000
  {
    PadWith(m, 8 * |m|)
  }

  // ---- The computation (sections 5.2.1 and 6.2.2) ----

  type Block = b: seq<Byte> | |b| == 64 witness Zeros(64)

  function BlockWord(b: Block, t: nat): Word
    requires t < 16
  {
    ((b[4 * t] as Word) << 24) | ((b[4 * t + 1] as Word) << 16) | ((b[4 * t + 2] as Word) << 8) | (b[4 * t + 3] as Word)
  }

  function NextWord(w2: Word, w7: Word, w15: Word, w16: Word): Word {
    Add(Add(Add(SmallSigma1(w2), w7), SmallSigma0(w15)), w16)
  }

  function Schedule(b: Block, t: nat): Word
    requires t < 64
  {
    if t < 16 then BlockWord(b, t)
    else NextWord(Schedule(b, t - 2), Schedule(b, t - 7), Schedule(b, t - 15), Schedule(b, t - 16))
  }

  datatype Registers = Registers(a: Word, b: Word, c: Word, d: Word, e: Word, f: Word, g: Word, h: Word)

  function Round(r: Registers, k: Word, w: Word): Registers {
    var t1 := Add(Add(Add(Add(r.h, BigSigma1(r.e)), Ch(r.e, r.f, r.g)), k), w);
    var t2 := Add(BigSigma0(r.a), Maj(r.a, r.b, r.c));
    Registers(Add(t1, t2), r.a, r.b, r.c, Add(r.d, t1), r.e, r.f, r.g)
  }

  function Rounds(r: Registers, b: Block, t: nat): Registers
    requires t <= 64
  {
    if t == 0 then r else Round(Rounds(r, b, t - 1), Constant(t - 1), Schedule(b, t - 1))
  }

  type HashValue = h: seq<Word> | |h| == 8 witness H0

  function Load(h: HashValue): Registers {
    Registers(h[0], h[1], h[2], h[3], h[4], h[5], h[6], h[7])
  }

  function Compress(h: HashValue, b: Block): HashValue {
    AddTo(h, Rounds(Load(h), b, 64))
  }

  function AddTo(h: HashValue, r: Registers): HashValue {
    [Add(h[0], r.a), Add(h[1], r.b), Add(h[2], r.c), Add(h[3], r.d),
     Add(h[4], r.e), Add(h[5], r.f), Add(h[6], r.g), Add(h[7], r.h)]
  }

  /** The padded message is parsed into blocks of 64 bytes, which are compressed in order. */
  function CompressAll(h: HashValue, p: seq<Byte>): HashValue
    decreases |p|
  {
    if |p| < 64 then h else CompressAll(Compress(h, p[..64]), p[64..])
  }

  /** The blocks in the order in which they are compressed. */
  function Blocks(p: seq<Byte>): (bs: seq<Block>)
    decreases |p|
  {
    if |p| < 64 then [] else [p[..64]] + Blocks(p[64..])
  }

  function Fold(h: HashValue, bs: seq<Block>): HashValue
    decreases |bs|
  {
    if bs == [] then h else Fold(Compress(h, bs[0]), bs[1..])
  }

  function WordBytes(w: Word): (s: seq<Byte>)
    ensures |s| == 4
  {
    [((w >> 24) & 0xff) as Byte, ((w >> 16) & 0xff) as Byte, ((w >> 8) & 0xff) as Byte, (w & 0xff) as Byte]
  }

  function Digest(h: seq<Word>): (d: seq<Byte>)
    ensures |d| == 4 * |h|
  {
    if h == [] then [] else WordBytes(h[0]) + Digest(h[1..])
  }

  function HashWith(m: seq<Byte>, bits: nat): (d: seq<Byte>) {
    Digest(CompressAll(H0, PadWith(m, bits)))
  }

  function Sha256(m: seq<Byte>): (d: seq<Byte>)
    requires |m| < 0x2000_0000_0000_0000
  {
    Digest(CompressAll(H0, Pad(m)))
  }
}
