/** The SHA-256 of benchmark/src/hashing.c: in-place state, message schedule and final block, proved equal to the
    standard's definition. */
module Sha256 {
  import opened Modular
  import opened Sha256Spec

  // ---- The macros ----

  function EP0(x: Word): Word {
    ((x >> 2) | (x << 30)) ^ ((x >> 13) | (x << 19)) ^ ((x >> 22) | (x << 10))
  }

  function EP1(x: Word): Word {
    ((x >> 6) | (x << 26)) ^ ((x >> 11) | (x << 21)) ^ ((x >> 25) | (x << 7))
  }

  function SIG0(x: Word): Word {
    ((x >> 7) | (x << 25)) ^ ((x >> 18) | (x << 14)) ^ (x >> 3)
  }

  function SIG1(x: Word): Word {
    ((x >> 17) | (x << 15)) ^ ((x >> 19) | (x << 13)) ^ (x >> 10)
  }

  function CH(e: Word, f: Word, g: Word): Word { (e & f) ^ (!e & g) }

  function MAJ(a: Word, b: Word, c: Word): Word { (a & b) ^ (a & c) ^ (b & c) }

  lemma ScheduleMacros(x: Word, y: Word)
    ensures SIG0(x) == SmallSigma0(x) && SIG1(y) == SmallSigma1(y)
  {
  }

  lemma ChoiceMacros(a: Word, b: Word, c: Word, e: Word, f: Word, g: Word)
    ensures CH(e, f, g) == Ch(e, f, g) && MAJ(a, b, c) == Maj(a, b, c)
  {
  }

  lemma SigmaMacros(a: Word, e: Word)
    ensures EP0(a) == BigSigma0(a) && EP1(e) == BigSigma1(e)
  {
  }

  // ---- One block ----

  lemma ScheduleFirst(block: Block, t: nat)
    requires t < 16
    ensures Schedule(block, t) == BlockWord(block, t)
  {
  }

  lemma ScheduleNext(block: Block, t: nat)
    requires 16 <= t < 64
    ensures Schedule(block, t)
         == NextWord(Schedule(block, t - 2), Schedule(block, t - 7), Schedule(block, t - 15), Schedule(block, t - 16))
  {
    hide NextWord;
  }

  /** The two loops that fill the message schedule. */
  method FillSchedule(w: array<Word>, block: Block)
    requires w.Length == 64
    modifies w
    ensures forall t :: 0 <= t < 64 ==> w[t] == Schedule(block, t)
  {
    hide Schedule, Add, SIG0, SIG1, SmallSigma0, SmallSigma1;
    for i := 0 to 16
      invariant forall t :: 0 <= t < i ==> w[t] == Schedule(block, t)
    {
      ScheduleFirst(block, i);
      w[i] := ((block[4 * i] as Word) << 24) | ((block[4 * i + 1] as Word) << 16)
            | ((block[4 * i + 2] as Word) << 8) | (block[4 * i + 3] as Word);
    }
    for i := 16 to 64
      invariant forall t :: 0 <= t < i ==> w[t] == Schedule(block, t)
    {
      ScheduleNext(block, i);
      ScheduleMacros(w[i - 15], w[i - 2]);
      w[i] := Add(Add(Add(SIG1(w[i - 2]), w[i - 7]), SIG0(w[i - 15])), w[i - 16]);
    }
  }

  lemma RoundsStep(r: Registers, block: Block, t: nat)
    requires t < 64
    ensures Rounds(r, block, t + 1) == Round(Rounds(r, block, t), Constant(t), Schedule(block, t))
  {
    hide Round, Constant, Schedule;
  }

  /** One round, as the loop computes it. */
  lemma RoundByMacros(a: Word, b: Word, c: Word, d: Word, e: Word, f: Word, g: Word, h: Word, k: Word, w: Word)
    ensures var t1 := Add(Add(Add(Add(h, EP1(e)), CH(e, f, g)), k), w);
      Round(Registers(a, b, c, d, e, f, g, h), k, w)
      == Registers(Add(t1, Add(EP0(a), MAJ(a, b, c))), a, b, c, Add(d, t1), e, f, g)
  {
    hide EP0, EP1, CH, MAJ, BigSigma0, BigSigma1, Ch, Maj, Add;
    SigmaMacros(a, e);
    ChoiceMacros(a, b, c, e, f, g);
  }

  /** The 64 rounds, with rotating registers. */
  method RunRounds(w: array<Word>, start: Registers, ghost block: Block) returns (r: Registers)
    requires w.Length == 64 && forall t :: 0 <= t < 64 ==> w[t] == Schedule(block, t)
    ensures r == Rounds(start, block, 64)
  {
    hide EP0, EP1, CH, MAJ, Add, Schedule, Round, Rounds, Constant;
    var a, b, c, d := start.a, start.b, start.c, start.d;
    var e, f, g, h := start.e, start.f, start.g, start.h;
    RoundsNone(start, block);
    for i := 0 to 64
      invariant Registers(a, b, c, d, e, f, g, h) == Rounds(start, block, i)
    {
      RoundsStep(start, block, i);
      RoundByMacros(a, b, c, d, e, f, g, h, Constant(i), w[i]);
      var t1 := Add(Add(Add(Add(h, EP1(e)), CH(e, f, g)), Constant(i)), w[i]);
      var t2 := Add(EP0(a), MAJ(a, b, c));
      h := g;
      g := f;
      f := e;
      e := Add(d, t1);
      d := c;
      c := b;
      b := a;
      a := Add(t1, t2);
    }
    r := Registers(a, b, c, d, e, f, g, h);
  }

  lemma EightWords(s: seq<Word>)
    requires |s| == 8
    ensures s == [s[0], s[1], s[2], s[3], s[4], s[5], s[6], s[7]]
  {
  }

  /** Adds the registers to the hash value. */
  method AddBack(hash: array<Word>, r: Registers)
    requires hash.Length == 8
    modifies hash
    ensures hash[..] == AddTo(old(hash[..]), r)
  {
    hide Add;
    hash[0] := Add(hash[0], r.a);
    hash[1] := Add(hash[1], r.b);
    hash[2] := Add(hash[2], r.c);
    hash[3] := Add(hash[3], r.d);
    hash[4] := Add(hash[4], r.e);
    hash[5] := Add(hash[5], r.f);
    hash[6] := Add(hash[6], r.g);
    hash[7] := Add(hash[7], r.h);
    EightWords(hash[..]);
  }

  /** Compresses one block into the hash value, in place.  `before` and `blocks` record the blocks compressed. */
  method CompressBlock(hash: array<Word>, block: Block, ghost before: seq<Block>) returns (ghost blocks: seq<Block>)
    requires hash.Length == 8
    modifies hash
    ensures hash[..] == Compress(old(hash[..]), block)
    ensures blocks == before + [block]
  {
    hide AddTo, Load, Schedule, Rounds;
    var w := new Word[64];
    FillSchedule(w, block);
    assert hash[..] == old(hash[..]);
    var r := RunRounds(w, Load(hash[..]), block);
    AddBack(hash, r);
    blocks := before + [block];
  }

  lemma RoundsNone(r: Registers, block: Block)
    ensures Rounds(r, block, 0) == r
  {
  }

  // ---- The message ----

  /** `x >> (8 * i)` on an unsigned integer. */
  function ShiftBytes(x: nat, i: nat): nat {
    if i == 0 then x else ShiftBytes(x / 0x100, i - 1)
  }

  lemma {:induction false} BigEndianByte(n: nat, k: nat, i: nat)
    requires i < k
    ensures BigEndian(n, k)[k - 1 - i] == (ShiftBytes(n, i) % 0x100) as Byte
  {
    if i > 0 {
      BigEndianByte(n / 0x100, k - 1, i - 1);
    }
  }

  lemma CompressAllStep(h: HashValue, p: seq<Byte>, pos: nat)
    requires pos + 64 <= |p|
    ensures CompressAll(h, p[pos..]) == CompressAll(Compress(h, p[pos..pos + 64]), p[pos + 64..])
    ensures Blocks(p[pos..]) == [p[pos..pos + 64]] + Blocks(p[pos + 64..])
  {
    hide Compress;
    assert p[pos..][..64] == p[pos..pos + 64] && p[pos..][64..] == p[pos + 64..];
  }

  lemma CompressAllDone(h: HashValue, p: seq<Byte>)
    ensures CompressAll(h, p[|p|..]) == h && Blocks(p[|p|..]) == []
  {
  }

  /** The padded message, byte by byte. */
  lemma PaddedByte(m: seq<Byte>, bits: nat, j: nat)
    requires j < |PadWith(m, bits)|
    ensures PadWith(m, bits)[j] ==
      if j < |m| then m[j]
      else if j == |m| then 0x80
      else if j < |PadWith(m, bits)| - 8 then 0
      else BigEndian(bits, 8)[j - (|PadWith(m, bits)| - 8)]
  {
    hide BigEndian, ZeroBytes;
  }

  /** Hashes `data` into `digest`; `blocks` are the blocks compressed, in order.  From 2^61 bytes on, the 64-bit length
      wraps around. */
  method Hash(data: seq<Byte>, digest: array<Byte>) returns (ghost blocks: seq<Block>)
    requires digest.Length == 32
    modifies digest
    ensures blocks == Blocks(PadWith(data, Uint64(8 * |data|)))
    ensures digest[..] == HashWith(data, Uint64(8 * |data|))
    ensures |data| < 0x2000_0000_0000_0000 ==> blocks == Blocks(Pad(data)) && digest[..] == Sha256Spec.Sha256(data)
  {
    hide CompressAll, Compress, Blocks, PadWith, BigEndian, ZeroBytes, Digest, Uint64;
    var hash := new Word[8](i requires 0 <= i < 8 => H0[i]);
    assert hash[..] == H0;
    ghost var padded := PadWith(data, Uint64(8 * |data|));
    var pos := 0;
    blocks := [];
    assert padded[0..] == padded;
    while pos + 64 <= |data|
      invariant 0 <= pos <= |data| && pos % 64 == 0
      invariant CompressAll(hash[..], padded[pos..]) == CompressAll(H0, padded)
      invariant blocks + Blocks(padded[pos..]) == Blocks(padded)
    {
      WholeBlock(data, Uint64(8 * |data|), pos);
      CompressAllStep(hash[..], padded, pos);
      blocks := CompressBlock(hash, data[pos..pos + 64], blocks);
      pos := pos + 64;
    }
    blocks := FinalBlocks(hash, data, pos, blocks);
    WriteDigest(hash, digest);
    if |data| < 0x2000_0000_0000_0000 {
      Uint64Exact(8 * |data|);
    }
  }

  lemma WholeBlock(data: seq<Byte>, bits: nat, pos: nat)
    requires pos + 64 <= |data|
    ensures PadWith(data, bits)[pos..pos + 64] == data[pos..pos + 64]
  {
    hide BigEndian, ZeroBytes;
  }

  /** The padding branch: one block when the length still fits behind the rest of the data, otherwise two. */
  method FinalBlocks(hash: array<Word>, data: seq<Byte>, pos: nat, ghost before: seq<Block>)
    returns (ghost blocks: seq<Block>)
    requires hash.Length == 8
    requires pos <= |data| < pos + 64 && pos % 64 == 0
    modifies hash
    ensures hash[..] == CompressAll(old(hash[..]), PadWith(data, Uint64(8 * |data|))[pos..])
    ensures blocks == before + Blocks(PadWith(data, Uint64(8 * |data|))[pos..])
  {
    hide CompressAll, Compress, Blocks, BigEndian, PadWith, ZeroBytes, Uint64;
    var block := new Byte[64](_ => 0);
    var rem := |data| - pos;
    forall i | 0 <= i < rem {
      block[i] := data[pos + i];
    }
    block[rem] := 0x80;
    var bitLen := Uint64(8 * |data|);
    ghost var padded := PadWith(data, bitLen);
    var last := pos;
    ghost var first := hash[..];
    assert first == old(hash[..]);
    blocks := before;
    if rem >= 56 {
      FirstOfTwo(data, bitLen, pos, block[..]);
      CompressAllStep(first, padded, pos);
      blocks := CompressBlock(hash, block[..], blocks);
      first := hash[..];
      forall i | 0 <= i < 64 {
        block[i] := 0;
      }
      last := pos + 64;
    }
    assert CompressAll(first, padded[last..]) == CompressAll(old(hash[..]), padded[pos..]);
    WriteLength(block, bitLen);
    LastBlock(data, bitLen, last, block[..]);
    CompressAllStep(first, padded, last);
    assert hash[..] == first;
    blocks := CompressBlock(hash, block[..], blocks);
    CompressAllDone(hash[..], padded);
    assert last + 64 == |padded|;
  }

  lemma PaddedLength(len: nat, last: nat)
    requires last % 64 == 0 && last <= len + 8 && len + 9 <= last + 64
    ensures len + ZeroBytes(len) + 9 == last + 64
  {
    hide ZeroBytes;
    assert (len + 1 + ZeroBytes(len)) % 64 == 56;
  }

  lemma FirstOfTwo(data: seq<Byte>, bits: nat, pos: nat, block: Block)
    requires pos + 56 <= |data| < pos + 64 && pos % 64 == 0
    requires forall j :: 0 <= j < 64 ==>
               block[j] == if pos + j < |data| then data[pos + j] else if pos + j == |data| then 0x80 else 0
    ensures |PadWith(data, bits)| == pos + 128
    ensures block == PadWith(data, bits)[pos..pos + 64]
  {
    hide PadWith, ZeroBytes, BigEndian;
    PaddedLength(|data|, pos + 64);
    forall j | 0 <= j < 64
      ensures block[j] == PadWith(data, bits)[pos..pos + 64][j]
    {
      PaddedByte(data, bits, pos + j);
    }
  }

  lemma LastBlock(data: seq<Byte>, bits: nat, last: nat, block: Block)
    requires last % 64 == 0 && last <= |data| + 8 && |data| + 9 <= last + 64
    requires forall j :: 0 <= j < 56 ==>
               block[j] == if last + j < |data| then data[last + j] else if last + j == |data| then 0x80 else 0
    requires forall j :: 56 <= j < 64 ==> block[j] == BigEndian(bits, 8)[j - 56]
    ensures |PadWith(data, bits)| == last + 64
    ensures block == PadWith(data, bits)[last..last + 64]
  {
    hide PadWith, ZeroBytes, BigEndian;
    PaddedLength(|data|, last);
    forall j | 0 <= j < 64
      ensures block[j] == PadWith(data, bits)[last..last + 64][j]
    {
      PaddedByte(data, bits, last + j);
    }
  }

  /** The loop that writes the bit length into the last eight bytes. */
  method WriteLength(block: array<Byte>, bitLen: nat)
    requires block.Length == 64
    modifies block
    ensures forall j :: 0 <= j < 56 ==> block[j] == old(block[j])
    ensures forall j :: 56 <= j < 64 ==> block[j] == BigEndian(bitLen, 8)[j - 56]
  {
    hide BigEndian;
    for i := 0 to 8
      invariant forall j :: 0 <= j < 56 ==> block[j] == old(block[j])
      invariant forall j :: 64 - i <= j < 64 ==> block[j] == BigEndian(bitLen, 8)[j - 56]
    {
      BigEndianByte(bitLen, 8, i);
      block[63 - i] := (ShiftBytes(bitLen, i) % 0x100) as Byte;
    }
  }

  lemma {:induction false} DigestWord(h: seq<Word>, i: nat)
    requires i < |h|
    ensures Digest(h)[4 * i..4 * i + 4] == WordBytes(h[i])
  {
    hide WordBytes;
    if i > 0 {
      DigestWord(h[1..], i - 1);
      assert Digest(h)[4..] == Digest(h[1..]);
      assert Digest(h)[4 * i..4 * i + 4] == Digest(h)[4..][4 * (i - 1)..4 * (i - 1) + 4];
    }
  }

  lemma DigestBytes(h: seq<Word>, i: nat)
    requires i < |h|
    ensures Digest(h)[4 * i] == ((h[i] >> 24) & 0xff) as Byte
    ensures Digest(h)[4 * i + 1] == ((h[i] >> 16) & 0xff) as Byte
    ensures Digest(h)[4 * i + 2] == ((h[i] >> 8) & 0xff) as Byte
    ensures Digest(h)[4 * i + 3] == (h[i] & 0xff) as Byte
  {
    hide Digest;
    DigestWord(h, i);
    var word := Digest(h)[4 * i..4 * i + 4];
    assert word[0] == Digest(h)[4 * i] && word[1] == Digest(h)[4 * i + 1];
    assert word[2] == Digest(h)[4 * i + 2] && word[3] == Digest(h)[4 * i + 3];
  }

  /** The loop that writes the hash value out, most significant byte first. */
  method WriteDigest(hash: array<Word>, digest: array<Byte>)
    requires hash.Length == 8 && digest.Length == 32
    modifies digest
    ensures digest[..] == Digest(hash[..])
  {
    hide Digest;
    for i := 0 to 8
      invariant forall j :: 0 <= j < 4 * i ==> digest[j] == Digest(hash[..])[j]
    {
      DigestBytes(hash[..], i);
      digest[4 * i] := ((hash[i] >> 24) & 0xff) as Byte;
      digest[4 * i + 1] := ((hash[i] >> 16) & 0xff) as Byte;
      digest[4 * i + 2] := ((hash[i] >> 8) & 0xff) as Byte;
      digest[4 * i + 3] := (hash[i] & 0xff) as Byte;
    }
  }
}
