/** What the padding of SHA-256 is for: the blocks that are hashed determine the message. */
module Sha256Padding {
  import opened Modular
  import opened Sha256Spec

  /** In bits, as section 5.1.1 of FIPS 180-4 states it: after the message and a 1 bit come the fewest zero bits that
      leave room for a 64-bit length in the last block of 512 bits. */
  lemma FewestZeroBits(len: nat, k: nat)
    ensures (8 * len + 1 + (8 * ZeroBytes(len) + 7)) % 512 == 448
    ensures (8 * len + 1 + k) % 512 == 448 ==> k >= 8 * ZeroBytes(len) + 7
  {
    hide ZeroBytes;
    var z := ZeroBytes(len);
    var q := (len + 1 + z) / 64;
    assert len + 1 + z == 64 * q + 56;
    assert 8 * len + 1 + (8 * z + 7) == 512 * q + 448;
    var p := (8 * len + 1 + k) / 512;
    assert (8 * len + 1 + k) % 512 == 448 && k < 8 * z + 7 ==> 0 < 512 * (q - p) < 512;
  }

  function Power256(k: nat): nat {
    if k == 0 then 1 else 0x100 * Power256(k - 1)
  }

  /** `k` bytes hold any number below 256^k without loss. */
  lemma {:induction false} BigEndianInjective(n: nat, m: nat, k: nat)
    requires n < Power256(k) && m < Power256(k)
    requires BigEndian(n, k) == BigEndian(m, k)
    ensures n == m
  {
    if k > 0 {
      var s, t := BigEndian(n, k), BigEndian(m, k);
      assert s[..k - 1] == BigEndian(n / 0x100, k - 1) && t[..k - 1] == BigEndian(m / 0x100, k - 1);
      BigEndianInjective(n / 0x100, m / 0x100, k - 1);
      assert s[k - 1] == (n % 0x100) as Byte && t[k - 1] == (m % 0x100) as Byte;
      ByteExact(n % 0x100);
      ByteExact(m % 0x100);
    }
  }

  /** The number that bytes stand for, the most significant first. */
  function NumberOf(s: seq<Byte>): nat {
    if s == [] then 0 else 0x100 * NumberOf(s[..|s| - 1]) + s[|s| - 1] as nat
  }

  lemma {:induction false} BigEndianValue(n: nat, k: nat)
    requires n < Power256(k)
    ensures NumberOf(BigEndian(n, k)) == n
  {
    if k > 0 {
      var s := BigEndian(n, k);
      assert s[..k - 1] == BigEndian(n / 0x100, k - 1) && s[k - 1] == (n % 0x100) as Byte;
      BigEndianValue(n / 0x100, k - 1);
      ByteExact(n % 0x100);
    }
  }

  /** The padded message: the message, the byte 0x80, zeros, and the number of bits of the message in the last eight
      bytes; all of it fills whole blocks, and one block less would be too short. */
  lemma PaddedMessage(m: seq<Byte>)
    requires |m| < 0x2000_0000_0000_0000
    ensures var p := Pad(m);
      && |p| % 64 == 0 && |m| + 9 <= |p| < |m| + 9 + 64
      && p[..|m|] == m && p[|m|] == 0x80
      && (forall j :: |m| < j < |p| - 8 ==> p[j] == 0)
      && NumberOf(p[|p| - 8..]) == 8 * |m|
  {
    hide BigEndian, ZeroBytes, NumberOf;
    PadShape(m);
    assert Power256(8) == 0x1_0000_0000_0000_0000;
    BigEndianValue(8 * |m|, 8);
  }

  lemma PadShape(m: seq<Byte>)
    requires |m| < 0x2000_0000_0000_0000
    ensures |Pad(m)| == |m| + ZeroBytes(|m|) + 9 && |Pad(m)| % 64 == 0
    ensures Pad(m)[..|m|] == m
    ensures Pad(m)[|Pad(m)| - 8..] == BigEndian(8 * |m|, 8)
  {
    hide BigEndian, ZeroBytes;
  }

  /** No padded message is the end of another. */
  lemma PaddingIsSuffixFree(m: seq<Byte>, n: seq<Byte>)
    requires |m| < 0x2000_0000_0000_0000 && |n| < 0x2000_0000_0000_0000
    requires |Pad(m)| <= |Pad(n)| && Pad(n)[|Pad(n)| - |Pad(m)|..] == Pad(m)
    ensures m == n
  {
    hide BigEndian, Pad, ZeroBytes;
    PadShape(m);
    PadShape(n);
    var d := |Pad(n)| - |Pad(m)|;
    assert Pad(n)[d..][|Pad(m)| - 8..] == Pad(n)[|Pad(n)| - 8..];
    assert Power256(8) == 0x1_0000_0000_0000_0000;
    BigEndianInjective(8 * |m|, 8 * |n|, 8);
    assert |Pad(m)| == |Pad(n)|;
    assert Pad(n)[0..] == Pad(n);
  }

  lemma {:induction false} HashFoldsBlocks(h: HashValue, p: seq<Byte>)
    ensures CompressAll(h, p) == Fold(h, Blocks(p))
    decreases |p|
  {
    hide Compress;
    if |p| >= 64 {
      HashFoldsBlocks(Compress(h, p[..64]), p[64..]);
      assert Blocks(p)[1..] == Blocks(p[64..]);
    }
  }

  lemma {:induction false} BlocksCount(p: seq<Byte>)
    requires |p| % 64 == 0
    ensures 64 * |Blocks(p)| == |p|
    decreases |p|
  {
    if |p| >= 64 {
      BlocksCount(p[64..]);
    }
  }

  /** Dropping whole blocks drops their bytes. */
  lemma {:induction false} BlocksDrop(p: seq<Byte>, k: nat)
    requires |p| % 64 == 0 && 64 * k <= |p|
    ensures k <= |Blocks(p)| && Blocks(p)[k..] == Blocks(p[64 * k..])
    decreases k
  {
    if k == 0 {
      assert p[0..] == p;
    } else {
      BlocksDrop(p[64..], k - 1);
      assert p[64..][64 * (k - 1)..] == p[64 * k..];
      assert Blocks(p)[k..] == Blocks(p[64..])[k - 1..];
    }
  }

  lemma {:induction false} BlocksInjective(p: seq<Byte>, q: seq<Byte>)
    requires |p| % 64 == 0 && |q| % 64 == 0 && Blocks(p) == Blocks(q)
    ensures p == q
    decreases |p|
  {
    if |p| < 64 || |q| < 64 {
      BlocksCount(p);
      BlocksCount(q);
      assert p == [] && q == [];
    } else {
      assert Blocks(p)[1..] == Blocks(p[64..]) && Blocks(q)[1..] == Blocks(q[64..]);
      BlocksInjective(p[64..], q[64..]);
      assert p == p[..64] + p[64..] && q == q[..64] + q[64..];
      assert Blocks(p)[0] == Blocks(q)[0];
    }
  }

  /** Two messages never give the same blocks; the blocks of one are not even the last blocks of the other. */
  lemma BlocksDetermineMessage(m: seq<Byte>, n: seq<Byte>, k: nat)
    requires |m| < 0x2000_0000_0000_0000 && |n| < 0x2000_0000_0000_0000
    requires k <= |Blocks(Pad(n))| && Blocks(Pad(n))[k..] == Blocks(Pad(m))
    ensures m == n && k == 0
  {
    hide Pad, BigEndian, ZeroBytes;
    PadShape(m);
    PadShape(n);
    BlocksCount(Pad(m));
    BlocksCount(Pad(n));
    BlocksDrop(Pad(n), k);
    BlocksInjective(Pad(n)[64 * k..], Pad(m));
    PaddingIsSuffixFree(m, n);
  }

  lemma WordBytesInjective(v: Word, w: Word)
    ensures WordBytes(v) == WordBytes(w) ==> v == w
  {
    var s, t := WordBytes(v), WordBytes(w);
    if s == t {
      assert s[0] == t[0] && s[1] == t[1] && s[2] == t[2] && s[3] == t[3];
    }
  }

  /** The digest keeps the whole hash value. */
  lemma {:induction false} DigestInjective(g: seq<Word>, h: seq<Word>)
    requires |g| == |h| && Digest(g) == Digest(h)
    ensures g == h
  {
    hide WordBytes;
    if g != [] {
      assert Digest(g)[..4] == WordBytes(g[0]) && Digest(h)[..4] == WordBytes(h[0]);
      assert Digest(g)[4..] == Digest(g[1..]) && Digest(h)[4..] == Digest(h[1..]);
      WordBytesInjective(g[0], h[0]);
      DigestInjective(g[1..], h[1..]);
    }
  }
}
