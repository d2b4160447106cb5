/** The one-block example of SHA-256, the digest of "abc", worked out round by round from the definitions.  It fixes
    every function and constant that the definitions use. */
module Sha256Example {
  import opened Sha256
  import opened Sha256Spec

  const ABC: seq<Byte> := [0x61, 0x62, 0x63]

  // ---- The block ----

  predicate IsExample(b: Block) {
    && b[0] == 0x61 && b[1] == 0x62 && b[2] == 0x63 && b[3] == 0x80
    && (forall j :: 4 <= j < 63 ==> b[j] == 0)
    && b[63] == 24
  }

  lemma BigEndianOf24(j: nat)
    requires j < 8
    ensures BigEndian(24, 8)[j] == if j == 7 then 24 else 0
  {
    BigEndianByte(24, 8, 7 - j);
    ShiftedAway(7 - j);
  }

  lemma {:induction false} ShiftedAway(i: nat)
    ensures ShiftBytes(24, i) == if i == 0 then 24 else 0
  {
    if i > 0 {
      ShiftedZero(i - 1);
    }
  }

  lemma {:induction false} ShiftedZero(i: nat)
    ensures ShiftBytes(0, i) == 0
  {
    if i > 0 {
      ShiftedZero(i - 1);
    }
  }

  lemma PaddedExample()
    ensures |Pad(ABC)| == 64 && IsExample(Pad(ABC))
  {
    assert ZeroBytes(3) == 52;
    hide PadWith, BigEndian, ZeroBytes;
    forall j | 0 <= j < 64
      ensures Pad(ABC)[j] == if j < 3 then ABC[j] else if j == 3 then 0x80 else if j == 63 then 24 else 0
    {
      PaddedByte(ABC, 24, j);
      if j >= 56 {
        BigEndianOf24(j - 56);
      }
    }
  }

  // ---- The message schedule ----

  lemma BlockWords(b: Block, t: nat)
    requires IsExample(b) && t < 16
    ensures Schedule(b, t) == if t == 0 then 0x61626380 else if t == 15 then 24 else 0
  {
    ScheduleFirst(b, t);
    if 0 < t {
      assert b[4 * t] == 0 && b[4 * t + 1] == 0 && b[4 * t + 2] == 0;
      assert b[4 * t + 3] == if t == 15 then 24 else 0;
    }
  }

  lemma Words0(b: Block)
    requires IsExample(b)
    ensures Schedule(b, 0) == 0x61626380 && Schedule(b, 1) == 0x00000000
    ensures Schedule(b, 2) == 0x00000000 && Schedule(b, 3) == 0x00000000
    ensures Schedule(b, 4) == 0x00000000 && Schedule(b, 5) == 0x00000000
    ensures Schedule(b, 6) == 0x00000000 && Schedule(b, 7) == 0x00000000
  {
    hide IsExample, Schedule;
    BlockWords(b, 0);
    BlockWords(b, 1);
    BlockWords(b, 2);
    BlockWords(b, 3);
    BlockWords(b, 4);
    BlockWords(b, 5);
    BlockWords(b, 6);
    BlockWords(b, 7);
  }

  lemma Words8(b: Block)
    requires IsExample(b)
    ensures Schedule(b, 8) == 0x00000000 && Schedule(b, 9) == 0x00000000
    ensures Schedule(b, 10) == 0x00000000 && Schedule(b, 11) == 0x00000000
    ensures Schedule(b, 12) == 0x00000000 && Schedule(b, 13) == 0x00000000
    ensures Schedule(b, 14) == 0x00000000 && Schedule(b, 15) == 0x00000018
  {
    hide IsExample, Schedule;
    BlockWords(b, 8);
    BlockWords(b, 9);
    BlockWords(b, 10);
    BlockWords(b, 11);
    BlockWords(b, 12);
    BlockWords(b, 13);
    BlockWords(b, 14);
    BlockWords(b, 15);
  }

  lemma Words16(b: Block)
    requires IsExample(b)
    ensures Schedule(b, 16) == 0x61626380 && Schedule(b, 17) == 0x000f0000
    ensures Schedule(b, 18) == 0x7da86405 && Schedule(b, 19) == 0x600003c6
    ensures Schedule(b, 20) == 0x3e9d7b78 && Schedule(b, 21) == 0x0183fc00
    ensures Schedule(b, 22) == 0x12dcbfdb && Schedule(b, 23) == 0xe2e2c38e
  {
    hide IsExample, Schedule;
    Words0(b);
    Words8(b);
    ScheduleNext(b, 16);
    ScheduleNext(b, 17);
    ScheduleNext(b, 18);
    ScheduleNext(b, 19);
    ScheduleNext(b, 20);
    ScheduleNext(b, 21);
    ScheduleNext(b, 22);
    ScheduleNext(b, 23);
  }

  lemma Words24(b: Block)
    requires IsExample(b)
    ensures Schedule(b, 24) == 0xc8215c1a && Schedule(b, 25) == 0xb73679a2
    ensures Schedule(b, 26) == 0xe5bc3909 && Schedule(b, 27) == 0x32663c5b
    ensures Schedule(b, 28) == 0x9d209d67 && Schedule(b, 29) == 0xec8726cb
    ensures Schedule(b, 30) == 0x702138a4 && Schedule(b, 31) == 0xd3b7973b
  {
    hide IsExample, Schedule;
    Words8(b);
    Words16(b);
    ScheduleNext(b, 24);
    ScheduleNext(b, 25);
    ScheduleNext(b, 26);
    ScheduleNext(b, 27);
    ScheduleNext(b, 28);
    ScheduleNext(b, 29);
    ScheduleNext(b, 30);
    ScheduleNext(b, 31);
  }

  lemma Words32(b: Block)
    requires IsExample(b)
    ensures Schedule(b, 32) == 0x93f5997f && Schedule(b, 33) == 0x3b68ba73
    ensures Schedule(b, 34) == 0xaff4ffc1 && Schedule(b, 35) == 0xf10a5c62
    ensures Schedule(b, 36) == 0x0a8b3996 && Schedule(b, 37) == 0x72af830a
    ensures Schedule(b, 38) == 0x9409e33e && Schedule(b, 39) == 0x24641522
  {
    hide IsExample, Schedule;
    Words16(b);
    Words24(b);
    ScheduleNext(b, 32);
    ScheduleNext(b, 33);
    ScheduleNext(b, 34);
    ScheduleNext(b, 35);
    ScheduleNext(b, 36);
    ScheduleNext(b, 37);
    ScheduleNext(b, 38);
    ScheduleNext(b, 39);
  }

  lemma Words40(b: Block)
    requires IsExample(b)
    ensures Schedule(b, 40) == 0x9f47bf94 && Schedule(b, 41) == 0xf0a64f5a
    ensures Schedule(b, 42) == 0x3e246a79 && Schedule(b, 43) == 0x27333ba3
    ensures Schedule(b, 44) == 0x0c4763f2 && Schedule(b, 45) == 0x840abf27
    ensures Schedule(b, 46) == 0x7a290d5d && Schedule(b, 47) == 0x065c43da
  {
    hide IsExample, Schedule;
    Words24(b);
    Words32(b);
    ScheduleNext(b, 40);
    ScheduleNext(b, 41);
    ScheduleNext(b, 42);
    ScheduleNext(b, 43);
    ScheduleNext(b, 44);
    ScheduleNext(b, 45);
    ScheduleNext(b, 46);
    ScheduleNext(b, 47);
  }

  lemma Words48(b: Block)
    requires IsExample(b)
    ensures Schedule(b, 48) == 0xfb3e89cb && Schedule(b, 49) == 0xcc7617db
    ensures Schedule(b, 50) == 0xb9e66c34 && Schedule(b, 51) == 0xa9993667
    ensures Schedule(b, 52) == 0x84badedd && Schedule(b, 53) == 0xc21462bc
    ensures Schedule(b, 54) == 0x1487472c && Schedule(b, 55) == 0xb20f7a99
  {
    hide IsExample, Schedule;
    Words32(b);
    Words40(b);
    ScheduleNext(b, 48);
    ScheduleNext(b, 49);
    ScheduleNext(b, 50);
    ScheduleNext(b, 51);
    ScheduleNext(b, 52);
    ScheduleNext(b, 53);
    ScheduleNext(b, 54);
    ScheduleNext(b, 55);
  }

  lemma Words56(b: Block)
    requires IsExample(b)
    ensures Schedule(b, 56) == 0xef57b9cd && Schedule(b, 57) == 0xebe6b238
    ensures Schedule(b, 58) == 0x9fe3095e && Schedule(b, 59) == 0x78bc8d4b
    ensures Schedule(b, 60) == 0xa43fcf15 && Schedule(b, 61) == 0x668b2ff8
    ensures Schedule(b, 62) == 0xeeaba2cc && Schedule(b, 63) == 0x12b1edeb
  {
    hide IsExample, Schedule;
    Words40(b);
    Words48(b);
    ScheduleNext(b, 56);
    ScheduleNext(b, 57);
    ScheduleNext(b, 58);
    ScheduleNext(b, 59);
    ScheduleNext(b, 60);
    ScheduleNext(b, 61);
    ScheduleNext(b, 62);
    ScheduleNext(b, 63);
  }

  // ---- The rounds ----

  /** Round `t` moves the registers on and puts `a` and `e` into the first and the fifth. */
  lemma Next(b: Block, t: nat, r: Registers, a: Word, e: Word) returns (r': Registers)
    requires t < 64 && Rounds(Load(H0), b, t) == r
    requires Round(r, Constant(t), Schedule(b, t)) == Registers(a, r.a, r.b, r.c, e, r.e, r.f, r.g)
    ensures r' == Registers(a, r.a, r.b, r.c, e, r.e, r.f, r.g) && Rounds(Load(H0), b, t + 1) == r'
  {
    RoundsStep(Load(H0), b, t);
    r' := Registers(a, r.a, r.b, r.c, e, r.e, r.f, r.g);
  }

  lemma Rounds8(b: Block) returns (r: Registers)
    requires IsExample(b)
    ensures r == Rounds(Load(H0), b, 8)
    ensures r == Registers(0x85a07b5f, 0xe5030380, 0x2b4209f5, 0x04409a6a,
                           0x0c657a79, 0x9b27a401, 0x714260ad, 0x43ada245)
  {
    hide IsExample, Rounds, Schedule;
    Words0(b);
    r := Load(H0);
    RoundsNone(r, b);
    r := Next(b, 0, r, 0x5d6aebcd, 0xfa2a4622);
    r := Next(b, 1, r, 0x5a6ad9ad, 0x78ce7989);
    r := Next(b, 2, r, 0xc8c347a7, 0xf92939eb);
    r := Next(b, 3, r, 0xd550f666, 0x24e00850);
    r := Next(b, 4, r, 0x04409a6a, 0x43ada245);
    r := Next(b, 5, r, 0x2b4209f5, 0x714260ad);
    r := Next(b, 6, r, 0xe5030380, 0x9b27a401);
    r := Next(b, 7, r, 0x85a07b5f, 0x0c657a79);
  }

  lemma Rounds16(b: Block) returns (r: Registers)
    requires IsExample(b)
    ensures r == Rounds(Load(H0), b, 16)
    ensures r == Registers(0xb0fa238e, 0xc0645fde, 0xd932eb16, 0x87912990,
                           0x07590dcd, 0x0b92f20c, 0x745a48de, 0x1e578218)
  {
    hide IsExample, Rounds, Schedule;
    Words8(b);
    r := Rounds8(b);
    r := Next(b, 8, r, 0x8e04ecb9, 0x32ca2d8c);
    r := Next(b, 9, r, 0x8c87346b, 0x1cc92596);
    r := Next(b, 10, r, 0x4798a3f4, 0x436b23e8);
    r := Next(b, 11, r, 0xf71fc5a9, 0x816fd6e9);
    r := Next(b, 12, r, 0x87912990, 0x1e578218);
    r := Next(b, 13, r, 0xd932eb16, 0x745a48de);
    r := Next(b, 14, r, 0xc0645fde, 0x0b92f20c);
    r := Next(b, 15, r, 0xb0fa238e, 0x07590dcd);
  }

  lemma Rounds24(b: Block) returns (r: Registers)
    requires IsExample(b)
    ensures r == Rounds(Load(H0), b, 24)
    ensures r == Registers(0xc5d53d8d, 0xa7a3623f, 0xc2606d6d, 0x9dc68b63,
                           0xaa47c347, 0x49f5114a, 0xe1257970, 0x8ada8930)
  {
    hide IsExample, Rounds, Schedule;
    Words16(b);
    r := Rounds16(b);
    r := Next(b, 16, r, 0x21da9a9b, 0x8034229c);
    r := Next(b, 17, r, 0xc2fbd9d1, 0x846ee454);
    r := Next(b, 18, r, 0xfe777bbf, 0xcc899961);
    r := Next(b, 19, r, 0xe1f20c33, 0xb0638179);
    r := Next(b, 20, r, 0x9dc68b63, 0x8ada8930);
    r := Next(b, 21, r, 0xc2606d6d, 0xe1257970);
    r := Next(b, 22, r, 0xa7a3623f, 0x49f5114a);
    r := Next(b, 23, r, 0xc5d53d8d, 0xaa47c347);
  }

  lemma Rounds32(b: Block) returns (r: Registers)
    requires IsExample(b)
    ensures r == Rounds(Load(H0), b, 32)
    ensures r == Registers(0x73b33bf5, 0xea992a22, 0xa0060b30, 0x363482c9,
                           0xba591112, 0x0109ab3a, 0xade79437, 0x6112a3b7)
  {
    hide IsExample, Rounds, Schedule;
    Words24(b);
    r := Rounds24(b);
    r := Next(b, 24, r, 0x1c2c2838, 0x2823ef91);
    r := Next(b, 25, r, 0xcde8037d, 0x14383d8e);
    r := Next(b, 26, r, 0xb62ec4bc, 0xc74c6516);
    r := Next(b, 27, r, 0x77d37528, 0xedffbff8);
    r := Next(b, 28, r, 0x363482c9, 0x6112a3b7);
    r := Next(b, 29, r, 0xa0060b30, 0xade79437);
    r := Next(b, 30, r, 0xea992a22, 0x0109ab3a);
    r := Next(b, 31, r, 0x73b33bf5, 0xba591112);
  }

  lemma Rounds40(b: Block) returns (r: Registers)
    requires IsExample(b)
    ensures r == Rounds(Load(H0), b, 40)
    ensures r == Registers(0x79ea687a, 0x6dc57a8a, 0x34df1604, 0x41a65cb1,
                           0x1efbc0a0, 0xf0781bc8, 0xa507a53d, 0x0772a26b)
  {
    hide IsExample, Rounds, Schedule;
    Words32(b);
    r := Rounds32(b);
    r := Next(b, 32, r, 0x98e12507, 0x9cd9f5f6);
    r := Next(b, 33, r, 0xfe604df5, 0x59249dd3);
    r := Next(b, 34, r, 0xa9a7738c, 0x085f3833);
    r := Next(b, 35, r, 0x65a0cfe4, 0xf4b002d6);
    r := Next(b, 36, r, 0x41a65cb1, 0x0772a26b);
    r := Next(b, 37, r, 0x34df1604, 0xa507a53d);
    r := Next(b, 38, r, 0x6dc57a8a, 0xf0781bc8);
    r := Next(b, 39, r, 0x79ea687a, 0x1efbc0a0);
  }

  lemma Rounds48(b: Block) returns (r: Registers)
    requires IsExample(b)
    ensures r == Rounds(Load(H0), b, 48)
    ensures r == Registers(0x4172328d, 0xa14c14b0, 0x72ab4b91, 0x26628815,
                           0xfecf0bc6, 0xd57b94a9, 0xb7755da1, 0xa80f11f0)
  {
    hide IsExample, Rounds, Schedule;
    Words40(b);
    r := Rounds40(b);
    r := Next(b, 40, r, 0xd6670766, 0x26352d63);
    r := Next(b, 41, r, 0xdf46652f, 0x838b2711);
    r := Next(b, 42, r, 0x17aa0dfe, 0xdecd4715);
    r := Next(b, 43, r, 0x9d4baf93, 0xfda24c2e);
    r := Next(b, 44, r, 0x26628815, 0xa80f11f0);
    r := Next(b, 45, r, 0x72ab4b91, 0xb7755da1);
    r := Next(b, 46, r, 0xa14c14b0, 0xd57b94a9);
    r := Next(b, 47, r, 0x4172328d, 0xfecf0bc6);
  }

  lemma Rounds56(b: Block) returns (r: Registers)
    requires IsExample(b)
    ensures r == Rounds(Load(H0), b, 56)
    ensures r == Registers(0x38cc9913, 0x3ec45cdb, 0xf5702fdb, 0x101fd28f,
                           0x54cb266b, 0xe50e1b4f, 0x9f4787c3, 0x529e7d00)
  {
    hide IsExample, Rounds, Schedule;
    Words48(b);
    r := Rounds48(b);
    r := Next(b, 48, r, 0x05757ceb, 0xbd714038);
    r := Next(b, 49, r, 0xf11bfaa8, 0x6e5c390c);
    r := Next(b, 50, r, 0x7a0508a1, 0x52f1ccf7);
    r := Next(b, 51, r, 0x886e7a22, 0x49231c1e);
    r := Next(b, 52, r, 0x101fd28f, 0x529e7d00);
    r := Next(b, 53, r, 0xf5702fdb, 0x9f4787c3);
    r := Next(b, 54, r, 0x3ec45cdb, 0xe50e1b4f);
    r := Next(b, 55, r, 0x38cc9913, 0x54cb266b);
  }

  lemma Rounds64(b: Block) returns (r: Registers)
    requires IsExample(b)
    ensures r == Rounds(Load(H0), b, 64)
    ensures r == Registers(0x506e3058, 0xd39a2165, 0x04d24d6c, 0xb85e2ce9,
                           0x5ef50f24, 0xfb121210, 0x948d25b6, 0x961f4894)
  {
    hide IsExample, Rounds, Schedule;
    Words56(b);
    r := Rounds56(b);
    r := Next(b, 56, r, 0xfcd1887b, 0x9b5e906c);
    r := Next(b, 57, r, 0xc062d46f, 0x7e44008e);
    r := Next(b, 58, r, 0xffb70472, 0x6d83bfc6);
    r := Next(b, 59, r, 0xb6ae8fff, 0xb21bad3d);
    r := Next(b, 60, r, 0xb85e2ce9, 0x961f4894);
    r := Next(b, 61, r, 0x04d24d6c, 0x948d25b6);
    r := Next(b, 62, r, 0xd39a2165, 0xfb121210);
    r := Next(b, 63, r, 0x506e3058, 0x5ef50f24);
  }

  // ---- The digest ----

  lemma HashValueOfExample(b: Block)
    requires IsExample(b)
    ensures Compress(H0, b)
         == [0xba7816bf, 0x8f01cfea, 0x414140de, 0x5dae2223,
             0xb00361a3, 0x96177a9c, 0xb410ff61, 0xf20015ad]
  {
    hide IsExample, Rounds;
    var r := Rounds64(b);
  }

  lemma DigestOfExample(h: HashValue)
    requires h == [0xba7816bf, 0x8f01cfea, 0x414140de, 0x5dae2223,
                   0xb00361a3, 0x96177a9c, 0xb410ff61, 0xf20015ad]
    ensures Digest(h)
         == [0xba, 0x78, 0x16, 0xbf, 0x8f, 0x01, 0xcf, 0xea,
             0x41, 0x41, 0x40, 0xde, 0x5d, 0xae, 0x22, 0x23,
             0xb0, 0x03, 0x61, 0xa3, 0x96, 0x17, 0x7a, 0x9c,
             0xb4, 0x10, 0xff, 0x61, 0xf2, 0x00, 0x15, 0xad]
  {
    hide Digest;
    DigestBytes(h, 0);
    DigestBytes(h, 1);
    DigestBytes(h, 2);
    DigestBytes(h, 3);
    DigestBytes(h, 4);
    DigestBytes(h, 5);
    DigestBytes(h, 6);
    DigestBytes(h, 7);
  }

  /** The digest of "abc" that FIPS 180-4 gives as its example. */
  lemma DigestOfAbc()
    ensures Sha256Spec.Sha256(ABC)
         == [0xba, 0x78, 0x16, 0xbf, 0x8f, 0x01, 0xcf, 0xea,
             0x41, 0x41, 0x40, 0xde, 0x5d, 0xae, 0x22, 0x23,
             0xb0, 0x03, 0x61, 0xa3, 0x96, 0x17, 0x7a, 0x9c,
             0xb4, 0x10, 0xff, 0x61, 0xf2, 0x00, 0x15, 0xad]
  {
    hide Digest, Compress, CompressAll, IsExample, Pad;
    PaddedExample();
    var p := Pad(ABC);
    assert p[0..] == p && p[0..64] == p;
    CompressAllStep(H0, p, 0);
    CompressAllDone(Compress(H0, p), p);
    HashValueOfExample(p);
    DigestOfExample(Compress(H0, p));
  }
}
