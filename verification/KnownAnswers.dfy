/** Known answers: the digest of "abc" (an example of FIPS 180-4) and codes of appendix D of RFC 4226,
    worked out sixteen rounds at a time. */
module KnownAnswers {
  import S = Sha1
  import Otp

  // ---- sixteen rounds at a time -----------------------------------------------------------------------

  /** Sixteen words of the message schedule. */
  datatype Words = Words(
    w0: S.Word, w1: S.Word, w2: S.Word, w3: S.Word, w4: S.Word, w5: S.Word, w6: S.Word, w7: S.Word,
    w8: S.Word, w9: S.Word, w10: S.Word, w11: S.Word, w12: S.Word, w13: S.Word, w14: S.Word, w15: S.Word)

  /** The variables a to e, and the words of the next sixteen rounds. */
  datatype Stage = Stage(v: S.Digest, w: Words)

  /** The sixteen words after these. */
  function Next(w: Words): Words
  {
    var x0, x1, x2 := S.Extend(w.w13, w.w8, w.w2, w.w0), S.Extend(w.w14, w.w9, w.w3, w.w1),
                      S.Extend(w.w15, w.w10, w.w4, w.w2);
    var x3, x4, x5 := S.Extend(x0, w.w11, w.w5, w.w3), S.Extend(x1, w.w12, w.w6, w.w4),
                      S.Extend(x2, w.w13, w.w7, w.w5);
    var x6, x7, x8 := S.Extend(x3, w.w14, w.w8, w.w6), S.Extend(x4, w.w15, w.w9, w.w7),
                      S.Extend(x5, x0, w.w10, w.w8);
    var x9, x10, x11 := S.Extend(x6, x1, w.w11, w.w9), S.Extend(x7, x2, w.w12, w.w10),
                        S.Extend(x8, x3, w.w13, w.w11);
    var x12, x13, x14 := S.Extend(x9, x4, w.w14, w.w12), S.Extend(x10, x5, w.w15, w.w13),
                         S.Extend(x11, x6, x0, w.w14);
    Words(x0, x1, x2, x3, x4, x5, x6, x7, x8, x9, x10, x11, x12, x13, x14, S.Extend(x12, x7, x1, w.w15))
  }

  function FourTurns(v: S.Digest, t: nat, a: S.Word, b: S.Word, c: S.Word, d: S.Word): S.Digest
  {
    S.Round(S.Round(S.Round(S.Round(v, t, a), t + 1, b), t + 2, c), t + 3, d)
  }

  /** Sixteen rounds. */
  function Turns(v: S.Digest, t: nat, w: Words): S.Digest
  {
    var v1 := FourTurns(v, t, w.w0, w.w1, w.w2, w.w3);
    var v2 := FourTurns(v1, t + 4, w.w4, w.w5, w.w6, w.w7);
    var v3 := FourTurns(v2, t + 8, w.w8, w.w9, w.w10, w.w11);
    FourTurns(v3, t + 12, w.w12, w.w13, w.w14, w.w15)
  }

  predicate Follows(s: Stage, t: nat, u: Stage) { Turns(s.v, t, s.w) == u.v && Next(s.w) == u.w }

  /** The digest after the block whose words these are. */
  function After(s: Stage): S.Digest
  {
    var w1 := Next(s.w);
    var w2 := Next(w1);
    var w3 := Next(w2);
    S.Sum(s.v, Turns(Turns(Turns(Turns(Turns(s.v, 0, s.w), 16, w1), 32, w2), 48, w3), 64, Next(w3)))
  }

  lemma FiveFollow(a: Stage, b: Stage, c: Stage, d: Stage, e: Stage, f: Stage)
    requires Follows(a, 0, b) && Follows(b, 16, c) && Follows(c, 32, d) && Follows(d, 48, e) && Follows(e, 64, f)
    ensures After(a) == S.Sum(a.v, f.v)
  {
    hide Turns, Next, S.Sum;
  }

  // ---- the same as the eighty rounds --------------------------------------------------------------------

  type Block = b: seq<S.Byte> | |b| == 64 witness S.Zeros(64)

  function WordAt(b: Block, i: nat): S.Word
    requires i < 16
  {
    S.BigEndian(b[4 * i], b[4 * i + 1], b[4 * i + 2], b[4 * i + 3])
  }

  function WordsOf(b: Block): Words
  {
    Words(WordAt(b, 0), WordAt(b, 1), WordAt(b, 2), WordAt(b, 3), WordAt(b, 4), WordAt(b, 5), WordAt(b, 6),
          WordAt(b, 7), WordAt(b, 8), WordAt(b, 9), WordAt(b, 10), WordAt(b, 11), WordAt(b, 12), WordAt(b, 13),
          WordAt(b, 14), WordAt(b, 15))
  }

  /** The words of the schedule from `t` on. */
  predicate FromOn(b: Block, t: nat, w: Words)
  {
    && w.w0 == S.Schedule(b, t) && w.w1 == S.Schedule(b, t + 1) && w.w2 == S.Schedule(b, t + 2)
    && w.w3 == S.Schedule(b, t + 3) && w.w4 == S.Schedule(b, t + 4) && w.w5 == S.Schedule(b, t + 5)
    && w.w6 == S.Schedule(b, t + 6) && w.w7 == S.Schedule(b, t + 7) && w.w8 == S.Schedule(b, t + 8)
    && w.w9 == S.Schedule(b, t + 9) && w.w10 == S.Schedule(b, t + 10) && w.w11 == S.Schedule(b, t + 11)
    && w.w12 == S.Schedule(b, t + 12) && w.w13 == S.Schedule(b, t + 13) && w.w14 == S.Schedule(b, t + 14)
    && w.w15 == S.Schedule(b, t + 15)
  }

  lemma FirstSixteen(b: Block)
    ensures FromOn(b, 0, WordsOf(b))
  {
    hide S.BigEndian;
    forall i | 0 <= i < 16 ensures S.Schedule(b, i) == WordAt(b, i) { S.FirstWords(b, i); }
  }

  lemma NextSixteen(b: Block, t: nat, w: Words)
    requires FromOn(b, t, w)
    ensures FromOn(b, t + 16, Next(w))
  {
    hide S.Schedule, S.Extend;
    WordBehind(b, t + 16, t + 13, t + 8, t + 2, t);
    WordBehind(b, t + 17, t + 14, t + 9, t + 3, t + 1);
    WordBehind(b, t + 18, t + 15, t + 10, t + 4, t + 2);
    WordBehind(b, t + 19, t + 16, t + 11, t + 5, t + 3);
    WordBehind(b, t + 20, t + 17, t + 12, t + 6, t + 4);
    WordBehind(b, t + 21, t + 18, t + 13, t + 7, t + 5);
    WordBehind(b, t + 22, t + 19, t + 14, t + 8, t + 6);
    WordBehind(b, t + 23, t + 20, t + 15, t + 9, t + 7);
    WordBehind(b, t + 24, t + 21, t + 16, t + 10, t + 8);
    WordBehind(b, t + 25, t + 22, t + 17, t + 11, t + 9);
    WordBehind(b, t + 26, t + 23, t + 18, t + 12, t + 10);
    WordBehind(b, t + 27, t + 24, t + 19, t + 13, t + 11);
    WordBehind(b, t + 28, t + 25, t + 20, t + 14, t + 12);
    WordBehind(b, t + 29, t + 26, t + 21, t + 15, t + 13);
    WordBehind(b, t + 30, t + 27, t + 22, t + 16, t + 14);
    WordBehind(b, t + 31, t + 28, t + 23, t + 17, t + 15);
  }

  lemma WordBehind(b: Block, t: nat, t3: nat, t8: nat, t14: nat, t16: nat)
    requires t16 + 16 == t14 + 14 == t8 + 8 == t3 + 3 == t
    ensures S.Schedule(b, t)
         == S.Extend(S.Schedule(b, t3), S.Schedule(b, t8), S.Schedule(b, t14), S.Schedule(b, t16))
  {
    hide S.Schedule, S.Extend;
    S.ScheduleWord(b, t);
    assert t - 3 == t3 && t - 8 == t8 && t - 14 == t14 && t - 16 == t16;
  }

  lemma OneRound(v: S.Digest, b: Block, t: nat)
    ensures S.Rounds(v, b, t + 1) == S.Round(S.Rounds(v, b, t), t, S.Schedule(b, t))
  {
    hide S.Round, S.Schedule;
  }

  lemma FourRounds(v: S.Digest, b: Block, t: nat)
    ensures S.Rounds(v, b, t + 4)
         == FourTurns(S.Rounds(v, b, t), t, S.Schedule(b, t), S.Schedule(b, t + 1), S.Schedule(b, t + 2),
                      S.Schedule(b, t + 3))
  {
    hide S.Round, S.Schedule, S.Rounds;
    OneRound(v, b, t);
    OneRound(v, b, t + 1);
    OneRound(v, b, t + 2);
    OneRound(v, b, t + 3);
  }

  lemma SixteenRounds(v: S.Digest, b: Block, t: nat, w: Words)
    requires FromOn(b, t, w)
    ensures S.Rounds(v, b, t + 16) == Turns(S.Rounds(v, b, t), t, w)
  {
    hide S.Rounds, S.Schedule, FourTurns;
    FourRounds(v, b, t);
    FourRounds(v, b, t + 4);
    FourRounds(v, b, t + 8);
    FourRounds(v, b, t + 12);
  }

  lemma CompressIsAfter(h: S.Digest, b: Block)
    ensures S.Compress(h, b) == After(Stage(h, WordsOf(b)))
  {
    hide S.Rounds, FromOn, Turns, Next, WordsOf, S.Sum;
    var w0 := WordsOf(b);
    var w1 := Next(w0);
    var w2 := Next(w1);
    var w3 := Next(w2);
    FirstSixteen(b);
    NextSixteen(b, 0, w0);
    NextSixteen(b, 16, w1);
    NextSixteen(b, 32, w2);
    NextSixteen(b, 48, w3);
    NoRounds(h, b);
    SixteenRounds(h, b, 0, w0);
    SixteenRounds(h, b, 16, w1);
    SixteenRounds(h, b, 32, w2);
    SixteenRounds(h, b, 48, w3);
    SixteenRounds(h, b, 64, Next(w3));
  }

  lemma NoRounds(h: S.Digest, b: Block)
    ensures S.Rounds(h, b, 0) == h
  {
  }

  // ---- the digest of "abc" ---------------------------------------------------------------------------

  const ABC0 := Stage(
    S.Digest(0x67452301, 0xefcdab89, 0x98badcfe, 0x10325476, 0xc3d2e1f0),
    Words(0x61626380, 0x00000000, 0x00000000, 0x00000000, 0x00000000, 0x00000000, 0x00000000, 0x00000000,
          0x00000000, 0x00000000, 0x00000000, 0x00000000, 0x00000000, 0x00000000, 0x00000000, 0x00000018))
  const ABC1 := Stage(
    S.Digest(0x20bdd62f, 0x196bee77, 0x644a3da5, 0x1181ed99, 0x18c623f9),
    Words(0xc2c4c700, 0x00000000, 0x00000030, 0x85898e01, 0x00000000, 0x00000060, 0x0b131c03, 0x00000030,
          0x85898ec1, 0x16263806, 0x00000000, 0x00000180, 0x2c4c700c, 0x000000f0, 0x93afb507, 0x5898e048))
  const ABC2 := Stage(
    S.Digest(0x3b845d33, 0x1267b407, 0x717eebd7, 0xa0dc2d4b, 0xd2aa1365),
    Words(0x8e9a9202, 0x00000600, 0xb131c0f0, 0x16263bc6, 0x4ebed41e, 0x626380a1, 0x16263806, 0x000018c0,
          0xd2e138c4, 0x00000f00, 0x3afb5079, 0x898e04e5, 0xe2ba3c2b, 0x000060c0, 0x053a37cd, 0x74458547))
  const ABC3 := Stage(
    S.Digest(0xbead02ca, 0xa01b846c, 0x8714787c, 0x503ca382, 0xfb86c6ab),
    Words(0xda9415ed, 0x26380a16, 0x626383a1, 0x4ebf54de, 0x3835b44b, 0x0000f600, 0x1e84c7a3, 0x98e04d98,
          0x651d16a0, 0x62658ca1, 0x458544d6, 0x44584cb7, 0x7ba06619, 0x6380aea2, 0x0ae55269, 0x627b49a1))
  const ABC4 := Stage(
    S.Digest(0x6b61c9e1, 0xb66c020b, 0x9523272c, 0xf5d5b051, 0x8fd4b796),
    Words(0x7cd45c9d, 0x000f0000, 0xfb50753a, 0xec6765e8, 0xba3c2be2, 0x0060c000, 0x3a37cd05, 0x458546f4,
          0xb8599dd6, 0x380a1a26, 0x01e02203, 0xe7cc3456, 0xe6e60b69, 0x00f60a00, 0x5795ef4f, 0x822e0879))
  const ABC5 := Stage(
    S.Digest(0x42541b35, 0x5738d5e1, 0x21834873, 0x681e6df6, 0xd8fdf6ad),
    Words(0x7e577ce2, 0x07ef2103, 0x8544e945, 0xeb39dab8, 0xc205991a, 0x80aecb63, 0x7d84ca48, 0x7b499b62,
          0x8e8010a8, 0x4b5b8a77, 0x3216b69a, 0x0507e88d, 0x705bee96, 0x60c0ff00, 0xa28362d0, 0x1da6b91d))

  lemma AbcFirst()
    ensures Follows(ABC0, 0, ABC1) && Follows(ABC1, 16, ABC2)
  {
  }

  lemma AbcThen()
    ensures Follows(ABC2, 32, ABC3) && Follows(ABC3, 48, ABC4)
  {
  }

  lemma AbcLast()
    ensures Follows(ABC4, 64, ABC5)
  {
  }

  lemma Abc()
    ensures After(ABC0) == S.Digest(0xa9993e36, 0x4706816a, 0xba3e2571, 0x7850c26c, 0x9cd0d89d)
  {
    AbcFirst();
    AbcThen();
    AbcLast();
    FiveFollow(ABC0, ABC1, ABC2, ABC3, ABC4, ABC5);
    assert S.Sum(ABC0.v, ABC5.v) == S.Digest(0xa9993e36, 0x4706816a, 0xba3e2571, 0x7850c26c, 0x9cd0d89d);
  }

  const ABC: seq<S.Byte> := [0x61, 0x62, 0x63]

  lemma AbcBlock()
    ensures var b := ABC + S.Padding(3); |b| == 64 && WordsOf(b) == ABC0.w && ABC0.v == S.INITIAL
  {
    LengthOf3();
    PaddingOf(3, ABC, [0, 0, 0, 0, 0, 0, 0, 0x18]);
  }

  lemma LengthOf3()
    ensures S.LengthField(3) == [0, 0, 0, 0, 0, 0, 0, 0x18]
  {
    LengthOf(3, 0, 0x18);
  }

  /** A length in bits below 2^16. */
  lemma LengthOf(bytes: nat, high: S.Byte, low: S.Byte)
    requires bytes < 8192 && S.Octet(8 * bytes / 0x100) == high && S.Octet(8 * bytes) == low
    ensures S.LengthField(bytes) == [0, 0, 0, 0, 0, 0, high, low]
  {
    hide S.Octet;
    NoOctet();
  }

  lemma NoOctet()
    ensures S.Octet(0) == 0
  {
  }

  /** The last block of a message, with its padding. */
  lemma PaddingOf(bytes: nat, last: seq<S.Byte>, length: seq<S.Byte>)
    requires |last| == bytes % 64 < 56 && S.LengthField(bytes) == length
    ensures last + S.Padding(bytes) == last + [0x80] + S.Zeros(55 - |last|) + length
  {
    hide S.LengthField;
  }

  lemma OneBlock(h: S.Digest, b: Block)
    ensures S.Blocks(h, b) == S.Compress(h, b)
  {
    hide S.Compress;
    assert b[..64] == b;
  }

  /** The hash of "abc". */
  lemma HashOfAbc()
    ensures S.Hash(ABC) == [0xa9, 0x99, 0x3e, 0x36, 0x47, 0x06, 0x81, 0x6a, 0xba, 0x3e, 0x25, 0x71, 0x78, 0x50, 0xc2,
                            0x6c, 0x9c, 0xd0, 0xd8, 0x9d]
  {
    hide S.Compress, S.Blocks, S.Padding, After, WordsOf, S.DigestBytes;
    Abc();
    AbcBlock();
    OneBlock(S.INITIAL, ABC + S.Padding(3));
    CompressIsAfter(S.INITIAL, ABC + S.Padding(3));
    AbcBytes();
  }

  lemma AbcBytes()
    ensures S.DigestBytes(S.Digest(0xa9993e36, 0x4706816a, 0xba3e2571, 0x7850c26c, 0x9cd0d89d))
         == [0xa9, 0x99, 0x3e, 0x36, 0x47, 0x06, 0x81, 0x6a, 0xba, 0x3e, 0x25, 0x71, 0x78, 0x50, 0xc2, 0x6c, 0x9c, 0xd0,
             0xd8, 0x9d]
  {
  }

  // ---- a code in two times two blocks --------------------------------------------------------------------

  /** The secret of appendix D: the digits 1 to 0, twice. */
  const SECRET: seq<S.Byte> := [0x31, 0x32, 0x33, 0x34, 0x35, 0x36, 0x37, 0x38, 0x39, 0x30,
                                0x31, 0x32, 0x33, 0x34, 0x35, 0x36, 0x37, 0x38, 0x39, 0x30]

  /** A message of one block and a short rest. */
  lemma HashTwo(first: Block, rest: seq<S.Byte>)
    requires |rest| < 56
    ensures |rest + S.Padding(64 + |rest|)| == 64
    ensures S.Hash(first + rest)
         == S.DigestBytes(S.Compress(S.Compress(S.INITIAL, first), rest + S.Padding(64 + |rest|)))
  {
    hide S.Compress, S.LengthField, S.DigestBytes;
    var last := rest + S.Padding(64 + |rest|);
    assert first + rest + S.Padding(64 + |rest|) == first + last;
    S.BlocksConcat(S.INITIAL, first, last);
    OneBlock(S.INITIAL, first);
    OneBlock(S.Compress(S.INITIAL, first), last);
  }

  lemma {:induction false} ZeroBytes(k: nat)
    ensures Otp.BigEndian(0, k) == S.Zeros(k)
  {
    if k > 0 { ZeroBytes(k - 1); }
  }

  lemma SmallNumber(n: nat)
    requires n < 256
    ensures Otp.BigEndian(n, 8) == S.Zeros(7) + [S.Octet(n)]
  {
    hide S.Octet;
    ZeroBytes(7);
    Otp.BigEndianStep(n, 8);
  }

  /** The digests after the two blocks of the key. */
  const INNER_DIGEST := S.Digest(0xcbc80c8c, 0xf599e2ac, 0xbdb8c832, 0xda95c1c3, 0xf8683025)
  const OUTER_DIGEST := S.Digest(0x98bdbdcd, 0x58e07bfe, 0xad5cddea, 0x3ac0430b, 0xfe106825)

  function TextWords(b: S.Byte): Words { Words(0, b as S.Word, 0x80000000, 0, 0, 0, 0, 0, 0, 0, 0, 0, 0, 0, 0, 576) }

  function MacWords(d: S.Digest): Words { Words(d.a, d.b, d.c, d.d, d.e, 0x80000000, 0, 0, 0, 0, 0, 0, 0, 0, 0, 672) }

  lemma LengthOf72()
    ensures S.LengthField(72) == [0, 0, 0, 0, 0, 0, 0x02, 0x40]
  {
    LengthOf(72, 0x02, 0x40);
  }

  lemma LengthOf84()
    ensures S.LengthField(84) == [0, 0, 0, 0, 0, 0, 0x02, 0xa0]
  {
    LengthOf(84, 0x02, 0xa0);
  }

  lemma TextBlock(b: S.Byte)
    ensures var t := S.Zeros(7) + [b] + S.Padding(72); |t| == 64 && WordsOf(t) == TextWords(b)
  {
    LengthOf72();
    PaddingOf(72, S.Zeros(7) + [b], [0, 0, 0, 0, 0, 0, 0x02, 0x40]);
  }

  lemma MacBlock(d: S.Digest)
    ensures var t := S.DigestBytes(d) + S.Padding(84); |t| == 64 && WordsOf(t) == MacWords(d)
  {
    hide S.WordBytes, S.BigEndian;
    LengthOf84();
    PaddingOf(84, S.DigestBytes(d), [0, 0, 0, 0, 0, 0, 0x02, 0xa0]);
    WordBack(d.a);
    WordBack(d.b);
    WordBack(d.c);
    WordBack(d.d);
    WordBack(d.e);
    Constants();
  }

  lemma Constants()
    ensures S.BigEndian(0x80, 0, 0, 0) == 0x80000000 && S.BigEndian(0, 0, 0, 0) == 0
    ensures S.BigEndian(0, 0, 0x02, 0xa0) == 672
  {
  }

  lemma WordBack(w: S.Word)
    ensures var b := S.WordBytes(w); S.BigEndian(b[0], b[1], b[2], b[3]) == w
  {
  }

  lemma KeyBlock(pad: S.Byte)
    ensures var b := Otp.Xor(Otp.BlockKey(SECRET), pad);
            && |b| == 64 && |SECRET| == 20 && (forall i :: 0 <= i < 20 ==> b[i] == SECRET[i] ^ pad)
            && forall i :: 20 <= i < 64 ==> b[i] == 0 ^ pad
  {
  }

  lemma InnerBlock()
    ensures var b := Otp.Xor(Otp.BlockKey(SECRET), 0x36); |b| == 64 && WordsOf(b) == INNER0.w
    ensures INNER0.v == S.INITIAL
  {
    hide S.BigEndian, Otp.Xor, Otp.BlockKey, SECRET, INNER0, S.INITIAL;
    KeyBlock(0x36);
    InnerWords();
    InnerRest();
  }

  lemma InnerWords()
    ensures |SECRET| == 20
    ensures S.BigEndian(SECRET[0] ^ 0x36, SECRET[1] ^ 0x36, SECRET[2] ^ 0x36, SECRET[3] ^ 0x36)
         == INNER0.w.w0
    ensures S.BigEndian(SECRET[4] ^ 0x36, SECRET[5] ^ 0x36, SECRET[6] ^ 0x36, SECRET[7] ^ 0x36)
         == INNER0.w.w1
    ensures S.BigEndian(SECRET[8] ^ 0x36, SECRET[9] ^ 0x36, SECRET[10] ^ 0x36, SECRET[11] ^ 0x36)
         == INNER0.w.w2
    ensures S.BigEndian(SECRET[12] ^ 0x36, SECRET[13] ^ 0x36, SECRET[14] ^ 0x36, SECRET[15] ^ 0x36)
         == INNER0.w.w3
    ensures S.BigEndian(SECRET[16] ^ 0x36, SECRET[17] ^ 0x36, SECRET[18] ^ 0x36, SECRET[19] ^ 0x36)
         == INNER0.w.w4
  {
  }

  lemma InnerRest()
    ensures var w, x := INNER0.w, S.BigEndian(0 ^ 0x36, 0 ^ 0x36, 0 ^ 0x36, 0 ^ 0x36);
            && w.w5 == w.w6 == w.w7 == w.w8 == w.w9 == w.w10 == w.w11 == w.w12 == w.w13 == w.w14 == w.w15 == x
            && INNER0.v == S.INITIAL
  {
  }

  lemma OuterBlock()
    ensures var b := Otp.Xor(Otp.BlockKey(SECRET), 0x5C); |b| == 64 && WordsOf(b) == OUTER0.w
    ensures OUTER0.v == S.INITIAL
  {
    hide S.BigEndian, Otp.Xor, Otp.BlockKey, SECRET, OUTER0, S.INITIAL;
    KeyBlock(0x5C);
    OuterWords();
    OuterRest();
  }

  lemma OuterWords()
    ensures |SECRET| == 20
    ensures S.BigEndian(SECRET[0] ^ 0x5C, SECRET[1] ^ 0x5C, SECRET[2] ^ 0x5C, SECRET[3] ^ 0x5C)
         == OUTER0.w.w0
    ensures S.BigEndian(SECRET[4] ^ 0x5C, SECRET[5] ^ 0x5C, SECRET[6] ^ 0x5C, SECRET[7] ^ 0x5C)
         == OUTER0.w.w1
    ensures S.BigEndian(SECRET[8] ^ 0x5C, SECRET[9] ^ 0x5C, SECRET[10] ^ 0x5C, SECRET[11] ^ 0x5C)
         == OUTER0.w.w2
    ensures S.BigEndian(SECRET[12] ^ 0x5C, SECRET[13] ^ 0x5C, SECRET[14] ^ 0x5C, SECRET[15] ^ 0x5C)
         == OUTER0.w.w3
    ensures S.BigEndian(SECRET[16] ^ 0x5C, SECRET[17] ^ 0x5C, SECRET[18] ^ 0x5C, SECRET[19] ^ 0x5C)
         == OUTER0.w.w4
  {
  }

  lemma OuterRest()
    ensures var w, x := OUTER0.w, S.BigEndian(0 ^ 0x5C, 0 ^ 0x5C, 0 ^ 0x5C, 0 ^ 0x5C);
            && w.w5 == w.w6 == w.w7 == w.w8 == w.w9 == w.w10 == w.w11 == w.w12 == w.w13 == w.w14 == w.w15 == x
            && OUTER0.v == S.INITIAL
  {
  }

  lemma CodeFrom(n: nat, b: S.Byte, d: S.Digest, e: S.Digest)
    requires n < 256 && S.Octet(n) == b
    requires After(Stage(INNER_DIGEST, TextWords(b))) == d && After(Stage(OUTER_DIGEST, MacWords(d))) == e
    ensures Otp.Code(SECRET, n) == Otp.Truncated(S.DigestBytes(e))
  {
    hide *;
    var inner, outer := Otp.Xor(Otp.BlockKey(SECRET), 0x36), Otp.Xor(Otp.BlockKey(SECRET), 0x5C);
    var text := Otp.BigEndian(n, 8);
    InnerBlock();
    OuterBlock();
    KeyDigests();
    CompressIsAfter(S.INITIAL, inner);
    CompressIsAfter(S.INITIAL, outer);
    SmallNumber(n);
    TextBlock(b);
    MacBlock(d);
    HashTwo(inner, text);
    CompressIsAfter(INNER_DIGEST, text + S.Padding(72));
    HashTwo(outer, S.DigestBytes(d));
    CompressIsAfter(OUTER_DIGEST, S.DigestBytes(d) + S.Padding(84));
    MacIs(SECRET, text);
    CodeIs(n);
  }

  lemma KeyDigests()
    ensures After(INNER0) == INNER_DIGEST && After(OUTER0) == OUTER_DIGEST
  {
    hide After, INNER0, OUTER0;
    Inner();
    Outer();
  }

  lemma MacIs(key: seq<S.Byte>, text: seq<S.Byte>)
    ensures Otp.Hmac(key, text)
         == S.Hash(Otp.Xor(Otp.BlockKey(key), 0x5C) + S.Hash(Otp.Xor(Otp.BlockKey(key), 0x36) + text))
  {
    hide S.Hash, Otp.Xor, Otp.BlockKey;
  }

  lemma CodeIs(n: nat)
    ensures Otp.Code(SECRET, n) == Otp.Truncated(Otp.Hmac(SECRET, Otp.BigEndian(n, 8)))
  {
    hide Otp.Truncated, Otp.Hmac;
  }

  // ---- appendix D of RFC 4226 -------------------------------------------------------------------------------

  const INNER0 := Stage(
    S.Digest(0x67452301, 0xefcdab89, 0x98badcfe, 0x10325476, 0xc3d2e1f0),
    Words(0x07040502, 0x0300010e, 0x0f060704, 0x05020300, 0x010e0f06, 0x36363636, 0x36363636, 0x36363636,
          0x36363636, 0x36363636, 0x36363636, 0x36363636, 0x36363636, 0x36363636, 0x36363636, 0x36363636))
  const INNER1 := Stage(
    S.Digest(0xda5387e8, 0x0f6c6107, 0x03054fec, 0x2ec9dc74, 0xbab564a1),
    Words(0x1004040c, 0x0c04041c, 0x1c101004, 0x2a0c0e18, 0x1a141634, 0x544c4c64, 0x3874705c, 0x58444004,
          0x889090d0, 0x68e0e880, 0x88a8a000, 0x45393d91, 0xe5e9fd68, 0xb9c9d8c9, 0xb6feffee, 0x0f3f1e8d))
  const INNER2 := Stage(
    S.Digest(0xeae84fa2, 0xb24d42a3, 0xff31caa1, 0x5fe58b38, 0x3ca16ea6),
    Words(0x7a9ab822, 0xf02c3ad5, 0x0327717b, 0x83c78f9e, 0x6f4b43aa, 0x6dcd4ba5, 0x0bbb21f9, 0xa1a1eb46,
          0x2edf86ae, 0xac9d9c7b, 0x9f8f8eab, 0xa3d1d8d0, 0x2183baaf, 0x89680694, 0xc81d7dca, 0xfe62eb62))
  const INNER3 := Stage(
    S.Digest(0x05b55cba, 0xef2e7b6d, 0x057fce52, 0xb4efd4ec, 0xc2d6a111),
    Words(0xbc1492c7, 0x2ed6a9f4, 0x1b02ae30, 0xe39f1c59, 0xd74ae210, 0xbc0c108e, 0x1dcd8d88, 0x4828fc9e,
          0x62911499, 0x78aec1ae, 0xda4ccd55, 0x576fad09, 0x8cf5c9b6, 0x2294605a, 0x7d579f18, 0x28d2ef7c))
  const INNER4 := Stage(
    S.Digest(0xcd106b8c, 0x18bfe4fe, 0x140ba56f, 0x8eb0b61d, 0x0b8412db),
    Words(0xce269069, 0x9161d637, 0x7dacdc12, 0x8db4636f, 0xae26e033, 0x5638a0b1, 0x1f7ecacd, 0x6ce464ff,
          0x4187d228, 0x43bce0bb, 0x8fe3781c, 0x7390f829, 0x3870ac4c, 0xa73aaf17, 0xbf3e7b2b, 0xda4fe3f1))
  const INNER5 := Stage(
    S.Digest(0x6482e98b, 0x05cc3723, 0x24fdeb34, 0xca636d4d, 0x34954e35),
    Words(0xaa6e6288, 0xc0ae5d91, 0x0c4d4f99, 0x04e4b2fe, 0x930db646, 0x23564981, 0xca47a261, 0xcc35a3e6,
          0x8eb9027a, 0x758bcec4, 0xefd6705e, 0xbdefcf74, 0xc3915fca, 0x63eaea73, 0xc5f0e96c, 0x2a8a8498))

  lemma InnerFirst()
    ensures Follows(INNER0, 0, INNER1) && Follows(INNER1, 16, INNER2)
  {
  }

  lemma InnerThen()
    ensures Follows(INNER2, 32, INNER3) && Follows(INNER3, 48, INNER4)
  {
  }

  lemma InnerLast()
    ensures Follows(INNER4, 64, INNER5)
  {
  }

  lemma Inner()
    ensures After(INNER0) == S.Digest(0xcbc80c8c, 0xf599e2ac, 0xbdb8c832, 0xda95c1c3, 0xf8683025)
  {
    InnerFirst();
    InnerThen();
    InnerLast();
    FiveFollow(INNER0, INNER1, INNER2, INNER3, INNER4, INNER5);
    assert S.Sum(INNER0.v, INNER5.v) == S.Digest(0xcbc80c8c, 0xf599e2ac, 0xbdb8c832, 0xda95c1c3, 0xf8683025);
  }

  const OUTER0 := Stage(
    S.Digest(0x67452301, 0xefcdab89, 0x98badcfe, 0x10325476, 0xc3d2e1f0),
    Words(0x6d6e6f68, 0x696a6b64, 0x656c6d6e, 0x6f68696a, 0x6b64656c, 0x5c5c5c5c, 0x5c5c5c5c, 0x5c5c5c5c,
          0x5c5c5c5c, 0x5c5c5c5c, 0x5c5c5c5c, 0x5c5c5c5c, 0x5c5c5c5c, 0x5c5c5c5c, 0x5c5c5c5c, 0x5c5c5c5c))
  const OUTER1 := Stage(
    S.Digest(0x60118655, 0xef712dec, 0x4a55fb20, 0xcec02cab, 0x58ab6cd5),
    Words(0x1004040c, 0x0c04041c, 0x1c101004, 0xfed8dacc, 0xcec0c2e0, 0x809898b0, 0x45090d21, 0x25393d79,
          0x21393979, 0x921a127a, 0x72525afa, 0xbfc3c76b, 0xb9b5a134, 0xe5958495, 0x6d252435, 0x99a9881b))
  const OUTER2 := Stage(
    S.Digest(0x872264a7, 0xb06f8500, 0x7124b587, 0x1722c49e, 0xa6ea1781),
    Words(0x917153c9, 0x1bc7d13e, 0x7256000a, 0xa1e5adbc, 0x53777f96, 0x64c442ac, 0x51e17ba3, 0xfbfbb11c,
          0x4dbce5cd, 0xcffeff18, 0x849495b0, 0x6c1e171f, 0x90320b1e, 0x38d9b725, 0x83563681, 0xd34fc64f))
  const OUTER3 := Stage(
    S.Digest(0xccf4228d, 0xd1d28958, 0xf8f8b11d, 0x28bdb341, 0x2089ed38),
    Words(0x2c840257, 0xed156a37, 0xedf458c6, 0x0b77f4b1, 0xff62ca38, 0x942438a6, 0x28f8b8bd, 0x305084e6,
          0xe3109518, 0xcc1a751a, 0x9204851d, 0x79418327, 0x4039057a, 0xdb6d99a3, 0xfcd61e99, 0x9c665bc8))
  const OUTER4 := Stage(
    S.Digest(0x2dd6eacc, 0xbdd357b6, 0x8ce0560a, 0x5b2221a2, 0x0607dbc6),
    Words(0xf21aac55, 0xad5dea0b, 0x39e89856, 0x2811c6ca, 0x75fd3be8, 0x8de37b6a, 0x3e5febec, 0x2ba323b8,
          0x1ddb8e74, 0x4cb3efb4, 0x80ec7713, 0x2fcca475, 0x0b439f7f, 0x94099c24, 0x3ebffaaa, 0x23b61a08))
  const OUTER5 := Stage(
    S.Digest(0x31789acc, 0x6912d075, 0x14a200ec, 0x2a8dee95, 0x3a3d8635),
    Words(0x84404ca6, 0xee8073bf, 0xde9f9d4b, 0x1cfcaae6, 0x5cc27989, 0xd9acb37b, 0x038e6ba8, 0x30c95f1a,
          0x81b60d75, 0x1ce2a7ad, 0xcbf2547a, 0x4d1f3f84, 0xebb977e2, 0x4bc2c25b, 0xe8ddc441, 0x2c8c829e))

  lemma OuterFirst()
    ensures Follows(OUTER0, 0, OUTER1) && Follows(OUTER1, 16, OUTER2)
  {
  }

  lemma OuterThen()
    ensures Follows(OUTER2, 32, OUTER3) && Follows(OUTER3, 48, OUTER4)
  {
  }

  lemma OuterLast()
    ensures Follows(OUTER4, 64, OUTER5)
  {
  }

  lemma Outer()
    ensures After(OUTER0) == S.Digest(0x98bdbdcd, 0x58e07bfe, 0xad5cddea, 0x3ac0430b, 0xfe106825)
  {
    OuterFirst();
    OuterThen();
    OuterLast();
    FiveFollow(OUTER0, OUTER1, OUTER2, OUTER3, OUTER4, OUTER5);
    assert S.Sum(OUTER0.v, OUTER5.v) == S.Digest(0x98bdbdcd, 0x58e07bfe, 0xad5cddea, 0x3ac0430b, 0xfe106825);
  }

  const TEXT1_0 := Stage(
    S.Digest(0xcbc80c8c, 0xf599e2ac, 0xbdb8c832, 0xda95c1c3, 0xf8683025),
    Words(0x00000000, 0x00000001, 0x80000000, 0x00000000, 0x00000000, 0x00000000, 0x00000000, 0x00000000,
          0x00000000, 0x00000000, 0x00000000, 0x00000000, 0x00000000, 0x00000000, 0x00000000, 0x00000240))
  const TEXT1_1 := Stage(
    S.Digest(0x50f38fda, 0x795e5711, 0xff6a17f9, 0x265ffb0f, 0xa7626f36),
    Words(0x00000001, 0x00000002, 0x00000481, 0x00000002, 0x00000004, 0x00000902, 0x00000004, 0x00000488,
          0x00001206, 0x0000000c, 0x00000012, 0x00002408, 0x00000010, 0x000016a0, 0x0000481a, 0x00000db4))
  const TEXT1_2 := Stage(
    S.Digest(0x540172af, 0x3d3971da, 0xf56424ec, 0x86e7c9f8, 0x1d27e751),
    Words(0x0000004c, 0x0000902c, 0x00001246, 0x00005a88, 0x00012078, 0x000012d8, 0x00000120, 0x00025290,
          0x00000100, 0x00016a10, 0x000481a8, 0x0000d240, 0x000004c4, 0x000910c8, 0x0001366c, 0x00059798))
  const TEXT1_3 := Stage(
    S.Digest(0xdb7df0b7, 0x15357f80, 0x502023ca, 0xbeb9597c, 0x3bebf03f),
    Words(0x00120784, 0x00012db0, 0x0000481c, 0x00253b28, 0x00001058, 0x00163138, 0x00481ac8, 0x000d7e80,
          0x00016c28, 0x00911e50, 0x001367e0, 0x005b2b10, 0x01207940, 0x0013a310, 0x00000060, 0x02537bd0))
  const TEXT1_4 := Stage(
    S.Digest(0x1ab10578, 0x5594c67e, 0xcfe6cf79, 0xcdea05d1, 0x34a03646),
    Words(0x00010140, 0x016a1150, 0x048088e8, 0x00d24080, 0x0004c500, 0x0910c880, 0x01366c00, 0x0597bc00,
          0x12078410, 0x012c9020, 0x00485490, 0x253a9920, 0x00105800, 0x163089a0, 0x481be800, 0x0d7d1d00))
  const TEXT1_5 := Stage(
    S.Digest(0xe2717e46, 0xef9ff3b0, 0x9fea126a, 0xafcb727e, 0x9ed10a67),
    Words(0x016d0830, 0x911e53e0, 0x136208f0, 0x5b2a3220, 0x207945c1, 0x13abeba0, 0x00006460, 0x537ee9c2,
          0x01126620, 0x6a107d01, 0x8089db44, 0xd2648900, 0x04c51180, 0x10df4889, 0x36241aa1, 0x97b16d45))

  lemma Text1First()
    ensures Follows(TEXT1_0, 0, TEXT1_1) && Follows(TEXT1_1, 16, TEXT1_2)
  {
  }

  lemma Text1Then()
    ensures Follows(TEXT1_2, 32, TEXT1_3) && Follows(TEXT1_3, 48, TEXT1_4)
  {
  }

  lemma Text1Last()
    ensures Follows(TEXT1_4, 64, TEXT1_5)
  {
  }

  lemma Text1()
    ensures After(TEXT1_0) == S.Digest(0xae398ad2, 0xe539d65c, 0x5da2da9c, 0x8a613441, 0x97393a8c)
  {
    Text1First();
    Text1Then();
    Text1Last();
    FiveFollow(TEXT1_0, TEXT1_1, TEXT1_2, TEXT1_3, TEXT1_4, TEXT1_5);
    assert S.Sum(TEXT1_0.v, TEXT1_5.v) == S.Digest(0xae398ad2, 0xe539d65c, 0x5da2da9c, 0x8a613441, 0x97393a8c);
  }

  const MAC1_0 := Stage(
    S.Digest(0x98bdbdcd, 0x58e07bfe, 0xad5cddea, 0x3ac0430b, 0xfe106825),
    Words(0xae398ad2, 0xe539d65c, 0x5da2da9c, 0x8a613441, 0x97393a8c, 0x80000000, 0x00000000, 0x00000000,
          0x00000000, 0x00000000, 0x00000000, 0x00000000, 0x00000000, 0x00000000, 0x00000000, 0x000002a0))
  const MAC1_1 := Stage(
    S.Digest(0x7b046094, 0xd4ac0617, 0x55bc9171, 0x30afa95a, 0x5c57f2f3),
    Words(0xe736a09d, 0xdeb1c43a, 0x9537c561, 0xdaaf29b9, 0x9311fd6c, 0x2a6f8ac2, 0xb55e5373, 0x2623ff99,
          0x9ab254bf, 0xd7df2e92, 0x662875f1, 0x803afa0c, 0x899da7fc, 0x988ffb26, 0xa4a413c5, 0xe21f3dfe))
  const MAC1_2 := Stage(
    S.Digest(0x4544c001, 0x8dad5beb, 0xc2f31a33, 0x8a9f18a8, 0xe3a93b29),
    Words(0xe07994ca, 0xeecba1a8, 0x0422e005, 0x21079b7b, 0x82335096, 0x21c2dcf1, 0x549f1ee5, 0x23a178c7,
          0x7a42d2ea, 0xdb62d7a7, 0x906c959f, 0x87e09176, 0xe8d06610, 0x967d1f6d, 0x2f441139, 0x8f4b0503))
  const MAC1_3 := Stage(
    S.Digest(0x0a163124, 0xc1096df2, 0x1aaa44a5, 0xc0f93689, 0x4e2bc873),
    Words(0x10c97290, 0x77d5f89a, 0x326c401f, 0x2fd948d9, 0x9353a1f2, 0x4ce5f689, 0x5c812bde, 0xc9b61723,
          0x6c0586d9, 0xefad2b2a, 0x06cd4967, 0xa4828036, 0x76d5fbe3, 0xa63d4b00, 0x8f1d9083, 0x8ffa22b2))
  const MAC1_4 := Stage(
    S.Digest(0x50a2e56c, 0xd2144bfa, 0x48eb5daf, 0xdb4f745f, 0x0b97073a),
    Words(0xd13bfead, 0x717817d4, 0x50111470, 0x2d0b8196, 0x90fecc37, 0xe6ff7db4, 0x25257825, 0x723fa518,
          0xba18994e, 0x3ee589da, 0xa46c07d8, 0x2b59a7dd, 0xafa65d1a, 0xd6a827bc, 0xa0b563ac, 0x46379ac8))
  const MAC1_5 := Stage(
    S.Digest(0xdce6cc4c, 0x7beb6502, 0xb6f1acd7, 0xfebea769, 0x7c1ccb86),
    Words(0xdb34a85f, 0x8446f869, 0x45688aae, 0x7733e740, 0x3c7622c3, 0x0e00eb7c, 0x9176cb0e, 0x6d372992,
          0x9681bb6b, 0x01183ac0, 0x472bf3fc, 0x3887b894, 0x64fa4d6a, 0xb3694be9, 0xa4e170d3, 0x97780cb3))

  lemma Mac1First()
    ensures Follows(MAC1_0, 0, MAC1_1) && Follows(MAC1_1, 16, MAC1_2)
  {
  }

  lemma Mac1Then()
    ensures Follows(MAC1_2, 32, MAC1_3) && Follows(MAC1_3, 48, MAC1_4)
  {
  }

  lemma Mac1Last()
    ensures Follows(MAC1_4, 64, MAC1_5)
  {
  }

  lemma Mac1()
    ensures After(MAC1_0) == S.Digest(0x75a48a19, 0xd4cbe100, 0x644e8ac1, 0x397eea74, 0x7a2d33ab)
  {
    Mac1First();
    Mac1Then();
    Mac1Last();
    FiveFollow(MAC1_0, MAC1_1, MAC1_2, MAC1_3, MAC1_4, MAC1_5);
    assert S.Sum(MAC1_0.v, MAC1_5.v) == S.Digest(0x75a48a19, 0xd4cbe100, 0x644e8ac1, 0x397eea74, 0x7a2d33ab);
  }

  lemma Code1()
    ensures Otp.Code(SECRET, 1) == 287082
  {
    hide *;
    Text1();
    Mac1();
    Stages1();
    CodeFrom(1, 0x01, S.Digest(0xae398ad2, 0xe539d65c, 0x5da2da9c, 0x8a613441, 0x97393a8c),
             S.Digest(0x75a48a19, 0xd4cbe100, 0x644e8ac1, 0x397eea74, 0x7a2d33ab));
    Truncated1();
  }

  lemma Stages1()
    ensures S.Octet(1) == 0x01 && TEXT1_0 == Stage(INNER_DIGEST, TextWords(0x01))
    ensures MAC1_0 == Stage(OUTER_DIGEST,
                          MacWords(S.Digest(0xae398ad2, 0xe539d65c, 0x5da2da9c, 0x8a613441, 0x97393a8c)))
  {
  }

  lemma Truncated1()
    ensures Otp.Truncated(S.DigestBytes(S.Digest(0x75a48a19, 0xd4cbe100, 0x644e8ac1, 0x397eea74, 0x7a2d33ab))) == 287082
  {
  }

  const TEXT2_0 := Stage(
    S.Digest(0xcbc80c8c, 0xf599e2ac, 0xbdb8c832, 0xda95c1c3, 0xf8683025),
    Words(0x00000000, 0x00000002, 0x80000000, 0x00000000, 0x00000000, 0x00000000, 0x00000000, 0x00000000,
          0x00000000, 0x00000000, 0x00000000, 0x00000000, 0x00000000, 0x00000000, 0x00000000, 0x00000240))
  const TEXT2_1 := Stage(
    S.Digest(0x885cc99e, 0x34548331, 0x7a865ecf, 0x707beb07, 0x95cc3b3e),
    Words(0x00000001, 0x00000004, 0x00000481, 0x00000002, 0x00000008, 0x00000902, 0x00000004, 0x00000490,
          0x00001206, 0x00000000, 0x00000022, 0x00002408, 0x00000010, 0x000016c0, 0x0000481a, 0x00000d88))
  const TEXT2_2 := Stage(
    S.Digest(0x62893114, 0x29db60af, 0xc0d4d8fe, 0xfbf1089f, 0xa2142cfc),
    Words(0x0000008c, 0x00009038, 0x00001246, 0x00005b08, 0x00012048, 0x00001228, 0x00000220, 0x000252a0,
          0x00000100, 0x00016c20, 0x000481a8, 0x0000d180, 0x000008c4, 0x00091190, 0x0001366c, 0x00058fa8))
  const TEXT2_3 := Stage(
    S.Digest(0x91460ade, 0xdee3eadf, 0xc1fcf322, 0x6cf0155a, 0x37d93a87),
    Words(0x001204b4, 0x000122f8, 0x0000781c, 0x00253828, 0x000010a8, 0x00165208, 0x00481ac8, 0x000d4300,
          0x0001ac28, 0x00910b20, 0x001364e0, 0x005aa820, 0x01204a40, 0x001351a0, 0x00030060, 0x02534820))
  const TEXT2_4 := Stage(
    S.Digest(0xcd077b2e, 0xc22cb56f, 0x46fd2079, 0x9574f639, 0xee026edb),
    Words(0x00010240, 0x016c2320, 0x048088e8, 0x00d18080, 0x0008c600, 0x09119080, 0x01366c00, 0x058f8c00,
          0x1204b410, 0x0123d840, 0x00785490, 0x25399a20, 0x0010a8c0, 0x1653bb20, 0x481be800, 0x0d409f80))
  const TEXT2_5 := Stage(
    S.Digest(0x123c06cb, 0x071616e5, 0xc5969b1c, 0x829a0f7a, 0x88b133e6),
    Words(0x01ad0b30, 0x910b27c0, 0x13610bf0, 0x5aa90220, 0x204a4a01, 0x135958a0, 0x03006460, 0x534d0382,
          0x01116620, 0x6c220381, 0x8089e844, 0xd1a48a00, 0x08c61280, 0x11872889, 0x36241aa1, 0x8f815285))

  lemma Text2First()
    ensures Follows(TEXT2_0, 0, TEXT2_1) && Follows(TEXT2_1, 16, TEXT2_2)
  {
  }

  lemma Text2Then()
    ensures Follows(TEXT2_2, 32, TEXT2_3) && Follows(TEXT2_3, 48, TEXT2_4)
  {
  }

  lemma Text2Last()
    ensures Follows(TEXT2_4, 64, TEXT2_5)
  {
  }

  lemma Text2()
    ensures After(TEXT2_0) == S.Digest(0xde041357, 0xfcaff991, 0x834f634e, 0x5d2fd13d, 0x8119640b)
  {
    Text2First();
    Text2Then();
    Text2Last();
    FiveFollow(TEXT2_0, TEXT2_1, TEXT2_2, TEXT2_3, TEXT2_4, TEXT2_5);
    assert S.Sum(TEXT2_0.v, TEXT2_5.v) == S.Digest(0xde041357, 0xfcaff991, 0x834f634e, 0x5d2fd13d, 0x8119640b);
  }

  const MAC2_0 := Stage(
    S.Digest(0x98bdbdcd, 0x58e07bfe, 0xad5cddea, 0x3ac0430b, 0xfe106825),
    Words(0xde041357, 0xfcaff991, 0x834f634e, 0x5d2fd13d, 0x8119640b, 0x80000000, 0x00000000, 0x00000000,
          0x00000000, 0x00000000, 0x00000000, 0x00000000, 0x00000000, 0x00000000, 0x00000000, 0x000002a0))
  const MAC2_1 := Stage(
    S.Digest(0x5954f083, 0x0f834473, 0x16aed78c, 0x631aae78, 0xa840c384),
    Words(0xba96e032, 0x43005159, 0x04ac0bca, 0xcf72621e, 0x84326aa5, 0x09581795, 0x9ee4c43d, 0x0864d00b,
          0x679def4f, 0xbbc92ac9, 0x1991b782, 0x51df1aa3, 0x7ff680d8, 0x2193456e, 0xeb5a7d58, 0x69240654))
  const MAC2_2 := Stage(
    S.Digest(0xab74ab4d, 0x53856236, 0x3ef1bdfa, 0xfd305cd4, 0x83cf2390),
    Words(0xf06883b3, 0xb9c2c9ad, 0xe057a173, 0xcf3bd936, 0xb9c5cfdb, 0x81f04707, 0xba311e39, 0xc698669a,
          0x1f2938f2, 0xd3cbcffd, 0x8151e166, 0x40bd7c13, 0xfd45fb4d, 0x902dcab6, 0xc37d3983, 0xd676a45d))
  const MAC2_3 := Stage(
    S.Digest(0x1c1bddad, 0x1a8a636d, 0x51ff1207, 0x2358519d, 0x694da23f),
    Words(0x3e77a109, 0xcc9fcdca, 0x1d6a5726, 0x60028656, 0x645dceca, 0x945f781b, 0x0ccf323c, 0x4ef187e1,
          0x68a0010c, 0xa64c9830, 0x5f1f95d8, 0xb06463ff, 0xf8532869, 0x1a370651, 0x83439292, 0x58978c3f))
  const MAC2_4 := Stage(
    S.Digest(0x6d69883d, 0x9d45a8eb, 0x04f3ac4c, 0x17ec9539, 0x48f05f33),
    Words(0xa315e2e4, 0x1324827d, 0xfd7f0016, 0xce58fead, 0x07caadc5, 0x7bcdf37a, 0x52e8be1e, 0x6fc07c57,
          0xdecf0a95, 0xafc98f58, 0x6be783e0, 0x7589232d, 0xa62730cd, 0xa515f5e8, 0x0e6fda8a, 0x04a885b1))
  const MAC2_5 := Stage(
    S.Digest(0x72eefa2d, 0xaf4f7332, 0xcac533a9, 0x510182dc, 0x0606971f),
    Words(0x4b603b1e, 0xf9b45204, 0x2bf55705, 0x16f82bc9, 0x1562e224, 0x35da5b81, 0x29608b91, 0xa3872935,
          0x9725d3d5, 0x1528ebc0, 0x8b659a3a, 0xa2825db2, 0x5005c747, 0x3e0563c4, 0x9dda6f6f, 0x1d3c738e))

  lemma Mac2First()
    ensures Follows(MAC2_0, 0, MAC2_1) && Follows(MAC2_1, 16, MAC2_2)
  {
  }

  lemma Mac2Then()
    ensures Follows(MAC2_2, 32, MAC2_3) && Follows(MAC2_3, 48, MAC2_4)
  {
  }

  lemma Mac2Last()
    ensures Follows(MAC2_4, 64, MAC2_5)
  {
  }

  lemma Mac2()
    ensures After(MAC2_0) == S.Digest(0x0bacb7fa, 0x082fef30, 0x78221193, 0x8bc1c5e7, 0x0416ff44)
  {
    Mac2First();
    Mac2Then();
    Mac2Last();
    FiveFollow(MAC2_0, MAC2_1, MAC2_2, MAC2_3, MAC2_4, MAC2_5);
    assert S.Sum(MAC2_0.v, MAC2_5.v) == S.Digest(0x0bacb7fa, 0x082fef30, 0x78221193, 0x8bc1c5e7, 0x0416ff44);
  }

  lemma Code2()
    ensures Otp.Code(SECRET, 2) == 359152
  {
    hide *;
    Text2();
    Mac2();
    Stages2();
    CodeFrom(2, 0x02, S.Digest(0xde041357, 0xfcaff991, 0x834f634e, 0x5d2fd13d, 0x8119640b),
             S.Digest(0x0bacb7fa, 0x082fef30, 0x78221193, 0x8bc1c5e7, 0x0416ff44));
    Truncated2();
  }

  lemma Stages2()
    ensures S.Octet(2) == 0x02 && TEXT2_0 == Stage(INNER_DIGEST, TextWords(0x02))
    ensures MAC2_0 == Stage(OUTER_DIGEST,
                          MacWords(S.Digest(0xde041357, 0xfcaff991, 0x834f634e, 0x5d2fd13d, 0x8119640b)))
  {
  }

  lemma Truncated2()
    ensures Otp.Truncated(S.DigestBytes(S.Digest(0x0bacb7fa, 0x082fef30, 0x78221193, 0x8bc1c5e7, 0x0416ff44))) == 359152
  {
  }

  const TEXT3_0 := Stage(
    S.Digest(0xcbc80c8c, 0xf599e2ac, 0xbdb8c832, 0xda95c1c3, 0xf8683025),
    Words(0x00000000, 0x00000003, 0x80000000, 0x00000000, 0x00000000, 0x00000000, 0x00000000, 0x00000000,
          0x00000000, 0x00000000, 0x00000000, 0x00000000, 0x00000000, 0x00000000, 0x00000000, 0x00000240))
  const TEXT3_1 := Stage(
    S.Digest(0x8e789f00, 0xe2c88caf, 0xdab7d640, 0x9d8c98cf, 0x171e96a0),
    Words(0x00000001, 0x00000006, 0x00000481, 0x00000002, 0x0000000c, 0x00000902, 0x00000004, 0x00000498,
          0x00001206, 0x00000004, 0x00000032, 0x00002408, 0x00000010, 0x000016e0, 0x0000481a, 0x00000d9c))
  const TEXT3_2 := Stage(
    S.Digest(0xb103da37, 0xab7546b7, 0x2fba8780, 0x997bc30e, 0xb82f262d),
    Words(0x000000cc, 0x00009034, 0x00001246, 0x00005b88, 0x00012058, 0x00001278, 0x00000320, 0x000252b0,
          0x00000100, 0x00016e30, 0x000481a8, 0x0000d0c0, 0x00000cc4, 0x00091158, 0x0001366c, 0x000587b8))
  const TEXT3_3 := Stage(
    S.Digest(0x777cea65, 0x20b5c743, 0x1fcafc19, 0x70902a5a, 0x7559f6ad),
    Words(0x001205a4, 0x000127c0, 0x0000681c, 0x00253928, 0x000010f8, 0x00167318, 0x00481ac8, 0x000d5780,
          0x0001ec28, 0x009107f0, 0x001365e0, 0x005a2930, 0x01205b40, 0x00130030, 0x00020060, 0x02535970))
  const TEXT3_4 := Stage(
    S.Digest(0x24fc9fc2, 0x67c273d2, 0xfb2c926d, 0x9b19c2da, 0xb0e9f742),
    Words(0x00010340, 0x016e32f0, 0x048088e8, 0x00d0c080, 0x000cc700, 0x09115880, 0x01366c00, 0x05879c00,
          0x1205a410, 0x0126e060, 0x00685490, 0x25389b20, 0x0010f880, 0x1672aaa0, 0x481be800, 0x0d541e00))
  const TEXT3_5 := Stage(
    S.Digest(0xf794b25e, 0x1dcceab6, 0xa0d74e03, 0x98822619, 0x61eb7bd5),
    Words(0x01ed0a30, 0x9107f420, 0x13600af0, 0x5a281220, 0x205b4f41, 0x1308c9a0, 0x02006460, 0x535c5a42,
          0x01106620, 0x6e33d601, 0x8089f944, 0xd0e48b00, 0x0cc71380, 0x114f0889, 0x36241aa1, 0x879147c5))

  lemma Text3First()
    ensures Follows(TEXT3_0, 0, TEXT3_1) && Follows(TEXT3_1, 16, TEXT3_2)
  {
  }

  lemma Text3Then()
    ensures Follows(TEXT3_2, 32, TEXT3_3) && Follows(TEXT3_3, 48, TEXT3_4)
  {
  }

  lemma Text3Last()
    ensures Follows(TEXT3_4, 64, TEXT3_5)
  {
  }

  lemma Text3()
    ensures After(TEXT3_0) == S.Digest(0xc35cbeea, 0x1366cd62, 0x5e901635, 0x7317e7dc, 0x5a53abfa)
  {
    Text3First();
    Text3Then();
    Text3Last();
    FiveFollow(TEXT3_0, TEXT3_1, TEXT3_2, TEXT3_3, TEXT3_4, TEXT3_5);
    assert S.Sum(TEXT3_0.v, TEXT3_5.v) == S.Digest(0xc35cbeea, 0x1366cd62, 0x5e901635, 0x7317e7dc, 0x5a53abfa);
  }

  const MAC3_0 := Stage(
    S.Digest(0x98bdbdcd, 0x58e07bfe, 0xad5cddea, 0x3ac0430b, 0xfe106825),
    Words(0xc35cbeea, 0x1366cd62, 0x5e901635, 0x7317e7dc, 0x5a53abfa, 0x80000000, 0x00000000, 0x00000000,
          0x00000000, 0x00000000, 0x00000000, 0x00000000, 0x00000000, 0x00000000, 0x00000000, 0x000002a0))
  const MAC3_1 := Stage(
    S.Digest(0xa912fd21, 0xc6846a28, 0xee75f0d8, 0xaa6c65d9, 0x44e85a84),
    Words(0x3b9951bf, 0xc0e2557c, 0x09877ede, 0x911d6cc7, 0x3563fd0d, 0x130efdbd, 0x223ad98f, 0x6ac7ff5a,
          0x512f5804, 0xc5b119e7, 0xc6810308, 0x80646987, 0xe1a5c9d5, 0xab1ff82b, 0x338fc36f, 0x9700c2a6))
  const MAC3_2 := Stage(
    S.Digest(0x75c564a6, 0x7aae87c0, 0x301ee669, 0xb2cbdc95, 0x9a029665),
    Words(0x905d1e9d, 0x4f83c667, 0xdaca84fa, 0x2455ccc1, 0x72fe5661, 0x1038fc6c, 0xc99f1c4a, 0x9510e4f4,
          0x2f9773fa, 0x8793549b, 0xd1fd55a6, 0x41725d2e, 0x4e8e1080, 0xfbb5268f, 0x567f392c, 0x063be16a))
  const MAC3_3 := Stage(
    S.Digest(0xd3ef210a, 0xbf8e8d0b, 0xa6fb7af9, 0x7da228dd, 0x666c0b80),
    Words(0x3d6b9e25, 0x7474ce23, 0xffe4ccae, 0x90e9e74c, 0x03372911, 0x02f3e573, 0x413d63a0, 0x2f1ef028,
          0x83e4ba15, 0xe751486d, 0x9f12f340, 0x53944df1, 0xf92e91a1, 0xc0dfa3ac, 0xf37b12b0, 0x48fe9d81))
  const MAC3_4 := Stage(
    S.Digest(0x5a1df24b, 0xe63f23a3, 0x3fc6cb93, 0xea052f3f, 0x8b664888),
    Words(0x03689665, 0xe16ee765, 0x567f16fc, 0x85cdb357, 0xb49478ea, 0x769b4017, 0x68def0a5, 0x684aba5c,
          0xd20b3e4e, 0x7aea24b8, 0xb0139c82, 0x891ac689, 0x8857be87, 0x9d53c570, 0x23af65f2, 0x931afc7e))
  const MAC3_5 := Stage(
    S.Digest(0xce04c45a, 0x7759b157, 0x7bc95206, 0xdbe1a3e4, 0x784516a9),
    Words(0x349ef74e, 0x7bcc2af0, 0x83c41dd5, 0x9da5850e, 0x5fa23870, 0x008c45dc, 0x09be5c2e, 0xbc30b5d5,
          0xac1420bc, 0x030529df, 0x0f61140a, 0x4bf14c96, 0xeebf95b5, 0x0348d1b0, 0xaafd0408, 0x74b3eddd))

  lemma Mac3First()
    ensures Follows(MAC3_0, 0, MAC3_1) && Follows(MAC3_1, 16, MAC3_2)
  {
  }

  lemma Mac3Then()
    ensures Follows(MAC3_2, 32, MAC3_3) && Follows(MAC3_3, 48, MAC3_4)
  {
  }

  lemma Mac3Last()
    ensures Follows(MAC3_4, 64, MAC3_5)
  {
  }

  lemma Mac3()
    ensures After(MAC3_0) == S.Digest(0x66c28227, 0xd03a2d55, 0x29262ff0, 0x16a1e6ef, 0x76557ece)
  {
    Mac3First();
    Mac3Then();
    Mac3Last();
    FiveFollow(MAC3_0, MAC3_1, MAC3_2, MAC3_3, MAC3_4, MAC3_5);
    assert S.Sum(MAC3_0.v, MAC3_5.v) == S.Digest(0x66c28227, 0xd03a2d55, 0x29262ff0, 0x16a1e6ef, 0x76557ece);
  }

  lemma Code3()
    ensures Otp.Code(SECRET, 3) == 969429
  {
    hide *;
    Text3();
    Mac3();
    Stages3();
    CodeFrom(3, 0x03, S.Digest(0xc35cbeea, 0x1366cd62, 0x5e901635, 0x7317e7dc, 0x5a53abfa),
             S.Digest(0x66c28227, 0xd03a2d55, 0x29262ff0, 0x16a1e6ef, 0x76557ece));
    Truncated3();
  }

  lemma Stages3()
    ensures S.Octet(3) == 0x03 && TEXT3_0 == Stage(INNER_DIGEST, TextWords(0x03))
    ensures MAC3_0 == Stage(OUTER_DIGEST,
                          MacWords(S.Digest(0xc35cbeea, 0x1366cd62, 0x5e901635, 0x7317e7dc, 0x5a53abfa)))
  {
  }

  lemma Truncated3()
    ensures Otp.Truncated(S.DigestBytes(S.Digest(0x66c28227, 0xd03a2d55, 0x29262ff0, 0x16a1e6ef, 0x76557ece))) == 969429
  {
  }

  const TEXT4_0 := Stage(
    S.Digest(0xcbc80c8c, 0xf599e2ac, 0xbdb8c832, 0xda95c1c3, 0xf8683025),
    Words(0x00000000, 0x00000004, 0x80000000, 0x00000000, 0x00000000, 0x00000000, 0x00000000, 0x00000000,
          0x00000000, 0x00000000, 0x00000000, 0x00000000, 0x00000000, 0x00000000, 0x00000000, 0x00000240))
  const TEXT4_1 := Stage(
    S.Digest(0xfd7912e9, 0x88d97622, 0xa9f128cc, 0xdaec82ef, 0x80c152e8),
    Words(0x00000001, 0x00000008, 0x00000481, 0x00000002, 0x00000010, 0x00000902, 0x00000004, 0x000004a0,
          0x00001206, 0x00000018, 0x00000042, 0x00002408, 0x00000010, 0x00001600, 0x0000481a, 0x00000df0))
  const TEXT4_2 := Stage(
    S.Digest(0xc972c8f9, 0x17c04e3f, 0x01d887c0, 0xc0935f4d, 0xe5eeee6c),
    Words(0x0000010c, 0x00009010, 0x00001246, 0x00005808, 0x00012028, 0x000013c8, 0x00000420, 0x000252c0,
          0x00000100, 0x00016040, 0x000481a8, 0x0000d600, 0x000010c4, 0x00091320, 0x0001366c, 0x0005bfc8))
  const TEXT4_3 := Stage(
    S.Digest(0xd1c2b4d5, 0xe4857eee, 0x75daa9e7, 0xee2a77b2, 0xc0fe4be9),
    Words(0x001202d4, 0x00013c68, 0x0000181c, 0x00253e28, 0x00001148, 0x00169468, 0x00481ac8, 0x000d3800,
          0x00002c28, 0x009121c0, 0x001362e0, 0x0059ae40, 0x01202c40, 0x0012b4c0, 0x00050060, 0x02532fc0))
  const TEXT4_4 := Stage(
    S.Digest(0xd4896ab1, 0xed5b7c8a, 0x95051971, 0xa50d0a27, 0x5de6d1d7),
    Words(0x00010440, 0x016047c0, 0x048088e8, 0x00d60080, 0x0010c000, 0x09132080, 0x01366c00, 0x05bfec00,
          0x1202d410, 0x013d4880, 0x00185490, 0x253f9c20, 0x00114940, 0x1695de20, 0x481be800, 0x0d3b9a80))
  const TEXT4_5 := Stage(
    S.Digest(0x8a4d51c1, 0x94333d7d, 0xf4d72a84, 0x101391e7, 0x69a0ff68),
    Words(0x002d0d30, 0x9121cf80, 0x13670df0, 0x59af6220, 0x202c5581, 0x12bc3ea0, 0x05006460, 0x532ad702,
          0x01176620, 0x6046fe81, 0x80898e44, 0xd6248c00, 0x10c01480, 0x1337e889, 0x36241aa1, 0xbfe12d05))

  lemma Text4First()
    ensures Follows(TEXT4_0, 0, TEXT4_1) && Follows(TEXT4_1, 16, TEXT4_2)
  {
  }

  lemma Text4Then()
    ensures Follows(TEXT4_2, 32, TEXT4_3) && Follows(TEXT4_3, 48, TEXT4_4)
  {
  }

  lemma Text4Last()
    ensures Follows(TEXT4_4, 64, TEXT4_5)
  {
  }

  lemma Text4()
    ensures After(TEXT4_0) == S.Digest(0x56155e4d, 0x89cd2029, 0xb28ff2b6, 0xeaa953aa, 0x62092f8d)
  {
    Text4First();
    Text4Then();
    Text4Last();
    FiveFollow(TEXT4_0, TEXT4_1, TEXT4_2, TEXT4_3, TEXT4_4, TEXT4_5);
    assert S.Sum(TEXT4_0.v, TEXT4_5.v) == S.Digest(0x56155e4d, 0x89cd2029, 0xb28ff2b6, 0xeaa953aa, 0x62092f8d);
  }

  const MAC4_0 := Stage(
    S.Digest(0x98bdbdcd, 0x58e07bfe, 0xad5cddea, 0x3ac0430b, 0xfe106825),
    Words(0x56155e4d, 0x89cd2029, 0xb28ff2b6, 0xeaa953aa, 0x62092f8d, 0x80000000, 0x00000000, 0x00000000,
          0x00000000, 0x00000000, 0x00000000, 0x00000000, 0x00000000, 0x00000000, 0x00000000, 0x000002a0))
  const MAC4_1 := Stage(
    S.Digest(0x60557253, 0x2109edbe, 0xaa3b6b1f, 0x87b6dfd8, 0xcaeb79eb),
    Words(0xc93559f7, 0xc6c8e706, 0xa10dbf37, 0x473814bb, 0x49839117, 0x421b7e6e, 0x8e702976, 0x9307276e,
          0x165c4f33, 0x91719ce0, 0x641530b2, 0xa2c8b710, 0xb1e41bef, 0x4c1c98f8, 0xcb1b8f23, 0xc857b24f))
  const MAC4_2 := Stage(
    S.Digest(0xc4b82404, 0x20f28c35, 0xd8e1dcae, 0x5330ab67, 0x3ef3cfee),
    Words(0x64f06216, 0xb735c0fd, 0x899959ba, 0x86377fa7, 0x8244c6e7, 0x29333084, 0xaa012d83, 0x90cb9e4c,
          0x7f145a26, 0x5d1b8d1c, 0x9947d957, 0x2fee14d2, 0x4b41be6f, 0x687f86c8, 0x5409a8c8, 0x49d0a523))
  const MAC4_3 := Stage(
    S.Digest(0xa8d8f7be, 0xa8f40c78, 0x12b91c99, 0x1b641916, 0x7e9eba4f),
    Words(0xf405ce85, 0x7021351c, 0xb695c653, 0xe9df2ae8, 0x264ac02e, 0xce25dca6, 0xd187eb0a, 0x4494ecbb,
          0xb8e722a5, 0xa6a68fb1, 0x400e9ba0, 0x2d5334ae, 0x3f48b271, 0x5f08c9db, 0xb9b173d2, 0x845b9dea))
  const MAC4_4 := Stage(
    S.Digest(0x4d95491c, 0x9e24866a, 0x2d954b91, 0xec5ad168, 0x153e6c52),
    Words(0x4affc751, 0x0dd3c72f, 0xa914006e, 0x80ac0b62, 0x8aacbcf5, 0xf95bf350, 0xa0fb623e, 0xd98a842b,
          0x969b1a08, 0x4dba3c1c, 0x1fb15b28, 0xc8d9d83e, 0x83de8294, 0x7b73f892, 0x36d81d07, 0xa7b8b8f5))
  const MAC4_5 := Stage(
    S.Digest(0x10470b33, 0x4d6ab992, 0xeb17d554, 0x2705507f, 0x900584f7),
    Words(0x1c064b4a, 0xec3bdaad, 0x3762be8d, 0x5a50d68d, 0x8b650de4, 0xd98062c8, 0xb5d16778, 0x71da1a4d,
          0x9958d144, 0xb912b3ef, 0xb5aefaf9, 0xe1444eca, 0x0ee24331, 0x61cbb0ad, 0xfc96fffe, 0x69767648))

  lemma Mac4First()
    ensures Follows(MAC4_0, 0, MAC4_1) && Follows(MAC4_1, 16, MAC4_2)
  {
  }

  lemma Mac4Then()
    ensures Follows(MAC4_2, 32, MAC4_3) && Follows(MAC4_3, 48, MAC4_4)
  {
  }

  lemma Mac4Last()
    ensures Follows(MAC4_4, 64, MAC4_5)
  {
  }

  lemma Mac4()
    ensures After(MAC4_0) == S.Digest(0xa904c900, 0xa64b3590, 0x9874b33e, 0x61c5938a, 0x8e15ed1c)
  {
    Mac4First();
    Mac4Then();
    Mac4Last();
    FiveFollow(MAC4_0, MAC4_1, MAC4_2, MAC4_3, MAC4_4, MAC4_5);
    assert S.Sum(MAC4_0.v, MAC4_5.v) == S.Digest(0xa904c900, 0xa64b3590, 0x9874b33e, 0x61c5938a, 0x8e15ed1c);
  }

  lemma Code4()
    ensures Otp.Code(SECRET, 4) == 338314
  {
    hide *;
    Text4();
    Mac4();
    Stages4();
    CodeFrom(4, 0x04, S.Digest(0x56155e4d, 0x89cd2029, 0xb28ff2b6, 0xeaa953aa, 0x62092f8d),
             S.Digest(0xa904c900, 0xa64b3590, 0x9874b33e, 0x61c5938a, 0x8e15ed1c));
    Truncated4();
  }

  lemma Stages4()
    ensures S.Octet(4) == 0x04 && TEXT4_0 == Stage(INNER_DIGEST, TextWords(0x04))
    ensures MAC4_0 == Stage(OUTER_DIGEST,
                          MacWords(S.Digest(0x56155e4d, 0x89cd2029, 0xb28ff2b6, 0xeaa953aa, 0x62092f8d)))
  {
  }

  lemma Truncated4()
    ensures Otp.Truncated(S.DigestBytes(S.Digest(0xa904c900, 0xa64b3590, 0x9874b33e, 0x61c5938a, 0x8e15ed1c))) == 338314
  {
  }

  const TEXT5_0 := Stage(
    S.Digest(0xcbc80c8c, 0xf599e2ac, 0xbdb8c832, 0xda95c1c3, 0xf8683025),
    Words(0x00000000, 0x00000005, 0x80000000, 0x00000000, 0x00000000, 0x00000000, 0x00000000, 0x00000000,
          0x00000000, 0x00000000, 0x00000000, 0x00000000, 0x00000000, 0x00000000, 0x00000000, 0x00000240))
  const TEXT5_1 := Stage(
    S.Digest(0x33145606, 0x8a8d9095, 0xc49a066d, 0x39e97c49, 0xbc730eb2),
    Words(0x00000001, 0x0000000a, 0x00000481, 0x00000002, 0x00000014, 0x00000902, 0x00000004, 0x000004a8,
          0x00001206, 0x0000001c, 0x00000052, 0x00002408, 0x00000010, 0x00001620, 0x0000481a, 0x00000de4))
  const TEXT5_2 := Stage(
    S.Digest(0x6e012f69, 0x4d7990de, 0xafbb1588, 0xa59f10eb, 0xa8f16344),
    Words(0x0000014c, 0x0000901c, 0x00001246, 0x00005888, 0x00012038, 0x00001398, 0x00000520, 0x000252d0,
          0x00000100, 0x00016250, 0x000481a8, 0x0000d740, 0x000014c4, 0x000913e8, 0x0001366c, 0x0005b7d8))
  const TEXT5_3 := Stage(
    S.Digest(0xed8b4306, 0x38f3e4f2, 0x06178555, 0x0e1d32a1, 0x61b5afe5),
    Words(0x001203c4, 0x00013950, 0x0000081c, 0x00253f28, 0x00001118, 0x0016b578, 0x00481ac8, 0x000d2c80,
          0x00006c28, 0x00912d10, 0x001363e0, 0x00592f50, 0x01203d40, 0x0012e550, 0x00040060, 0x02533e90))
  const TEXT5_4 := Stage(
    S.Digest(0x1d699fec, 0xda935c0b, 0x1c10d07d, 0xa10565bd, 0x9461b7a4),
    Words(0x00010540, 0x01625610, 0x048088e8, 0x00d74080, 0x0014c100, 0x0913e880, 0x01366c00, 0x05b7fc00,
          0x1203c410, 0x013870a0, 0x00085490, 0x253e9d20, 0x00111900, 0x16b4cfa0, 0x481be800, 0x0d2f1b00))
  const TEXT5_5 := Stage(
    S.Digest(0xd42bafe9, 0x30d63ba8, 0x4585760e, 0x79f8e40b, 0xa08bf823),
    Words(0x006d0c30, 0x912d1c60, 0x13660cf0, 0x592e7220, 0x203d50c1, 0x12edafa0, 0x04006460, 0x533b8ec2,
          0x01166620, 0x62572b01, 0x80899f44, 0xd7648d00, 0x14c11580, 0x13ffc889, 0x36241aa1, 0xb7f13845))

  lemma Text5First()
    ensures Follows(TEXT5_0, 0, TEXT5_1) && Follows(TEXT5_1, 16, TEXT5_2)
  {
  }

  lemma Text5Then()
    ensures Follows(TEXT5_2, 32, TEXT5_3) && Follows(TEXT5_3, 48, TEXT5_4)
  {
  }

  lemma Text5Last()
    ensures Follows(TEXT5_4, 64, TEXT5_5)
  {
  }

  lemma Text5()
    ensures After(TEXT5_0) == S.Digest(0x9ff3bc75, 0x26701e54, 0x033e3e40, 0x548ea5ce, 0x98f42848)
  {
    Text5First();
    Text5Then();
    Text5Last();
    FiveFollow(TEXT5_0, TEXT5_1, TEXT5_2, TEXT5_3, TEXT5_4, TEXT5_5);
    assert S.Sum(TEXT5_0.v, TEXT5_5.v) == S.Digest(0x9ff3bc75, 0x26701e54, 0x033e3e40, 0x548ea5ce, 0x98f42848);
  }

  const MAC5_0 := Stage(
    S.Digest(0x98bdbdcd, 0x58e07bfe, 0xad5cddea, 0x3ac0430b, 0xfe106825),
    Words(0x9ff3bc75, 0x26701e54, 0x033e3e40, 0x548ea5ce, 0x98f42848, 0x80000000, 0x00000000, 0x00000000,
          0x00000000, 0x00000000, 0x00000000, 0x00000000, 0x00000000, 0x00000000, 0x00000000, 0x000002a0))
  const MAC5_1 := Stage(
    S.Digest(0x20905907, 0xc339875c, 0xed3988f9, 0xcd0d5552, 0xfeffa6b4),
    Words(0x399b046b, 0xe5fd7734, 0x37942951, 0xda2b434b, 0xfa12bef8, 0x6f2852a3, 0xb4568697, 0xf42578b1,
          0xad66ad90, 0xa357e346, 0x8762a3c1, 0xee9bddb6, 0xb28abb7c, 0xd095e785, 0xc6acbe94, 0x46a56cb3))
  const MAC5_2 := Stage(
    S.Digest(0xfab4b138, 0xda29594f, 0x8060a14f, 0x004df9bf, 0x76d55412),
    Words(0xe7f8ce5e, 0xb45ad35a, 0x1882b1b6, 0x78c00401, 0x9128a092, 0xa634f842, 0x4eb92325, 0x01feafad,
          0xd790709a, 0x6e5f9d1f, 0x59280d4c, 0x22bc9d51, 0x16a270cb, 0xd258fc70, 0x9aa39d7c, 0xcb46c11f))
  const MAC5_3 := Stage(
    S.Digest(0xaab8f68d, 0x3db38403, 0xb1b58a57, 0xc0c0b1a2, 0xe4e36da6),
    Words(0xf565e605, 0x70cdae70, 0x3789baee, 0x125b0e2e, 0x73fcba19, 0x843622e2, 0x23a381da, 0xae369369,
          0xffd77263, 0x3f1a5fc8, 0xac6aa801, 0x3ad03ad8, 0x81ce10cd, 0x62856f18, 0xed6b80f6, 0x28e7d997))
  const MAC5_4 := Stage(
    S.Digest(0x93168536, 0x4f986387, 0xe871516e, 0x11d907a9, 0x737de036),
    Words(0xbf7c8320, 0x61cefec1, 0x81f0e2c3, 0x27832a68, 0x60bfab9f, 0x92ea78a1, 0x2d38b24e, 0xb2e97d53,
          0xfc5643c6, 0x9278533e, 0x3d7a4eb8, 0x070078dd, 0x3cc4d135, 0xcbe5012d, 0xf05f928a, 0x8e091661))
  const MAC5_5 := Stage(
    S.Digest(0x0ac0ba70, 0x2291b7c2, 0xd678183f, 0xec075f54, 0x257c9af1),
    Words(0x127e4610, 0x48d42a3a, 0xa478230a, 0x402ed809, 0x732fc5bc, 0x9f3c4faa, 0xc23f7616, 0xbb6ffb61,
          0x98dc0988, 0x3f26ef9e, 0x3d528fcc, 0x282f50e2, 0x0124d33b, 0xcf05ae55, 0x1063e4dc, 0xf92c2802))

  lemma Mac5First()
    ensures Follows(MAC5_0, 0, MAC5_1) && Follows(MAC5_1, 16, MAC5_2)
  {
  }

  lemma Mac5Then()
    ensures Follows(MAC5_2, 32, MAC5_3) && Follows(MAC5_3, 48, MAC5_4)
  {
  }

  lemma Mac5Last()
    ensures Follows(MAC5_4, 64, MAC5_5)
  {
  }

  lemma Mac5()
    ensures After(MAC5_0) == S.Digest(0xa37e783d, 0x7b7233c0, 0x83d4f629, 0x26c7a25f, 0x238d0316)
  {
    Mac5First();
    Mac5Then();
    Mac5Last();
    FiveFollow(MAC5_0, MAC5_1, MAC5_2, MAC5_3, MAC5_4, MAC5_5);
    assert S.Sum(MAC5_0.v, MAC5_5.v) == S.Digest(0xa37e783d, 0x7b7233c0, 0x83d4f629, 0x26c7a25f, 0x238d0316);
  }

  lemma Code5()
    ensures Otp.Code(SECRET, 5) == 254676
  {
    hide *;
    Text5();
    Mac5();
    Stages5();
    CodeFrom(5, 0x05, S.Digest(0x9ff3bc75, 0x26701e54, 0x033e3e40, 0x548ea5ce, 0x98f42848),
             S.Digest(0xa37e783d, 0x7b7233c0, 0x83d4f629, 0x26c7a25f, 0x238d0316));
    Truncated5();
  }

  lemma Stages5()
    ensures S.Octet(5) == 0x05 && TEXT5_0 == Stage(INNER_DIGEST, TextWords(0x05))
    ensures MAC5_0 == Stage(OUTER_DIGEST,
                          MacWords(S.Digest(0x9ff3bc75, 0x26701e54, 0x033e3e40, 0x548ea5ce, 0x98f42848)))
  {
  }

  lemma Truncated5()
    ensures Otp.Truncated(S.DigestBytes(S.Digest(0xa37e783d, 0x7b7233c0, 0x83d4f629, 0x26c7a25f, 0x238d0316))) == 254676
  {
  }

  const TEXT6_0 := Stage(
    S.Digest(0xcbc80c8c, 0xf599e2ac, 0xbdb8c832, 0xda95c1c3, 0xf8683025),
    Words(0x00000000, 0x00000006, 0x80000000, 0x00000000, 0x00000000, 0x00000000, 0x00000000, 0x00000000,
          0x00000000, 0x00000000, 0x00000000, 0x00000000, 0x00000000, 0x00000000, 0x00000000, 0x00000240))
  const TEXT6_1 := Stage(
    S.Digest(0x137ed8ec, 0x22073e49, 0x43c7ef17, 0xb02691f7, 0xb0010636),
    Words(0x00000001, 0x0000000c, 0x00000481, 0x00000002, 0x00000018, 0x00000902, 0x00000004, 0x000004b0,
          0x00001206, 0x00000010, 0x00000062, 0x00002408, 0x00000010, 0x00001640, 0x0000481a, 0x00000dd8))
  const TEXT6_2 := Stage(
    S.Digest(0xb16b240e, 0xa8745609, 0xe69f8650, 0x47f745ec, 0xaf169ea1),
    Words(0x0000018c, 0x00009008, 0x00001246, 0x00005908, 0x00012008, 0x00001368, 0x00000620, 0x000252e0,
          0x00000100, 0x00016460, 0x000481a8, 0x0000d480, 0x000018c4, 0x000912b0, 0x0001366c, 0x0005afe8))
  const TEXT6_3 := Stage(
    S.Digest(0x83a882ca, 0x49a3acf4, 0x41ce8836, 0x7562b2e6, 0x5ccb2953),
    Words(0x001200f4, 0x00013618, 0x0000381c, 0x00253c28, 0x000011e8, 0x0016d648, 0x00481ac8, 0x000d1100,
          0x0000ac28, 0x00913860, 0x001360e0, 0x0058ac60, 0x01200e40, 0x001217e0, 0x00070060, 0x02530d60))
  const TEXT6_4 := Stage(
    S.Digest(0x0b0d1002, 0xb021ae23, 0x2b83de9d, 0x46564816, 0x1d603d5c),
    Words(0x00010640, 0x01646460, 0x048088e8, 0x00d48080, 0x0018c200, 0x0912b080, 0x01366c00, 0x05afcc00,
          0x1200f410, 0x013738c0, 0x00385490, 0x253d9e20, 0x0011e9c0, 0x16d7fd20, 0x481be800, 0x0d129980))
  const TEXT6_5 := Stage(
    S.Digest(0x57eb4c1d, 0x84f3a4ce, 0xda2e585b, 0x51dd45bb, 0xe7efc053),
    Words(0x00ad0f30, 0x91386840, 0x13650ff0, 0x58ad4220, 0x200e5f01, 0x121f1ca0, 0x07006460, 0x53086482,
          0x01156620, 0x64655581, 0x8089ac44, 0xd4a48e00, 0x18c21680, 0x12a7a889, 0x36241aa1, 0xafc10785))

  lemma Text6First()
    ensures Follows(TEXT6_0, 0, TEXT6_1) && Follows(TEXT6_1, 16, TEXT6_2)
  {
  }

  lemma Text6Then()
    ensures Follows(TEXT6_2, 32, TEXT6_3) && Follows(TEXT6_3, 48, TEXT6_4)
  {
  }

  lemma Text6Last()
    ensures Follows(TEXT6_4, 64, TEXT6_5)
  {
  }

  lemma Text6()
    ensures After(TEXT6_0) == S.Digest(0x23b358a9, 0x7a8d877a, 0x97e7208d, 0x2c73077e, 0xe057f078)
  {
    Text6First();
    Text6Then();
    Text6Last();
    FiveFollow(TEXT6_0, TEXT6_1, TEXT6_2, TEXT6_3, TEXT6_4, TEXT6_5);
    assert S.Sum(TEXT6_0.v, TEXT6_5.v) == S.Digest(0x23b358a9, 0x7a8d877a, 0x97e7208d, 0x2c73077e, 0xe057f078);
  }

  const MAC6_0 := Stage(
    S.Digest(0x98bdbdcd, 0x58e07bfe, 0xad5cddea, 0x3ac0430b, 0xfe106825),
    Words(0x23b358a9, 0x7a8d877a, 0x97e7208d, 0x2c73077e, 0xe057f078, 0x80000000, 0x00000000, 0x00000000,
          0x00000000, 0x00000000, 0x00000000, 0x00000000, 0x00000000, 0x00000000, 0x00000000, 0x000002a0))
  const MAC6_1 := Stage(
    S.Digest(0x86a816e8, 0x2d7fc4d7, 0x09d9e044, 0x699f5285, 0x3ba1dda9),
    Words(0x68a8f049, 0xadfd0008, 0xef61a4aa, 0x89b7ee6f, 0x9b55e0e0, 0xdec34954, 0x136fdcdf, 0x36abc481,
          0x6cd7723b, 0x7d25b9af, 0xb394c057, 0xcac138a9, 0xcce0b29f, 0xdaaf1746, 0x620c287f, 0xaf6ce96c))
  const MAC6_2 := Stage(
    S.Digest(0xca8a9087, 0x0a22cccf, 0xa96b0bca, 0x3e9bef51, 0xfaae2eba),
    Words(0x6362633c, 0x76c6ff6e, 0xd198dae2, 0xfdaff95d, 0x6438e39c, 0xc6be80e3, 0xc036ff8d, 0x01b4efbd,
          0xf53ea366, 0x022903ca, 0x5eb08f2f, 0x31feeba8, 0x91faf56d, 0xdb9be3cd, 0xe14cbecd, 0x93c819a4))
  const MAC6_3 := Stage(
    S.Digest(0x326de17b, 0xdeae8ea8, 0xab10cb95, 0x0735032f, 0xa58a8d39),
    Words(0x38bff2eb, 0xd0197668, 0xf1b15fea, 0x64a0c1fa, 0xcbdb3e29, 0xda41a6f3, 0x61c847b9, 0xb71d97f4,
          0x92e0f0a2, 0x040db367, 0x13cd64b9, 0x384a727a, 0x7ec18ddd, 0x03be7047, 0x00e2f3cb, 0x141aebcb))
  const MAC6_4 := Stage(
    S.Digest(0x33b31dae, 0x4dff8f37, 0x17cd4f6f, 0x5046ea50, 0x41276fa7),
    Words(0xb0a05bc8, 0x60adee7d, 0x7b7bdd62, 0x6c169d76, 0x68fe3461, 0x2b333844, 0x3fb9b34d, 0x9fe9f673,
          0x357def2e, 0xc6a7385a, 0x133d84eb, 0xc53ee0ca, 0xa0f4e45b, 0x5f544e46, 0x958bf708, 0x97542f3c))
  const MAC6_5 := Stage(
    S.Digest(0x23df14b8, 0x0823b085, 0x44bc5463, 0x01a02f4b, 0xc2220a89),
    Words(0x43e44f85, 0xbf2f78b2, 0x2fd885a9, 0x83fe14fb, 0x9138378a, 0x88ac0bb1, 0x39637f20, 0xbe45ad3e,
          0xda105fe3, 0x0babbe05, 0x44a8904e, 0x8709cb29, 0x5fd935b9, 0x0809f50a, 0xd00a1908, 0x93cf9e13))

  lemma Mac6First()
    ensures Follows(MAC6_0, 0, MAC6_1) && Follows(MAC6_1, 16, MAC6_2)
  {
  }

  lemma Mac6Then()
    ensures Follows(MAC6_2, 32, MAC6_3) && Follows(MAC6_3, 48, MAC6_4)
  {
  }

  lemma Mac6Last()
    ensures Follows(MAC6_4, 64, MAC6_5)
  {
  }

  lemma Mac6()
    ensures After(MAC6_0) == S.Digest(0xbc9cd285, 0x61042c83, 0xf219324d, 0x3c607256, 0xc03272ae)
  {
    Mac6First();
    Mac6Then();
    Mac6Last();
    FiveFollow(MAC6_0, MAC6_1, MAC6_2, MAC6_3, MAC6_4, MAC6_5);
    assert S.Sum(MAC6_0.v, MAC6_5.v) == S.Digest(0xbc9cd285, 0x61042c83, 0xf219324d, 0x3c607256, 0xc03272ae);
  }

  lemma Code6()
    ensures Otp.Code(SECRET, 6) == 287922
  {
    hide *;
    Text6();
    Mac6();
    Stages6();
    CodeFrom(6, 0x06, S.Digest(0x23b358a9, 0x7a8d877a, 0x97e7208d, 0x2c73077e, 0xe057f078),
             S.Digest(0xbc9cd285, 0x61042c83, 0xf219324d, 0x3c607256, 0xc03272ae));
    Truncated6();
  }

  lemma Stages6()
    ensures S.Octet(6) == 0x06 && TEXT6_0 == Stage(INNER_DIGEST, TextWords(0x06))
    ensures MAC6_0 == Stage(OUTER_DIGEST,
                          MacWords(S.Digest(0x23b358a9, 0x7a8d877a, 0x97e7208d, 0x2c73077e, 0xe057f078)))
  {
  }

  lemma Truncated6()
    ensures Otp.Truncated(S.DigestBytes(S.Digest(0xbc9cd285, 0x61042c83, 0xf219324d, 0x3c607256, 0xc03272ae))) == 287922
  {
  }

  const TEXT7_0 := Stage(
    S.Digest(0xcbc80c8c, 0xf599e2ac, 0xbdb8c832, 0xda95c1c3, 0xf8683025),
    Words(0x00000000, 0x00000007, 0x80000000, 0x00000000, 0x00000000, 0x00000000, 0x00000000, 0x00000000,
          0x00000000, 0x00000000, 0x00000000, 0x00000000, 0x00000000, 0x00000000, 0x00000000, 0x00000240))
  const TEXT7_1 := Stage(
    S.Digest(0x2925919a, 0xcf8eba2b, 0x8a179d6e, 0x562eebb1, 0x0b3ed9fe),
    Words(0x00000001, 0x0000000e, 0x00000481, 0x00000002, 0x0000001c, 0x00000902, 0x00000004, 0x000004b8,
          0x00001206, 0x00000014, 0x00000072, 0x00002408, 0x00000010, 0x00001660, 0x0000481a, 0x00000dcc))
  const TEXT7_2 := Stage(
    S.Digest(0xc306dc64, 0xa2ff9f3b, 0xc3d51984, 0x035b17d0, 0xa6c0166b),
    Words(0x000001cc, 0x00009004, 0x00001246, 0x00005988, 0x00012018, 0x00001338, 0x00000720, 0x000252f0,
          0x00000100, 0x00016670, 0x000481a8, 0x0000d5c0, 0x00001cc4, 0x00091278, 0x0001366c, 0x0005a7f8))
  const TEXT7_3 := Stage(
    S.Digest(0x107c25d3, 0xb91e1ba2, 0x236aeeb8, 0x58a4aa95, 0xc5420b9e),
    Words(0x001201e4, 0x00013320, 0x0000281c, 0x00253d28, 0x000011b8, 0x0016f758, 0x00481ac8, 0x000d0580,
          0x0000ec28, 0x009134b0, 0x001361e0, 0x00582d70, 0x01201f40, 0x00124670, 0x00060060, 0x02531c30))
  const TEXT7_4 := Stage(
    S.Digest(0xee4f2a6a, 0x48f5f3db, 0x735fd573, 0xcc2d0d48, 0x8f576789),
    Words(0x00010740, 0x016675b0, 0x048088e8, 0x00d5c080, 0x001cc300, 0x09127880, 0x01366c00, 0x05a7dc00,
          0x1201e410, 0x013200e0, 0x00285490, 0x253c9f20, 0x0011b980, 0x16f6eca0, 0x481be800, 0x0d061800))
  const TEXT7_5 := Stage(
    S.Digest(0x32200a72, 0xdb256d78, 0x409acfd0, 0x48ffaa0e, 0x74c26542),
    Words(0x00ed0e30, 0x9134bba0, 0x13640ef0, 0x582c5220, 0x201f5a41, 0x124e8da0, 0x06006460, 0x53193d42,
          0x01146620, 0x66748001, 0x8089bd44, 0xd5e48f00, 0x1cc31780, 0x126f8889, 0x36241aa1, 0xa7d112c5))

  lemma Text7First()
    ensures Follows(TEXT7_0, 0, TEXT7_1) && Follows(TEXT7_1, 16, TEXT7_2)
  {
  }

  lemma Text7Then()
    ensures Follows(TEXT7_2, 32, TEXT7_3) && Follows(TEXT7_3, 48, TEXT7_4)
  {
  }

  lemma Text7Last()
    ensures Follows(TEXT7_4, 64, TEXT7_5)
  {
  }

  lemma Text7()
    ensures After(TEXT7_0) == S.Digest(0xfde816fe, 0xd0bf5024, 0xfe539802, 0x23956bd1, 0x6d2a9567)
  {
    Text7First();
    Text7Then();
    Text7Last();
    FiveFollow(TEXT7_0, TEXT7_1, TEXT7_2, TEXT7_3, TEXT7_4, TEXT7_5);
    assert S.Sum(TEXT7_0.v, TEXT7_5.v) == S.Digest(0xfde816fe, 0xd0bf5024, 0xfe539802, 0x23956bd1, 0x6d2a9567);
  }

  const MAC7_0 := Stage(
    S.Digest(0x98bdbdcd, 0x58e07bfe, 0xad5cddea, 0x3ac0430b, 0xfe106825),
    Words(0xfde816fe, 0xd0bf5024, 0xfe539802, 0x23956bd1, 0x6d2a9567, 0x80000000, 0x00000000, 0x00000000,
          0x00000000, 0x00000000, 0x00000000, 0x00000000, 0x00000000, 0x00000000, 0x00000000, 0x000002a0))
  const MAC7_1 := Stage(
    S.Digest(0xc90d65e8, 0xef22a98d, 0x7bc7e9b1, 0x8f75a294, 0x64c05e57),
    Words(0x07771df8, 0xe65477eb, 0x26f21f8b, 0x49c4ec53, 0x16fdc519, 0x4de43f17, 0x9389d8a6, 0x2dfb8f72,
          0x952645de, 0xebbb5e9a, 0x161321f2, 0xb9c5531b, 0xfa8d3707, 0xb7ee388a, 0x5a772c8a, 0x62459a7c))
  const MAC7_2 := Stage(
    S.Digest(0x100566d3, 0x4fd1849e, 0x45b2cc1d, 0xf4a646dc, 0xe3cc654e),
    Words(0x069afe4e, 0x3cb9d350, 0x88b2c238, 0x76fefc23, 0x8681f3d0, 0xbe8695ae, 0x544c9ba2, 0x45097088,
          0x76521f98, 0x75168ae6, 0x424b488a, 0x1d0f1054, 0xa6dac576, 0x52ccffa4, 0x2b5cb264, 0x7a5ff9a5))
  const MAC7_3 := Stage(
    S.Digest(0x3b9c7ffb, 0xe5f938b5, 0x15bde7ea, 0x71933b69, 0xae19aa39),
    Words(0x556db895, 0x281a2fe2, 0x6c4f018e, 0x00358299, 0xb81b05cc, 0x8a183619, 0x12ef698e, 0xe4b60c0f,
          0xd6d9b33d, 0xa5d9b9bc, 0xd8d100fa, 0x325fbca9, 0x208996c5, 0xf4b461c4, 0xbd03bfac, 0x2cf4991b))
  const MAC7_4 := Stage(
    S.Digest(0xfac7c248, 0x5e753b41, 0xaaf99dd1, 0x44523e78, 0x2b88c847),
    Words(0x369ed7c4, 0x61eb56d6, 0x40e33b46, 0x1dd9bfdb, 0xd72d58a3, 0xb5f2c129, 0xc9d9b588, 0x756ce817,
          0x1ac94a55, 0x7f69cc96, 0x9bae8add, 0x83f651c7, 0x6b9d7ab8, 0xec396657, 0x8365184f, 0xa7dcbac4))
  const MAC7_5 := Stage(
    S.Digest(0x0c3dd83f, 0xb2dff220, 0xfe5b26fb, 0x78d78ab9, 0xb6452ed5),
    Words(0x011b8101, 0x007c7ba9, 0x5778a7f9, 0x558d5c68, 0xea2bd874, 0xf7bfd120, 0x0bf177f4, 0x8fe48c62,
          0xef872152, 0xee252219, 0x515fb7fc, 0xab8a9555, 0xd9ed3135, 0xda0b749f, 0x440af7de, 0xe352f875))

  lemma Mac7First()
    ensures Follows(MAC7_0, 0, MAC7_1) && Follows(MAC7_1, 16, MAC7_2)
  {
  }

  lemma Mac7Then()
    ensures Follows(MAC7_2, 32, MAC7_3) && Follows(MAC7_3, 48, MAC7_4)
  {
  }

  lemma Mac7Last()
    ensures Follows(MAC7_4, 64, MAC7_5)
  {
  }

  lemma Mac7()
    ensures After(MAC7_0) == S.Digest(0xa4fb960c, 0x0bc06e1e, 0xabb804e5, 0xb397cdc4, 0xb45596fa)
  {
    Mac7First();
    Mac7Then();
    Mac7Last();
    FiveFollow(MAC7_0, MAC7_1, MAC7_2, MAC7_3, MAC7_4, MAC7_5);
    assert S.Sum(MAC7_0.v, MAC7_5.v) == S.Digest(0xa4fb960c, 0x0bc06e1e, 0xabb804e5, 0xb397cdc4, 0xb45596fa);
  }

  lemma Code7()
    ensures Otp.Code(SECRET, 7) == 162583
  {
    hide *;
    Text7();
    Mac7();
    Stages7();
    CodeFrom(7, 0x07, S.Digest(0xfde816fe, 0xd0bf5024, 0xfe539802, 0x23956bd1, 0x6d2a9567),
             S.Digest(0xa4fb960c, 0x0bc06e1e, 0xabb804e5, 0xb397cdc4, 0xb45596fa));
    Truncated7();
  }

  lemma Stages7()
    ensures S.Octet(7) == 0x07 && TEXT7_0 == Stage(INNER_DIGEST, TextWords(0x07))
    ensures MAC7_0 == Stage(OUTER_DIGEST,
                          MacWords(S.Digest(0xfde816fe, 0xd0bf5024, 0xfe539802, 0x23956bd1, 0x6d2a9567)))
  {
  }

  lemma Truncated7()
    ensures Otp.Truncated(S.DigestBytes(S.Digest(0xa4fb960c, 0x0bc06e1e, 0xabb804e5, 0xb397cdc4, 0xb45596fa))) == 162583
  {
  }

  /** The codes of appendix D for the counts 1 to 7. */
  lemma AppendixD()
    ensures Otp.Code(SECRET, 1) == 287082 && Otp.Code(SECRET, 2) == 359152 && Otp.Code(SECRET, 3) == 969429
         && Otp.Code(SECRET, 4) == 338314 && Otp.Code(SECRET, 5) == 254676 && Otp.Code(SECRET, 6) == 287922
         && Otp.Code(SECRET, 7) == 162583
  {
    hide *;
    Code1();
    Code2();
    Code3();
    Code4();
    Code5();
    Code6();
    Code7();
  }
}
