/** SHA-1: the hash of a whole message as FIPS 180-4 defines it (sections 5.1.1, 5.3.1 and 6.1.2),
    and the block transform and the streaming context that compute it. */
module Sha1 {
  import opened CText

  type Byte = bv8
  type Word = bv32

  const BLOCK := 64

  /** Five chaining words, or the working variables a to e. */
  datatype Digest = Digest(a: Word, b: Word, c: Word, d: Word, e: Word)

  // ---- FIPS 180-4 -----------------------------------------------------------------------------

  function Rot1(x: Word): Word { (x << 1) | (x >> 31) }
  function Rot5(x: Word): Word { (x << 5) | (x >> 27) }
  function Rot30(x: Word): Word { (x << 30) | (x >> 2) }

  /** The function of round t (section 4.1.1). */
  function Ft(t: nat, x: Word, y: Word, z: Word): Word
  {
    if t < 20 then (x & y) ^ (!x & z)
    else if t < 40 then x ^ y ^ z
    else if t < 60 then (x & y) ^ (x & z) ^ (y & z)
    else x ^ y ^ z
  }

  /** The constant of round t (section 4.2.1). */
  function Kt(t: nat): Word
  {
    if t < 20 then 0x5a827999 else if t < 40 then 0x6ed9eba1 else if t < 60 then 0x8f1bbcdc else 0xca62c1d6
  }

  /** Four bytes, most significant first. */
  function BigEndian(b0: Byte, b1: Byte, b2: Byte, b3: Byte): Word
  {
    ((b0 as Word) << 24) | ((b1 as Word) << 16) | ((b2 as Word) << 8) | (b3 as Word)
  }

  /** Word t of the message schedule. */
  function Schedule(block: seq<Byte>, t: nat): Word
    requires |block| == BLOCK
  {
    if t < 16 then BigEndian(block[4 * t], block[4 * t + 1], block[4 * t + 2], block[4 * t + 3])
    else Extend(Schedule(block, t - 3), Schedule(block, t - 8), Schedule(block, t - 14), Schedule(block, t - 16))
  }

  function Extend(w3: Word, w8: Word, w14: Word, w16: Word): Word { Rot1(w3 ^ w8 ^ w14 ^ w16) }

  /** The sum that makes the new value of a. */
  function Mix(rotated: Word, f: Word, e: Word, w: Word, k: Word): Word { rotated + f + e + w + k }

  function Round(v: Digest, t: nat, w: Word): Digest
  {
    Digest(Mix(Rot5(v.a), Ft(t, v.b, v.c, v.d), v.e, w, Kt(t)), v.a, Rot30(v.b), v.c, v.d)
  }

  function Rounds(v: Digest, block: seq<Byte>, t: nat): Digest
    requires |block| == BLOCK
  {
    if t == 0 then v else Round(Rounds(v, block, t - 1), t - 1, Schedule(block, t - 1))
  }

  function Sum(h: Digest, v: Digest): Digest
  {
    Digest(h.a + v.a, h.b + v.b, h.c + v.c, h.d + v.d, h.e + v.e)
  }

  function Compress(h: Digest, block: seq<Byte>): Digest
    requires |block| == BLOCK
  {
    Sum(h, Rounds(h, block, 80))
  }

  const INITIAL := Digest(0x67452301, 0xefcdab89, 0x98badcfe, 0x10325476, 0xc3d2e1f0)

  /** The full blocks of a text, one after the other. */
  function Blocks(h: Digest, text: seq<Byte>): Digest
    decreases |text|
  {
    if |text| < BLOCK then h else Blocks(Compress(h, text[..BLOCK]), text[BLOCK..])
  }

  function Zeros(n: nat): (r: seq<Byte>)
    ensures |r| == n
  {
    seq(n, i => 0)
  }

  /** The low byte of a number. */
  function Octet(n: nat): Byte { (n % 0x100) as Byte }

  /** Byte k of a number, counted from the least significant one. */
  function ByteOf(n: nat, k: nat): Byte
    requires k < 8
  {
    Octet(match k
          case 0 => n
          case 1 => n / 0x100
          case 2 => n / 0x1_0000
          case 3 => n / 0x100_0000
          case 4 => n / 0x1_0000_0000
          case 5 => n / 0x100_0000_0000
          case 6 => n / 0x1_0000_0000_0000
          case _ => n / 0x100_0000_0000_0000)
  }

  /** The length of a message in bits, as a 64-bit big-endian number. */
  function LengthField(bytes: nat): (r: seq<Byte>)
    ensures |r| == 8
  {
    var n := 8 * bytes % TWO64;
    [ByteOf(n, 7), ByteOf(n, 6), ByteOf(n, 5), ByteOf(n, 4), ByteOf(n, 3), ByteOf(n, 2), ByteOf(n, 1), ByteOf(n, 0)]
  }

  /** Section 5.1.1: a one bit, zeros, and the length, up to a multiple of the block size. */
  function Padding(bytes: nat): seq<Byte>
  {
    var n := bytes % BLOCK;
    [0x80] + Zeros(if n < 56 then 55 - n else 119 - n) + LengthField(bytes)
  }

  function WordBytes(w: Word): (r: seq<Byte>)
    ensures |r| == 4
  {
    [((w >> 24) & 0xff) as Byte, ((w >> 16) & 0xff) as Byte, ((w >> 8) & 0xff) as Byte, (w & 0xff) as Byte]
  }

  function DigestBytes(h: Digest): (r: seq<Byte>)
    ensures |r| == 20
  {
    WordBytes(h.a) + WordBytes(h.b) + WordBytes(h.c) + WordBytes(h.d) + WordBytes(h.e)
  }

  /** The hash of a message. */
  function Hash(message: seq<Byte>): (r: seq<Byte>)
    ensures |r| == 20
  {
    DigestBytes(Blocks(INITIAL, message + Padding(|message|)))
  }

  lemma PaddingFills(bytes: nat)
    ensures (bytes + |Padding(bytes)|) % BLOCK == 0
  {
    hide LengthField;
    var q, n := bytes / BLOCK, bytes % BLOCK;
    MultipleOfBlock(if n < 56 then q + 1 else q + 2, bytes + |Padding(bytes)|);
  }

  lemma MultipleOfBlock(k: nat, n: nat)
    requires n == BLOCK * k
    ensures n % BLOCK == 0
  {
  }

  lemma {:induction false} BlocksConcat(h: Digest, a: seq<Byte>, b: seq<Byte>)
    requires |a| % BLOCK == 0
    ensures Blocks(h, a + b) == Blocks(Blocks(h, a), b)
    decreases |a|
  {
    hide Compress;
    if a == [] {
      assert a + b == b;
    } else {
      assert (a + b)[..BLOCK] == a[..BLOCK] && (a + b)[BLOCK..] == a[BLOCK..] + b;
      BlocksConcat(Compress(h, a[..BLOCK]), a[BLOCK..], b);
    }
  }

  // ---- the functions and the word load as the source writes them ------------------------------

  /** f1 to f4, with `|` where the standard has exclusive or. */
  function F(n: nat, x: Word, y: Word, z: Word): Word
  {
    if n == 1 then (x & y) | (!x & z)
    else if n == 3 then (x & y) | (x & z) | (y & z)
    else x ^ y ^ z
  }

  function Const(n: nat): Word
  {
    if n == 1 then 0x5a827999 else if n == 2 then 0x6ed9eba1 else if n == 3 then 0x8f1bbcdc else 0xca62c1d6
  }

  lemma SameFunctions(t: nat, x: Word, y: Word, z: Word)
    requires t < 80
    ensures F(t / 20 + 1, x, y, z) == Ft(t, x, y, z) && Const(t / 20 + 1) == Kt(t)
  {
    assert (x & y) | (!x & z) == (x & y) ^ (!x & z);
    assert (x & y) | (x & z) | (y & z) == (x & y) ^ (x & z) ^ (y & z);
  }

  /** A word read from memory on a little-endian machine. */
  function LittleEndian(b0: Byte, b1: Byte, b2: Byte, b3: Byte): Word
  {
    (b0 as Word) | ((b1 as Word) << 8) | ((b2 as Word) << 16) | ((b3 as Word) << 24)
  }

  function Swapped(t: Word): Word
  {
    ((t << 24) & 0xff000000) | ((t << 8) & 0x00ff0000) | ((t >> 8) & 0x0000ff00) | ((t >> 24) & 0x000000ff)
  }

  /** The swap makes a little-endian load a big-endian one. */
  lemma SwapIsBigEndian(b0: Byte, b1: Byte, b2: Byte, b3: Byte)
    ensures Swapped(LittleEndian(b0, b1, b2, b3)) == BigEndian(b0, b1, b2, b3)
  {
  }

  // ---- the unravelled rounds ------------------------------------------------------------------

  /** The six registers of the unravelled rounds. */
  datatype Registers = Registers(A: Word, B: Word, C: Word, D: Word, E: Word, T: Word)

  datatype Macro = FA | FB | FC | FD | FE | FT

  /** One macro: which register takes the new value, and which one is rotated. */
  function Step(m: Macro, n: nat, r: Registers, w: Word): Registers
  {
    match m
    case FA => r.(T := Mix(Rot5(r.A), F(n, r.B, r.C, r.D), r.E, w, Const(n)), B := Rot30(r.B))
    case FB => r.(E := Mix(Rot5(r.T), F(n, r.A, r.B, r.C), r.D, w, Const(n)), A := Rot30(r.A))
    case FC => r.(D := Mix(Rot5(r.E), F(n, r.T, r.A, r.B), r.C, w, Const(n)), T := Rot30(r.T))
    case FD => r.(C := Mix(Rot5(r.D), F(n, r.E, r.T, r.A), r.B, w, Const(n)), E := Rot30(r.E))
    case FE => r.(B := Mix(Rot5(r.C), F(n, r.D, r.E, r.T), r.A, w, Const(n)), D := Rot30(r.D))
    case FT => r.(A := Mix(Rot5(r.B), F(n, r.C, r.D, r.E), r.T, w, Const(n)), C := Rot30(r.C))
  }

  /** The text of the unravelled rounds: twenty macros for each of the four functions. */
  const UNRAVEL1: seq<Macro> :=
    [FA, FB, FC, FD, FE, FT, FA, FB, FC, FD,
     FE, FT, FA, FB, FC, FD, FE, FT, FA, FB]
  const UNRAVEL2: seq<Macro> :=
    [FC, FD, FE, FT, FA, FB, FC, FD, FE, FT,
     FA, FB, FC, FD, FE, FT, FA, FB, FC, FD]
  const UNRAVEL3: seq<Macro> :=
    [FE, FT, FA, FB, FC, FD, FE, FT, FA, FB,
     FC, FD, FE, FT, FA, FB, FC, FD, FE, FT]
  const UNRAVEL4: seq<Macro> :=
    [FA, FB, FC, FD, FE, FT, FA, FB, FC, FD,
     FE, FT, FA, FB, FC, FD, FE, FT, FA, FB]

  function Unravel(n: nat): seq<Macro>
    requires 1 <= n <= 4
  {
    match n case 1 => UNRAVEL1 case 2 => UNRAVEL2 case 3 => UNRAVEL3 case _ => UNRAVEL4
  }

  function MacroOf(t: nat): Macro
  {
    match t % 6 case 0 => FA case 1 => FB case 2 => FC case 3 => FD case 4 => FE case _ => FT
  }

  lemma UnravelText(n: nat, i: nat)
    requires 1 <= n <= 4 && i < 20
    ensures |Unravel(n)| == 20 && Unravel(n)[i] == MacroOf(20 * (n - 1) + i)
  {
    hide MacroOf;
    match n case 1 => Text1(i); case 2 => Text2(i); case 3 => Text3(i); case _ => Text4(i);
  }

  lemma Text1(i: nat)
    requires i < 20
    ensures |UNRAVEL1| == 20 && UNRAVEL1[i] == MacroOf(0 + i)
  {
    match i
    case 0 => case 1 => case 2 => case 3 => case 4 => case 5 => case 6 => case 7 => case 8 => case 9 =>
    case 10 => case 11 => case 12 => case 13 => case 14 => case 15 => case 16 => case 17 => case 18 => case _ =>
  }

  lemma Text2(i: nat)
    requires i < 20
    ensures |UNRAVEL2| == 20 && UNRAVEL2[i] == MacroOf(20 + i)
  {
    match i
    case 0 => case 1 => case 2 => case 3 => case 4 => case 5 => case 6 => case 7 => case 8 => case 9 =>
    case 10 => case 11 => case 12 => case 13 => case 14 => case 15 => case 16 => case 17 => case 18 => case _ =>
  }

  lemma Text3(i: nat)
    requires i < 20
    ensures |UNRAVEL3| == 20 && UNRAVEL3[i] == MacroOf(40 + i)
  {
    match i
    case 0 => case 1 => case 2 => case 3 => case 4 => case 5 => case 6 => case 7 => case 8 => case 9 =>
    case 10 => case 11 => case 12 => case 13 => case 14 => case 15 => case 16 => case 17 => case 18 => case _ =>
  }

  lemma Text4(i: nat)
    requires i < 20
    ensures |UNRAVEL4| == 20 && UNRAVEL4[i] == MacroOf(60 + i)
  {
    match i
    case 0 => case 1 => case 2 => case 3 => case 4 => case 5 => case 6 => case 7 => case 8 => case 9 =>
    case 10 => case 11 => case 12 => case 13 => case 14 => case 15 => case 16 => case 17 => case 18 => case _ =>
  }

  /** Which registers hold a to e after t rounds. */
  function View(r: Registers, t: nat): Digest
  {
    match t % 6
    case 0 => Digest(r.A, r.B, r.C, r.D, r.E)
    case 1 => Digest(r.T, r.A, r.B, r.C, r.D)
    case 2 => Digest(r.E, r.T, r.A, r.B, r.C)
    case 3 => Digest(r.D, r.E, r.T, r.A, r.B)
    case 4 => Digest(r.C, r.D, r.E, r.T, r.A)
    case _ => Digest(r.B, r.C, r.D, r.E, r.T)
  }

  /** The macro of round t does round t, under the renaming of the registers. */
  lemma StepIsRound(t: nat, r: Registers, w: Word)
    requires t < 80
    ensures View(Step(MacroOf(t), t / 20 + 1, r, w), t + 1) == Round(View(r, t), t, w)
  {
    var v := View(r, t);
    SameFunctions(t, v.b, v.c, v.d);
    StepRenames(t, t / 20 + 1, r, w);
    hide F, Ft, Const, Kt, Rot5, Rot30, Step, Mix, View;
  }

  lemma StepRenames(t: nat, n: nat, r: Registers, w: Word)
    ensures View(Step(MacroOf(t), n, r, w), t + 1) == Turn(View(r, t), n, w)
  {
    hide Step, Turn;
    var m := t % 6;
    assert (t + 1) % 6 == if m == 5 then 0 else m + 1;
    if m == 0 { StepA(n, r, w); }
    else if m == 1 { StepB(n, r, w); }
    else if m == 2 { StepC(n, r, w); }
    else if m == 3 { StepD(n, r, w); }
    else if m == 4 { StepE(n, r, w); }
    else { StepT(n, r, w); }
  }

  /** A round with the function and the constant of the source. */
  function Turn(v: Digest, n: nat, w: Word): Digest
  {
    Digest(Mix(Rot5(v.a), F(n, v.b, v.c, v.d), v.e, w, Const(n)), v.a, Rot30(v.b), v.c, v.d)
  }

  lemma StepA(n: nat, r: Registers, w: Word)
    ensures var s := Step(FA, n, r, w); Digest(s.T, s.A, s.B, s.C, s.D) == Turn(Digest(r.A, r.B, r.C, r.D, r.E), n, w)
  {
    hide F, Const, Rot5, Rot30, Mix;
  }

  lemma StepB(n: nat, r: Registers, w: Word)
    ensures var s := Step(FB, n, r, w); Digest(s.E, s.T, s.A, s.B, s.C) == Turn(Digest(r.T, r.A, r.B, r.C, r.D), n, w)
  {
    hide F, Const, Rot5, Rot30, Mix;
  }

  lemma StepC(n: nat, r: Registers, w: Word)
    ensures var s := Step(FC, n, r, w); Digest(s.D, s.E, s.T, s.A, s.B) == Turn(Digest(r.E, r.T, r.A, r.B, r.C), n, w)
  {
    hide F, Const, Rot5, Rot30, Mix;
  }

  lemma StepD(n: nat, r: Registers, w: Word)
    ensures var s := Step(FD, n, r, w); Digest(s.C, s.D, s.E, s.T, s.A) == Turn(Digest(r.D, r.E, r.T, r.A, r.B), n, w)
  {
    hide F, Const, Rot5, Rot30, Mix;
  }

  lemma StepE(n: nat, r: Registers, w: Word)
    ensures var s := Step(FE, n, r, w); Digest(s.B, s.C, s.D, s.E, s.T) == Turn(Digest(r.C, r.D, r.E, r.T, r.A), n, w)
  {
    hide F, Const, Rot5, Rot30, Mix;
  }

  lemma StepT(n: nat, r: Registers, w: Word)
    ensures var s := Step(FT, n, r, w); Digest(s.A, s.B, s.C, s.D, s.E) == Turn(Digest(r.B, r.C, r.D, r.E, r.T), n, w)
  {
    hide F, Const, Rot5, Rot30, Mix;
  }

  // ---- the context ----------------------------------------------------------------------------

  lemma ScheduleWord(block: seq<Byte>, t: nat)
    requires |block| == BLOCK && 16 <= t
    ensures Schedule(block, t)
         == Extend(Schedule(block, t - 3), Schedule(block, t - 8), Schedule(block, t - 14), Schedule(block, t - 16))
  {
    hide Extend;
  }

  predicate Loaded(w: array<Word>, block: seq<Byte>)
    requires w.Length == 80 && |block| == BLOCK
    reads w
  {
    forall t :: 0 <= t < 80 ==> w[t] == Schedule(block, t)
  }

  /** The words W[0] to W[79]: read with a byte swap, then extended. */
  method LoadWords(data: array<Byte>) returns (w: array<Word>)
    requires data.Length == BLOCK
    ensures fresh(w) && w.Length == 80 && Loaded(w, data[..])
  {
    hide Schedule, BigEndian, LittleEndian, Swapped, Extend;
    w := new Word[80];
    ghost var block := data[..];
    for i := 0 to 16
      invariant forall t :: 0 <= t < i ==> w[t] == Schedule(block, t)
    {
      var t := LittleEndian(data[4 * i], data[4 * i + 1], data[4 * i + 2], data[4 * i + 3]);
      SwapIsBigEndian(data[4 * i], data[4 * i + 1], data[4 * i + 2], data[4 * i + 3]);
      FirstWords(block, i);
      w[i] := Swapped(t);
    }
    for i := 16 to 80
      invariant forall t :: 0 <= t < i ==> w[t] == Schedule(block, t)
    {
      ScheduleWord(block, i);
      w[i] := Extend(w[i - 3], w[i - 8], w[i - 14], w[i - 16]);
    }
  }

  lemma FirstWords(block: seq<Byte>, t: nat)
    requires |block| == BLOCK && t < 16
    ensures Schedule(block, t) == BigEndian(block[4 * t], block[4 * t + 1], block[4 * t + 2], block[4 * t + 3])
  {
  }

  /** The eighty rounds as loops that shift the five registers. */
  method LoopedRounds(h: Digest, w: array<Word>, ghost block: seq<Byte>) returns (v: Digest)
    requires |block| == BLOCK && w.Length == 80 && Loaded(w, block)
    ensures v == Rounds(h, block, 80)
  {
    hide Schedule, Rot5, Rot30, F, Ft, Const, Kt, Mix;
    var A, B, C, D, E := h.a, h.b, h.c, h.d, h.e;
    for i := 0 to 80
      invariant Digest(A, B, C, D, E) == Rounds(h, block, i)
    {
      SameFunctions(i, B, C, D);
      var n := i / 20 + 1;
      var T := Mix(Rot5(A), F(n, B, C, D), E, w[i], Const(n));
      E := D;
      D := C;
      C := Rot30(B);
      B := A;
      A := T;
    }
    v := Digest(A, B, C, D, E);
  }

  /** The eighty rounds unravelled: no shifting, six registers whose roles rotate, and the result
      in E, T, A, B and C. */
  method UnravelledRounds(h: Digest, w: array<Word>, ghost block: seq<Byte>) returns (v: Digest)
    requires |block| == BLOCK && w.Length == 80 && Loaded(w, block)
    ensures v == Rounds(h, block, 80)
  {
    hide Schedule, Step, Round, Unravel;
    var r := Registers(h.a, h.b, h.c, h.d, h.e, 0);
    var wp := 0;
    for n := 1 to 5
      invariant wp == 20 * (n - 1)
      invariant View(r, wp) == Rounds(h, block, wp)
    {
      UnravelText(n, 0);
      for i := 0 to 20
        invariant wp == 20 * (n - 1) + i
        invariant View(r, wp) == Rounds(h, block, wp)
      {
        UnravelText(n, i);
        assert wp / 20 + 1 == n;
        StepIsRound(wp, r, w[wp]);
        r := Step(Unravel(n)[i], n, r, w[wp]);
        wp := wp + 1;
      }
    }
    v := Digest(r.E, r.T, r.A, r.B, r.C);
  }

  lemma CountArithmetic(lo: nat, hi: nat, count: nat)
    requires lo < TWO32 && hi < TWO32 && count < 0x8000_0000
    ensures var clo := (lo + count * 8 % TWO32) % TWO32;
            var carried := if clo < lo then (hi + 1) % TWO32 else hi;
            (carried + count / 0x2000_0000) % TWO32 * TWO32 + clo == (hi * TWO32 + lo + 8 * count) % TWO64
  {
    var high := count / 0x2000_0000;
    var clo := (lo + count * 8 % TWO32) % TWO32;
    var carry := if clo < lo then 1 else 0;
    LowHalf(lo, count);
    AddMod(hi, carry, high);
    Regroup(hi, carry + high);
    HighHalf(hi, carry + high, clo, hi * TWO32 + lo + 8 * count);
  }

  lemma Regroup(hi: nat, added: nat)
    ensures (hi + added) * TWO32 == hi * TWO32 + added * TWO32
  {
  }

  /** The low counter, and what it carries over. */
  lemma LowHalf(lo: nat, count: nat)
    requires lo < TWO32 && count < 0x8000_0000
    ensures var clo := (lo + count * 8 % TWO32) % TWO32;
            lo + 8 * count == ((if clo < lo then 1 else 0) + count / 0x2000_0000) * TWO32 + clo
  {
    var low, high := count * 8 % TWO32, count / 0x2000_0000;
    assert count * 8 == high * TWO32 + low;
    Carry(lo, low);
  }

  lemma Carry(lo: nat, low: nat)
    requires lo < TWO32 && low < TWO32
    ensures var clo := (lo + low) % TWO32; lo + low == (if clo < lo then TWO32 else 0) + clo
  {
  }

  lemma HighHalf(hi: nat, added: nat, clo: nat, n: nat)
    requires clo < TWO32 && n == (hi + added) * TWO32 + clo
    ensures (hi + added) % TWO32 * TWO32 + clo == n % TWO64
  {
    var top := hi + added;
    var k := top / TWO32;
    assert top == k * TWO32 + top % TWO32;
    ModIs(n, k, top % TWO32 * TWO32 + clo);
  }

  lemma AddMod(hi: nat, carry: nat, high: nat)
    requires hi < TWO32 && carry <= 1
    ensures ((if carry == 1 then (hi + 1) % TWO32 else hi) + high) % TWO32 == (hi + carry + high) % TWO32
  {
    if carry == 1 && hi + 1 == TWO32 { assert (TWO32 + high) % TWO32 == high % TWO32; }
  }

  lemma ModIs(n: nat, k: nat, r: nat)
    requires n == k * TWO64 + r && r < TWO64
    ensures n % TWO64 == r
  {
  }

  /** SHA1_INFO. The message is what has been hashed so far; `data` holds its last, incomplete
      block, and the two counters its length in bits. */
  class Context {
    var digest: Digest
    var countLo: nat
    var countHi: nat
    const data: array<Byte>
    var local: nat
    ghost var message: seq<Byte>

    ghost predicate Valid()
      reads this, data
    {
      && data.Length == BLOCK
      && local == |message| % BLOCK
      && data[..local] == message[|message| - local..]
      && digest == Blocks(INITIAL, message[..|message| - local])
      && Counts(|message|)
    }

    /** The two counters together are the number of bits, modulo 2^64. */
    ghost predicate Counts(bytes: nat)
      reads this`countLo, this`countHi
    {
      countLo < TWO32 && countHi < TWO32 && countHi * TWO32 + countLo == 8 * bytes % TWO64
    }

    /** sha1_init */
    constructor ()
      ensures Valid() && message == [] && fresh(data)
    {
      digest := INITIAL;
      countLo, countHi, local := 0, 0, 0;
      data := new Byte[BLOCK];
      message := [];
    }

    /** sha1_transform: one block more, by either form of the rounds. */
    method Transform(unravel: bool)
      requires data.Length == BLOCK
      modifies this`digest
      ensures digest == Compress(old(digest), data[..])
    {
      hide Rounds;
      var w := LoadWords(data);
      var v;
      if unravel {
        v := UnravelledRounds(digest, w, data[..]);
      } else {
        v := LoopedRounds(digest, w, data[..]);
      }
      digest := Sum(digest, v);
    }

    /** memcpy into the block buffer. */
    method Fill(at: nat, bytes: seq<Byte>)
      requires at + |bytes| <= data.Length
      modifies data
      ensures data[..at] == old(data[..at])
      ensures data[at..at + |bytes|] == bytes
      ensures data[at + |bytes|..] == old(data[at + |bytes|..])
    {
      forall i | 0 <= i < |bytes| {
        data[at + i] := bytes[i];
      }
    }

    /** The carry into the upper counter, and the bits above 2^32 that `count << 3` drops. */
    method Count(count: nat, ghost bytes: nat)
      requires count < 0x8000_0000 && Counts(bytes)
      modifies this`countLo, this`countHi
      ensures Counts(bytes + count)
    {
      CountGrows(bytes, count, countHi * TWO32 + countLo);
      CountArithmetic(countLo, countHi, count);
      var clo := (countLo + count * 8 % TWO32) % TWO32;
      if clo < countLo {
        countHi := (countHi + 1) % TWO32;
      }
      countLo := clo;
      countHi := (countHi + count / 0x2000_0000) % TWO32;
    }

    /** The digest stands for these bytes, a whole number of blocks. */
    ghost predicate Hashed(done: seq<Byte>)
      reads this, data
    {
      data.Length == BLOCK && |done| % BLOCK == 0 && digest == Blocks(INITIAL, done)
    }

    /** Adds bytes to a block that waits, and hashes it if it is full then. */
    method TopUp(buffer: seq<Byte>, unravel: bool, ghost done: seq<Byte>) returns (rest: seq<Byte>)
      requires Hashed(done) && 0 < local < BLOCK
      modifies this`digest, this`local, data
      ensures local < BLOCK ==> rest == [] && Hashed(done) && data[..local] == old(data[..local]) + buffer
      ensures |rest| <= |buffer|
      ensures local >= BLOCK ==>
                && rest == buffer[|buffer| - |rest|..]
                && Hashed(done + old(data[..local]) + buffer[..|buffer| - |rest|])
    {
      hide Blocks, Compress;
      var i := if BLOCK - local > |buffer| then |buffer| else BLOCK - local;
      ghost var waiting := data[..local];
      Fill(local, buffer[..i]);
      assert data[..local + i] == waiting + buffer[..i];
      rest := buffer[i..];
      local := local + i;
      if local == BLOCK {
        assert data[..BLOCK] == data[..];
        Transform(unravel);
        BlocksAppend(INITIAL, done, data[..]);
        assert done + data[..] == done + waiting + buffer[..i];
      }
    }

    /** Hashes full blocks straight from the input. */
    method HashBlocks(buffer: seq<Byte>, unravel: bool, ghost done: seq<Byte>) returns (rest: seq<Byte>)
      requires Hashed(done)
      modifies this`digest, data
      ensures |rest| < BLOCK && |rest| <= |buffer| && rest == buffer[|buffer| - |rest|..]
      ensures Hashed(done + buffer[..|buffer| - |rest|])
    {
      hide Blocks, Compress;
      rest := buffer;
      assert done + buffer[..0] == done;
      while |rest| >= BLOCK
        invariant |rest| <= |buffer| && rest == buffer[|buffer| - |rest|..]
        invariant Hashed(done + buffer[..|buffer| - |rest|])
      {
        ghost var n := |buffer| - |rest|;
        Fill(0, rest[..BLOCK]);
        assert data[..] == data[0..0 + BLOCK] == rest[..BLOCK];
        rest := rest[BLOCK..];
        Transform(unravel);
        BlocksAppend(INITIAL, done + buffer[..n], data[..]);
        assert done + buffer[..n] + data[..] == done + buffer[..n + BLOCK];
      }
    }

    /** sha1_update: fills up a waiting block, hashes the full blocks, keeps the rest. */
    method Update(buffer: seq<Byte>, unravel: bool)
      requires Valid() && |buffer| < 0x8000_0000
      modifies this, data
      ensures Valid() && message == old(message) + buffer
    {
      hide Blocks, Compress, Counts;
      Count(|buffer|, |message|);
      ghost var done := message[..|message| - local];
      WholeBlocks(|message|, local);
      ghost var waiting := data[..local];
      assert message == done + waiting;
      message := message + buffer;
      if local == 0 {
        assert done + waiting + buffer == done + buffer;
        Rest(buffer, unravel, done);
      } else {
        Behind(buffer, unravel, done, waiting);
      }
    }

    /** sha1_update when a block waits. */
    method Behind(buffer: seq<Byte>, unravel: bool, ghost done: seq<Byte>, ghost waiting: seq<Byte>)
      requires Hashed(done) && 0 < local < BLOCK && data[..local] == waiting
      requires message == done + waiting + buffer && Counts(|message|)
      modifies this`digest, this`local, data
      ensures Valid()
    {
      hide Blocks, Compress, Counts;
      var rest := TopUp(buffer, unravel, done);
      if local < BLOCK {
        assert done + waiting + buffer == done + (waiting + buffer);
        EndsWith(message, done, data[..local]);
      } else {
        ghost var first := buffer[..|buffer| - |rest|];
        assert buffer == first + rest;
        assert done + waiting + (first + rest) == done + waiting + first + rest;
        Rest(rest, unravel, done + waiting + first);
      }
    }

    /** The part of sha1_update behind the waiting block. */
    method Rest(buffer: seq<Byte>, unravel: bool, ghost done: seq<Byte>)
      requires Hashed(done) && message == done + buffer && Counts(|message|)
      modifies this`digest, this`local, data
      ensures Valid()
    {
      hide Blocks, Compress, Counts;
      var rest := HashBlocks(buffer, unravel, done);
      ghost var first := buffer[..|buffer| - |rest|];
      assert done + (first + rest) == done + first + rest;
      Fill(0, rest);
      local := |rest|;
      assert data[..local] == data[0..0 + |rest|] == rest;
      EndsWith(message, done + first, rest);
    }

    /** The one bit and the zeros, with a block of their own when the length does not fit behind. */
    method Pad(unravel: bool, ghost done: seq<Byte>) returns (ghost hashed: seq<Byte>)
      requires Hashed(done) && local < BLOCK && countLo / 8 % 64 == local
      modifies this`digest, data
      ensures Hashed(hashed)
      ensures hashed + data[..56] == done + old(data[..local]) + Ones(local)
    {
      hide Blocks, Compress, Zeros, Ones;
      var count := countLo / 8 % 64;
      ghost var waiting := data[..local];
      Fill(count, [0x80]);
      count := count + 1;
      assert data[..count] == waiting + [0x80];
      if count > 56 {
        Fill(count, Zeros(BLOCK - count));
        assert data[..] == waiting + [0x80] + Zeros(BLOCK - count);
        Transform(unravel);
        hashed := done + data[..];
        BlocksAppend(INITIAL, done, data[..]);
        Fill(0, Zeros(56));
        assert data[..56] == data[0..0 + 56] == Zeros(56);
        TwoBlocks(done, waiting);
      } else {
        Fill(count, Zeros(56 - count));
        hashed := done;
        assert data[..56] == waiting + [0x80] + Zeros(56 - count);
        OneBlock(done, waiting);
      }
    }

    /** sha1_final: the padding, the length from the two counters, and the last block. */
    method Final(unravel: bool) returns (result: seq<Byte>)
      requires Valid()
      modifies this`digest, data
      ensures result == Hash(message)
    {
      hide Blocks, Compress, DigestBytes, Ones, Padding, LengthField, NatBytes;
      ghost var done, waiting := message[..|message| - local], data[..local];
      assert message == done + waiting;
      WholeBlocks(|message|, local);
      CountIsLocal(countLo, countHi, |message|);
      ghost var hashed := Pad(unravel, done);
      var field := NatBytes(countHi) + NatBytes(countLo);
      LengthBytes(countLo, countHi, |message|);
      ghost var head := data[..56];
      Fill(56, field);
      assert data[..] == head + field;
      Transform(unravel);
      result := DigestBytes(digest);
      BlocksAppend(INITIAL, hashed, data[..]);
      LastBlock(message, done, waiting, hashed, head, field);
    }
  }

  lemma LastBlock(
      message: seq<Byte>, done: seq<Byte>, waiting: seq<Byte>, hashed: seq<Byte>, head: seq<Byte>, field: seq<Byte>)
    requires message == done + waiting && |waiting| == |message| % BLOCK
    requires hashed + head == done + waiting + Ones(|waiting|) && field == LengthField(|message|)
    ensures hashed + (head + field) == message + Padding(|message|)
  {
    hide Ones, Padding, LengthField;
    PaddingShape(|message|);
    assert hashed + (head + field) == hashed + head + field;
    assert message + Ones(|waiting|) + field == message + (Ones(|waiting|) + field);
  }

  /** The zeros over two blocks ... */
  lemma TwoBlocks(done: seq<Byte>, waiting: seq<Byte>)
    requires 56 <= |waiting| < BLOCK
    ensures done + (waiting + [0x80] + Zeros(63 - |waiting|)) + Zeros(56) == done + waiting + Ones(|waiting|)
  {
    var n := |waiting|;
    assert Zeros(63 - n) + Zeros(56) == Zeros(119 - n);
    hide Zeros;
    var a, b := Zeros(63 - n), Zeros(56);
    assert done + (waiting + [0x80] + a) + b == done + waiting + ([0x80] + (a + b));
  }

  /** ... and in one. */
  lemma OneBlock(done: seq<Byte>, waiting: seq<Byte>)
    requires |waiting| < 56
    ensures done + (waiting + [0x80] + Zeros(55 - |waiting|)) == done + waiting + Ones(|waiting|)
  {
    hide Zeros;
    var a := Zeros(55 - |waiting|);
    assert done + (waiting + [0x80] + a) == done + waiting + ([0x80] + a);
  }

  /** The padding but for the length. */
  function Ones(n: nat): seq<Byte>
    requires n < BLOCK
  {
    [0x80] + Zeros(if n < 56 then 55 - n else 119 - n)
  }

  lemma PaddingShape(bytes: nat)
    ensures Padding(bytes) == Ones(bytes % BLOCK) + LengthField(bytes)
  {
    hide LengthField;
  }

  /** A 32-bit word as four bytes, most significant first. */
  function NatBytes(n: nat): (r: seq<Byte>)
    ensures |r| == 4
  {
    [ByteOf(n, 3), ByteOf(n, 2), ByteOf(n, 1), ByteOf(n, 0)]
  }

  lemma CountIsLocal(lo: nat, hi: nat, bytes: nat)
    requires lo < TWO32 && hi < TWO32 && hi * TWO32 + lo == 8 * bytes % TWO64
    ensures lo / 8 % 64 == bytes % BLOCK
  {
    var k := 8 * bytes / TWO64;
    assert 8 * bytes == k * TWO64 + hi * TWO32 + lo;
    EighthOf(bytes, k, hi, lo);
  }

  lemma EighthOf(bytes: nat, k: nat, hi: nat, lo: nat)
    requires 8 * bytes == k * TWO64 + hi * TWO32 + lo
    ensures lo / 8 % 64 == bytes % BLOCK
  {
    var m := k * 0x80_0000_0000_0000 + hi * 0x80_0000;
    assert lo == 8 * (bytes - 64 * m);
    SameMod(bytes, m, lo / 8);
  }

  lemma SameMod(n: nat, m: nat, r: nat)
    requires r == n - 64 * m
    ensures r % 64 == n % 64
  {
  }

  lemma LengthBytes(lo: nat, hi: nat, bytes: nat)
    requires lo < TWO32 && hi < TWO32 && hi * TWO32 + lo == 8 * bytes % TWO64
    ensures LengthField(bytes) == NatBytes(hi) + NatBytes(lo)
  {
    var n := hi * TWO32 + lo;
    forall k | 0 <= k < 4 ensures ByteOf(n, k) == ByteOf(lo, k) && ByteOf(n, k + 4) == ByteOf(hi, k) {
      BytesOfPair(lo, hi, k);
    }
    hide ByteOf;
  }

  lemma BytesOfPair(lo: nat, hi: nat, k: nat)
    requires lo < TWO32 && k < 4
    ensures ByteOf(hi * TWO32 + lo, k) == ByteOf(lo, k) && ByteOf(hi * TWO32 + lo, k + 4) == ByteOf(hi, k)
  {
    hide Octet;
    match k
    case 0 => Split0(lo, hi); LowOctet(hi * 0x100_0000, lo);
    case 1 => Split1(lo, hi); LowOctet(hi * 0x1_0000, lo / 0x100);
    case 2 => Split2(lo, hi); LowOctet(hi * 0x100, lo / 0x1_0000);
    case _ => Split3(lo, hi); LowOctet(hi, lo / 0x100_0000);
  }

  lemma LowOctet(a: nat, b: nat)
    ensures Octet(a * 0x100 + b) == Octet(b)
  {
    assert (a * 0x100 + b) % 0x100 == b % 0x100;
  }

  lemma Split0(lo: nat, hi: nat)
    requires lo < TWO32
    ensures hi * TWO32 + lo == hi * 0x100_0000 * 0x100 + lo && (hi * TWO32 + lo) / TWO32 == hi
  {
  }

  lemma Split1(lo: nat, hi: nat)
    requires lo < TWO32
    ensures (hi * TWO32 + lo) / 0x100 == hi * 0x1_0000 * 0x100 + lo / 0x100
    ensures (hi * TWO32 + lo) / 0x100_0000_0000 == hi / 0x100
  {
    var q, r := hi / 0x100, hi % 0x100;
    assert hi * TWO32 + lo == 0x100_0000_0000 * q + (TWO32 * r + lo);
  }

  lemma Split2(lo: nat, hi: nat)
    requires lo < TWO32
    ensures (hi * TWO32 + lo) / 0x1_0000 == hi * 0x100 * 0x100 + lo / 0x1_0000
    ensures (hi * TWO32 + lo) / 0x1_0000_0000_0000 == hi / 0x1_0000
  {
    var q, r := hi / 0x1_0000, hi % 0x1_0000;
    assert hi * TWO32 + lo == 0x1_0000_0000_0000 * q + (TWO32 * r + lo);
  }

  lemma Split3(lo: nat, hi: nat)
    requires lo < TWO32
    ensures (hi * TWO32 + lo) / 0x100_0000 == hi * 0x100 + lo / 0x100_0000
    ensures (hi * TWO32 + lo) / 0x100_0000_0000_0000 == hi / 0x100_0000
  {
    var q, r := hi / 0x100_0000, hi % 0x100_0000;
    assert hi * TWO32 + lo == 0x100_0000_0000_0000 * q + (TWO32 * r + lo);
  }

  lemma EndsWith(all: seq<Byte>, done: seq<Byte>, tail: seq<Byte>)
    requires all == done + tail && |done| % BLOCK == 0 && |tail| < BLOCK
    ensures |all| % BLOCK == |tail|
    ensures all[..|all| - |tail|] == done && all[|all| - |tail|..] == tail
  {
    StillWaiting(|done|, |tail|);
  }

  lemma CountGrows(m: nat, n: nat, bits: nat)
    requires bits == 8 * m % TWO64
    ensures (bits + 8 * n) % TWO64 == 8 * (m + n) % TWO64
  {
    var k := 8 * m / TWO64;
    assert 8 * m == TWO64 * k + bits;
    AddMultiple(bits + 8 * n, k);
  }

  lemma AddMultiple(n: nat, k: nat)
    ensures (TWO64 * k + n) % TWO64 == n % TWO64
  {
    var q := n / TWO64;
    assert n == TWO64 * q + n % TWO64;
    ModIs(TWO64 * k + n, k + q, n % TWO64);
  }

  lemma WholeBlocks(m: nat, local: nat)
    requires local == m % BLOCK
    ensures local < BLOCK && (m - local) % BLOCK == 0
  {
    MultipleOfBlock(m / BLOCK, m - local);
  }

  lemma StillWaiting(done: nat, local: nat)
    requires done % BLOCK == 0 && local < BLOCK
    ensures (done + local) % BLOCK == local
  {
  }

  lemma NextBlock(done: nat)
    requires done % BLOCK == 0
    ensures (done + BLOCK) % BLOCK == 0
  {
  }

  lemma BlocksAppend(h: Digest, done: seq<Byte>, block: seq<Byte>)
    requires |done| % BLOCK == 0 && |block| == BLOCK
    ensures Blocks(h, done + block) == Compress(Blocks(h, done), block)
    ensures |done + block| % BLOCK == 0
  {
    hide Compress;
    BlocksConcat(h, done, block);
    NextBlock(|done|);
    assert block[..BLOCK] == block && block[BLOCK..] == [];
  }
}
