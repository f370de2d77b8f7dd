/** Base32 as in section 6 of RFC 4648: the bits of the bytes, most significant first, in groups
    of five. The two loops work on a 32-bit accumulator that is never cleared. */
module Base32 {
  import opened CText

  type Byte = bv8

  // ---- bits ---------------------------------------------------------------------------------

  function ByteBits(b: Byte): (r: seq<bool>)
    ensures |r| == 8
  {
    [b & 0x80 != 0, b & 0x40 != 0, b & 0x20 != 0, b & 0x10 != 0,
     b & 0x08 != 0, b & 0x04 != 0, b & 0x02 != 0, b & 0x01 != 0]
  }

  /** The five low bits. */
  function DigitBits(d: Byte): (r: seq<bool>)
    ensures |r| == 5
  {
    [d & 0x10 != 0, d & 0x08 != 0, d & 0x04 != 0, d & 0x02 != 0, d & 0x01 != 0]
  }

  function Weight(b: bool, w: Byte): Byte { if b then w else 0 }

  function ToByte(bits: seq<bool>): Byte
    requires |bits| == 8
  {
    Weight(bits[0], 0x80) | Weight(bits[1], 0x40) | Weight(bits[2], 0x20) | Weight(bits[3], 0x10)
    | Weight(bits[4], 0x08) | Weight(bits[5], 0x04) | Weight(bits[6], 0x02) | Weight(bits[7], 0x01)
  }

  function ToDigit(bits: seq<bool>): Byte
    requires |bits| == 5
  {
    Weight(bits[0], 0x10) | Weight(bits[1], 0x08) | Weight(bits[2], 0x04)
    | Weight(bits[3], 0x02) | Weight(bits[4], 0x01)
  }

  function Bits(data: seq<Byte>): (r: seq<bool>)
    ensures |r| == 8 * |data|
  {
    if data == [] then [] else ByteBits(data[0]) + Bits(data[1..])
  }

  /** Groups of eight; what is left over is dropped. */
  function Bytes(bits: seq<bool>): (r: seq<Byte>)
    ensures |r| == |bits| / 8
  {
    if |bits| < 8 then [] else [ToByte(bits[..8])] + Bytes(bits[8..])
  }

  function Zeros(n: nat): (r: seq<bool>)
    ensures |r| == n
  {
    seq(n, i => false)
  }

  /** Groups of five, the last one filled up with zeros. */
  function Digits(bits: seq<bool>): (r: seq<Byte>)
    ensures |r| == (|bits| + 4) / 5
  {
    if bits == [] then []
    else if |bits| < 5 then [ToDigit(bits + Zeros(5 - |bits|))]
    else [ToDigit(bits[..5])] + Digits(bits[5..])
  }

  function AllDigitBits(ds: seq<Byte>): (r: seq<bool>)
    ensures |r| == 5 * |ds|
  {
    if ds == [] then [] else DigitBits(ds[0]) + AllDigitBits(ds[1..])
  }

  // ---- the alphabet -------------------------------------------------------------------------

  /** "ABCDEFGHIJKLMNOPQRSTUVWXYZ234567"[d] */
  function Letter(d: Byte): Byte
    requires d < 32
  {
    if d < 26 then 0x41 + d else 0x32 + (d - 26)
  }

  predicate IsSeparator(c: Byte) { c == 0x20 || c == 0x09 || c == 0x0D || c == 0x0A || c == 0x2D }

  /** Characters that are easily mistyped: 0 for O, 1 for L, 8 for B. */
  function Corrected(c: Byte): Byte
  {
    if c == 0x30 then 0x4F else if c == 0x31 then 0x4C else if c == 0x38 then 0x42 else c
  }

  function DigitOf(c: Byte): (d: Option<Byte>)
    ensures d.Some? ==> d.value < 32
  {
    var ch := Corrected(c);
    if 0x41 <= ch <= 0x5A || 0x61 <= ch <= 0x7A then Some((ch & 0x1F) - 1)
    else if 0x32 <= ch <= 0x37 then Some(ch - (0x32 - 26))
    else None
  }

  lemma LetterDigit(d: Byte)
    requires d < 32
    ensures DigitOf(Letter(d)) == Some(d) && !IsSeparator(Letter(d)) && Letter(d) != 0
  {
  }

  // ---- encoding and decoding, by their bits -------------------------------------------------

  function Letters(ds: seq<Byte>): (r: seq<Byte>)
    requires forall i :: 0 <= i < |ds| ==> ds[i] < 32
    ensures |r| == |ds|
  {
    seq(|ds|, i requires 0 <= i < |ds| => Letter(ds[i]))
  }

  lemma {:induction false} DigitsSmall(bits: seq<bool>)
    ensures forall i :: 0 <= i < |Digits(bits)| ==> Digits(bits)[i] < 32
  {
    if |bits| >= 5 { DigitsSmall(bits[5..]); }
  }

  function Encode(data: seq<Byte>): seq<Byte>
  {
    DigitsSmall(Bits(data));
    Letters(Digits(Bits(data)))
  }

  /** The bits read from a text until `need` of them are there; nothing if a character that is
      neither a digit nor a separator comes first. */
  function Gather(text: seq<Byte>, need: nat): Option<seq<bool>>
  {
    if need == 0 || text == [] then Some([])
    else if IsSeparator(text[0]) then Gather(text[1..], need)
    else
      match DigitOf(text[0])
      case None => None
      case Some(d) =>
        match Gather(text[1..], if need > 5 then need - 5 else 0)
        case None => None
        case Some(rest) => Some(DigitBits(d) + rest)
  }

  /** base32_decode into a buffer of `size` bytes. */
  function Decode(text: seq<Byte>, size: nat): Option<seq<Byte>>
  {
    match Gather(text, 8 * size) case None => None case Some(bits) => Some(Bytes(bits))
  }

  // ---- decoding an encoding -----------------------------------------------------------------

  lemma ByteRoundTrip(b: Byte)
    ensures ToByte(ByteBits(b)) == b
  {
  }

  lemma DigitRoundTrip(bits: seq<bool>)
    requires |bits| == 5
    ensures DigitBits(ToDigit(bits)) == bits && ToDigit(bits) < 32
  {
    var d := ToDigit(bits);
    assert (d & 0x10 != 0) == bits[0] && (d & 0x08 != 0) == bits[1] && (d & 0x04 != 0) == bits[2]
        && (d & 0x02 != 0) == bits[3] && (d & 0x01 != 0) == bits[4];
  }

  /** Bytes cut from the bits of bytes are those bytes, whatever few bits follow. */
  lemma {:induction false} BytesOfBits(data: seq<Byte>, rest: seq<bool>)
    requires |rest| < 8
    ensures Bytes(Bits(data) + rest) == data
  {
    hide ByteBits, ToByte;
    if data != [] {
      var tail := Bits(data[1..]);
      ByteRoundTrip(data[0]);
      assert Bits(data) + rest == ByteBits(data[0]) + (tail + rest);
      var all := ByteBits(data[0]) + (tail + rest);
      assert all[..8] == ByteBits(data[0]) && all[8..] == tail + rest;
      BytesOfBits(data[1..], rest);
    }
  }

  /** The digits' bits are the bits, filled up with fewer than five zeros. */
  lemma {:induction false} BitsOfDigits(bits: seq<bool>)
    ensures AllDigitBits(Digits(bits)) == bits + Zeros((5 - |bits| % 5) % 5)
  {
    hide Digits, AllDigitBits, DigitBits, ToDigit, Zeros;
    NoDigits();
    if bits == [] {
    } else if |bits| < 5 {
      var full := bits + Zeros(5 - |bits|);
      DigitRoundTrip(full);
      LastDigit(bits);
      DigitBitsStep(ToDigit(full), []);
      assert full + [] == full;
    } else {
      var first, rest := bits[..5], bits[5..];
      DigitRoundTrip(first);
      BitsOfDigits(rest);
      assert bits == first + rest;
      DigitsStep(first, rest);
      DigitBitsStep(ToDigit(first), Digits(rest));
      var zeros := Zeros((5 - |rest| % 5) % 5);
      assert first + (rest + zeros) == bits + zeros;
    }
  }

  lemma NoDigits()
    ensures Digits([]) == [] && AllDigitBits([]) == [] && Zeros(0) == []
  {
  }

  lemma LastDigit(bits: seq<bool>)
    requires 0 < |bits| < 5
    ensures Digits(bits) == [ToDigit(bits + Zeros(5 - |bits|))] + []
  {
    hide ToDigit;
  }

  lemma DigitsStep(first: seq<bool>, rest: seq<bool>)
    requires |first| == 5
    ensures Digits(first + rest) == [ToDigit(first)] + Digits(rest)
  {
    hide ToDigit;
    assert (first + rest)[..5] == first && (first + rest)[5..] == rest;
  }

  lemma DigitBitsStep(d: Byte, ds: seq<Byte>)
    ensures AllDigitBits([d] + ds) == DigitBits(d) + AllDigitBits(ds)
  {
    hide DigitBits;
    assert ([d] + ds)[1..] == ds;
  }

  /** Every letter of an encoding is read as its digit. */
  lemma {:induction false} GatherLetters(ds: seq<Byte>, need: nat)
    requires forall i :: 0 <= i < |ds| ==> ds[i] < 32
    requires ds != [] ==> need > 5 * (|ds| - 1)
    ensures Gather(Letters(ds), need) == Some(AllDigitBits(ds))
  {
    hide DigitBits, DigitOf, IsSeparator, Letter;
    if ds != [] {
      var text := Letters(ds);
      LetterDigit(ds[0]);
      assert text[0] == Letter(ds[0]) && text[1..] == Letters(ds[1..]);
      GatherLetters(ds[1..], if need > 5 then need - 5 else 0);
    }
  }

  /** Decoding an encoding gives back the bytes, for every buffer that can hold them. */
  lemma DecodeEncode(data: seq<Byte>, size: nat)
    requires size >= |data|
    ensures Decode(Encode(data), size) == Some(data)
  {
    hide Bits, Digits, Gather, Bytes, AllDigitBits;
    var bits := Bits(data);
    var ds := Digits(bits);
    DigitsSmall(bits);
    GatherLetters(ds, 8 * size);
    BitsOfDigits(bits);
    BytesOfBits(data, Zeros((5 - |bits| % 5) % 5));
  }

  // ---- separators, case and mistyped characters do not matter ---------------------------------

  function Upper(c: Byte): Byte { if 0x61 <= c <= 0x7A then c - 0x20 else c }

  /** The text without separators, in upper case, with mistyped characters corrected. */
  function Canonical(text: seq<Byte>): seq<Byte>
  {
    if text == [] then []
    else if IsSeparator(text[0]) then Canonical(text[1..])
    else [Upper(Corrected(text[0]))] + Canonical(text[1..])
  }

  lemma CanonicalDigit(c: Byte)
    requires !IsSeparator(c)
    ensures DigitOf(Upper(Corrected(c))) == DigitOf(c) && !IsSeparator(Upper(Corrected(c)))
  {
  }

  lemma {:induction false} GatherCanonical(text: seq<Byte>, need: nat)
    ensures Gather(Canonical(text), need) == Gather(text, need)
  {
    hide DigitOf, IsSeparator, Upper, Corrected, DigitBits;
    if text != [] && need > 0 {
      GatherCanonical(text[1..], need);
      if !IsSeparator(text[0]) {
        CanonicalDigit(text[0]);
        GatherCanonical(text[1..], if need > 5 then need - 5 else 0);
        assert Canonical(text)[1..] == Canonical(text[1..]);
      }
    }
  }

  /** Texts that differ only in separators, case and the corrected characters decode alike. */
  lemma DecodeCanonical(a: seq<Byte>, b: seq<Byte>, size: nat)
    ensures Canonical(a) == Canonical(b) ==> Decode(a, size) == Decode(b, size)
  {
    GatherCanonical(a, 8 * size);
    GatherCanonical(b, 8 * size);
  }

  // ---- in characters --------------------------------------------------------------------------------

  /** Two characters that stand for the same digit can take each other's place. */
  lemma {:induction false} SameDigit(a: seq<Byte>, x: Byte, y: Byte, b: seq<Byte>, need: nat)
    requires !IsSeparator(x) && !IsSeparator(y) && DigitOf(x) == DigitOf(y)
    ensures Gather(a + [x] + b, need) == Gather(a + [y] + b, need)
  {
    hide DigitOf, IsSeparator, DigitBits;
    if a == [] {
      assert (a + [x] + b)[1..] == b && (a + [y] + b)[1..] == b;
    } else {
      assert (a + [x] + b)[1..] == a[1..] + [x] + b && (a + [y] + b)[1..] == a[1..] + [y] + b;
      SameDigit(a[1..], x, y, b, need);
      SameDigit(a[1..], x, y, b, if need > 5 then need - 5 else 0);
    }
  }

  lemma {:induction false} Skipped(a: seq<Byte>, x: Byte, b: seq<Byte>, need: nat)
    requires IsSeparator(x)
    ensures Gather(a + [x] + b, need) == Gather(a + b, need)
  {
    hide DigitOf, IsSeparator, DigitBits;
    if a == [] {
      assert a + [x] + b == [x] + b && ([x] + b)[1..] == b && a + b == b;
      if need == 0 || b == [] { GatherNothing(b, need); }
    } else {
      assert (a + [x] + b)[1..] == a[1..] + [x] + b && (a + b)[1..] == a[1..] + b;
      Skipped(a[1..], x, b, need);
      Skipped(a[1..], x, b, if need > 5 then need - 5 else 0);
    }
  }

  lemma GatherNothing(text: seq<Byte>, need: nat)
    requires need == 0 || text == []
    ensures Gather(text, need) == Some([])
  {
  }

  /** '0' reads as 'O', '1' as 'L', '8' as 'B'. */
  lemma MistypedRead(a: seq<Byte>, b: seq<Byte>, size: nat)
    ensures Decode(a + ['0' as Byte] + b, size) == Decode(a + ['O' as Byte] + b, size)
    ensures Decode(a + ['1' as Byte] + b, size) == Decode(a + ['L' as Byte] + b, size)
    ensures Decode(a + ['8' as Byte] + b, size) == Decode(a + ['B' as Byte] + b, size)
  {
    hide *;
    MistypedDigits();
    SameDecode(a, '0' as Byte, 'O' as Byte, b, size);
    SameDecode(a, '1' as Byte, 'L' as Byte, b, size);
    SameDecode(a, '8' as Byte, 'B' as Byte, b, size);
  }

  lemma MistypedDigits()
    ensures DigitOf('0' as Byte) == DigitOf('O' as Byte) && DigitOf('1' as Byte) == DigitOf('L' as Byte)
    ensures DigitOf('8' as Byte) == DigitOf('B' as Byte)
    ensures !IsSeparator('0' as Byte) && !IsSeparator('O' as Byte) && !IsSeparator('1' as Byte)
    ensures !IsSeparator('L' as Byte) && !IsSeparator('8' as Byte) && !IsSeparator('B' as Byte)
  {
  }

  lemma SameDecode(a: seq<Byte>, x: Byte, y: Byte, b: seq<Byte>, size: nat)
    requires !IsSeparator(x) && !IsSeparator(y) && DigitOf(x) == DigitOf(y)
    ensures Decode(a + [x] + b, size) == Decode(a + [y] + b, size)
  {
    hide Gather, Bytes, IsSeparator, DigitOf;
    SameDigit(a, x, y, b, 8 * size);
  }

  /** Blanks, tabs, line ends and dashes are skipped. */
  lemma SeparatorsSkipped(a: seq<Byte>, c: char, b: seq<Byte>, size: nat)
    requires c == ' ' || c == '\t' || c == '\r' || c == '\n' || c == '-'
    ensures Decode(a + [c as Byte] + b, size) == Decode(a + b, size)
  {
    hide Gather, Bytes;
    Skipped(a, c as Byte, b, 8 * size);
  }

  /** The digits are those of table 3 of RFC 4648, ... */
  lemma AlphabetIs()
    ensures Letter(0) == 'A' as Byte && Letter(1) == 'B' as Byte && Letter(2) == 'C' as Byte && Letter(3) == 'D' as Byte
    ensures Letter(4) == 'E' as Byte && Letter(5) == 'F' as Byte && Letter(6) == 'G' as Byte && Letter(7) == 'H' as Byte
    ensures Letter(8) == 'I' as Byte && Letter(9) == 'J' as Byte
         && Letter(10) == 'K' as Byte && Letter(11) == 'L' as Byte
    ensures Letter(12) == 'M' as Byte && Letter(13) == 'N' as Byte
         && Letter(14) == 'O' as Byte && Letter(15) == 'P' as Byte
    ensures Letter(16) == 'Q' as Byte && Letter(17) == 'R' as Byte
         && Letter(18) == 'S' as Byte && Letter(19) == 'T' as Byte
    ensures Letter(20) == 'U' as Byte && Letter(21) == 'V' as Byte
         && Letter(22) == 'W' as Byte && Letter(23) == 'X' as Byte
    ensures Letter(24) == 'Y' as Byte && Letter(25) == 'Z' as Byte
         && Letter(26) == '2' as Byte && Letter(27) == '3' as Byte
    ensures Letter(28) == '4' as Byte && Letter(29) == '5' as Byte
         && Letter(30) == '6' as Byte && Letter(31) == '7' as Byte
  {
    hide Letter;
    FirstLetters();
    SecondLetters();
    ThirdLetters();
    LastLetters();
  }

  lemma FirstLetters()
    ensures Letter(0) == 'A' as Byte && Letter(1) == 'B' as Byte && Letter(2) == 'C' as Byte && Letter(3) == 'D' as Byte
    ensures Letter(4) == 'E' as Byte && Letter(5) == 'F' as Byte && Letter(6) == 'G' as Byte && Letter(7) == 'H' as Byte
  {
  }

  lemma SecondLetters()
    ensures Letter(8) == 'I' as Byte && Letter(9) == 'J' as Byte
         && Letter(10) == 'K' as Byte && Letter(11) == 'L' as Byte
    ensures Letter(12) == 'M' as Byte && Letter(13) == 'N' as Byte
         && Letter(14) == 'O' as Byte && Letter(15) == 'P' as Byte
  {
  }

  lemma ThirdLetters()
    ensures Letter(16) == 'Q' as Byte && Letter(17) == 'R' as Byte
         && Letter(18) == 'S' as Byte && Letter(19) == 'T' as Byte
    ensures Letter(20) == 'U' as Byte && Letter(21) == 'V' as Byte
         && Letter(22) == 'W' as Byte && Letter(23) == 'X' as Byte
  {
  }

  lemma LastLetters()
    ensures Letter(24) == 'Y' as Byte && Letter(25) == 'Z' as Byte
         && Letter(26) == '2' as Byte && Letter(27) == '3' as Byte
    ensures Letter(28) == '4' as Byte && Letter(29) == '5' as Byte
         && Letter(30) == '6' as Byte && Letter(31) == '7' as Byte
  {
  }

  /** ... small letters count as capitals, and nothing else is a digit. */
  lemma DigitIff(c: Byte)
    ensures DigitOf(c).Some? <==>
              'A' as Byte <= c <= 'Z' as Byte || 'a' as Byte <= c <= 'z' as Byte || '2' as Byte <= c <= '7' as Byte
              || c == '0' as Byte || c == '1' as Byte || c == '8' as Byte
    ensures 'a' as Byte <= c <= 'z' as Byte ==> DigitOf(c) == DigitOf(c - 32)
  {
  }

  // ---- encoding in chunks of five bytes -------------------------------------------------------

  lemma {:induction false} BitsConcat(a: seq<Byte>, b: seq<Byte>)
    ensures Bits(a + b) == Bits(a) + Bits(b)
  {
    hide Bits, ByteBits;
    if a == [] {
      assert a + b == b;
      BitsNone();
      assert [] + Bits(b) == Bits(b);
    } else {
      var rest := a[1..];
      BitsConcat(rest, b);
      assert a == [a[0]] + rest && a + b == [a[0]] + (rest + b);
      BitsStep(a[0], rest);
      BitsStep(a[0], rest + b);
      assert ByteBits(a[0]) + (Bits(rest) + Bits(b)) == ByteBits(a[0]) + Bits(rest) + Bits(b);
    }
  }

  lemma BitsNone()
    ensures Bits([]) == []
  {
  }

  lemma BitsStep(b: Byte, rest: seq<Byte>)
    ensures Bits([b] + rest) == ByteBits(b) + Bits(rest)
  {
    hide ByteBits;
    assert ([b] + rest)[1..] == rest;
  }

  lemma {:induction false} DigitsConcat(a: seq<bool>, b: seq<bool>)
    requires |a| % 5 == 0
    ensures Digits(a + b) == Digits(a) + Digits(b)
  {
    hide ToDigit;
    if a == [] {
      assert a + b == b;
    } else {
      DigitsConcat(a[5..], b);
      assert (a + b)[5..] == a[5..] + b && (a + b)[..5] == a[..5];
    }
  }

  /** A chunk of a multiple of five bytes leaves no bits over: the encodings join. */
  lemma EncodeInChunks(a: seq<Byte>, b: seq<Byte>)
    requires |a| % 5 == 0
    ensures Encode(a + b) == Encode(a) + Encode(b)
  {
    hide Bits, Digits, Letters, Encode;
    BitsConcat(a, b);
    DigitsConcat(Bits(a), Bits(b));
    EncodeIs(a);
    EncodeIs(b);
    EncodeIs(a + b);
    LettersConcat(Digits(Bits(a)), Digits(Bits(b)));
  }

  lemma LettersConcat(a: seq<Byte>, b: seq<Byte>)
    requires forall i :: 0 <= i < |a| ==> a[i] < 32
    requires forall i :: 0 <= i < |b| ==> b[i] < 32
    ensures Letters(a + b) == Letters(a) + Letters(b)
  {
    hide Letter;
  }

  lemma EncodeIs(data: seq<Byte>)
    ensures forall i :: 0 <= i < |Digits(Bits(data))| ==> Digits(Bits(data))[i] < 32
    ensures Encode(data) == Letters(Digits(Bits(data)))
  {
    hide Letters, Digits, Bits;
    DigitsSmall(Bits(data));
  }

  // ---- the accumulator ------------------------------------------------------------------------

  function BitAt(x: bv32, k: nat): bool
    requires k < 12
  {
    match k
    case 0 => x & 0x1 != 0
    case 1 => x & 0x2 != 0
    case 2 => x & 0x4 != 0
    case 3 => x & 0x8 != 0
    case 4 => x & 0x10 != 0
    case 5 => x & 0x20 != 0
    case 6 => x & 0x40 != 0
    case 7 => x & 0x80 != 0
    case 8 => x & 0x100 != 0
    case 9 => x & 0x200 != 0
    case 10 => x & 0x400 != 0
    case _ => x & 0x800 != 0
  }

  /** The low `n` bits, most significant first; the accumulators keep no more than twelve. What
      stands above them is left over from before, and is shifted out in the end. */
  function LowBits(x: bv32, n: nat): (r: seq<bool>)
    requires n <= 12
    ensures |r| == n
  {
    if n == 0 then [] else [BitAt(x, n - 1)] + LowBits(x, n - 1)
  }

  /** The bits from position `m` up come first. */
  lemma {:induction false} TopBits(x: bv32, m: nat, bits: seq<bool>)
    requires m + |bits| <= 12
    requires forall i :: 0 <= i < |bits| ==> bits[i] == BitAt(x, m + |bits| - 1 - i)
    ensures LowBits(x, m + |bits|) == bits + LowBits(x, m)
  {
    hide BitAt;
    if bits == [] {
      assert bits + LowBits(x, m) == LowBits(x, m);
    } else {
      TopBits(x, m, bits[1..]);
      assert bits == [bits[0]] + bits[1..];
    }
  }

  /** Shifting up moves the low bits above `bits`. */
  lemma {:induction false} ShiftedBits(y: bv32, x: bv32, n: nat, bits: seq<bool>)
    requires n + |bits| <= 12
    requires forall i :: 0 <= i < |bits| ==> bits[i] == BitAt(y, |bits| - 1 - i)
    requires forall k :: |bits| <= k < n + |bits| ==> BitAt(y, k) == BitAt(x, k - |bits|)
    ensures LowBits(y, n + |bits|) == LowBits(x, n) + bits
  {
    hide BitAt;
    if n > 0 {
      ShiftedBits(y, x, n - 1, bits);
    } else {
      TopBits(y, 0, bits);
    }
  }

  /** `y` has the bits of a digit below those of `x`. */
  predicate DigitBelow(y: bv32, x: bv32, d: Byte)
  {
    && (d & 0x10 != 0) == BitAt(y, 4) && (d & 0x08 != 0) == BitAt(y, 3) && (d & 0x04 != 0) == BitAt(y, 2)
    && (d & 0x02 != 0) == BitAt(y, 1) && (d & 0x01 != 0) == BitAt(y, 0)
    && BitAt(y, 5) == BitAt(x, 0) && BitAt(y, 6) == BitAt(x, 1) && BitAt(y, 7) == BitAt(x, 2)
    && BitAt(y, 8) == BitAt(x, 3) && BitAt(y, 9) == BitAt(x, 4) && BitAt(y, 10) == BitAt(x, 5)
    && BitAt(y, 11) == BitAt(x, 6)
  }

  lemma PushDigit(x: bv32, d: Byte, n: nat)
    requires d < 32 && n <= 7
    ensures LowBits((x << 5) | (d as bv32), n + 5) == LowBits(x, n) + DigitBits(d)
  {
    hide BitAt, LowBits, DigitBelow;
    PushedDigit(x, d);
    JoinedDigit((x << 5) | (d as bv32), x, d, n);
  }

  lemma PushedDigit(x: bv32, d: Byte)
    requires d < 32
    ensures DigitBelow((x << 5) | (d as bv32), x, d)
  {
  }

  lemma JoinedDigit(y: bv32, x: bv32, d: Byte, n: nat)
    requires d < 32 && n <= 7 && DigitBelow(y, x, d)
    ensures LowBits(y, n + 5) == LowBits(x, n) + DigitBits(d)
  {
    hide BitAt, LowBits;
    ShiftedBits(y, x, n, DigitBits(d));
  }

  /** `y` has the bits of a byte below those of `x`. */
  predicate ByteBelow(y: bv32, x: bv32, b: Byte)
  {
    && (b & 0x80 != 0) == BitAt(y, 7) && (b & 0x40 != 0) == BitAt(y, 6) && (b & 0x20 != 0) == BitAt(y, 5)
    && (b & 0x10 != 0) == BitAt(y, 4) && (b & 0x08 != 0) == BitAt(y, 3) && (b & 0x04 != 0) == BitAt(y, 2)
    && (b & 0x02 != 0) == BitAt(y, 1) && (b & 0x01 != 0) == BitAt(y, 0)
    && BitAt(y, 8) == BitAt(x, 0) && BitAt(y, 9) == BitAt(x, 1) && BitAt(y, 10) == BitAt(x, 2)
    && BitAt(y, 11) == BitAt(x, 3)
  }

  lemma PushByte(x: bv32, b: Byte, n: nat)
    requires n <= 4
    ensures LowBits((x << 8) | (b as bv32), n + 8) == LowBits(x, n) + ByteBits(b)
  {
    hide BitAt, LowBits, ByteBelow;
    PushedByte(x, b);
    JoinedByte((x << 8) | (b as bv32), x, b, n);
  }

  lemma PushedByte(x: bv32, b: Byte)
    ensures ByteBelow((x << 8) | (b as bv32), x, b)
  {
  }

  lemma JoinedByte(y: bv32, x: bv32, b: Byte, n: nat)
    requires n <= 4 && ByteBelow(y, x, b)
    ensures LowBits(y, n + 8) == LowBits(x, n) + ByteBits(b)
  {
    hide BitAt, LowBits;
    ShiftedBits(y, x, n, ByteBits(b));
  }

  lemma PopByte(x: bv32, m: nat)
    requires m <= 4
    ensures LowBits(x, m + 8) == ByteBits(((x >> m) & 0xFF) as Byte) + LowBits(x, m)
  {
    PoppedByte(x, m);
    TopByte(x, m, ((x >> m) & 0xFF) as Byte);
  }

  lemma TopByte(x: bv32, m: nat, b: Byte)
    requires m <= 4
    requires (b & 0x80 != 0) == BitAt(x, m + 7) && (b & 0x40 != 0) == BitAt(x, m + 6)
          && (b & 0x20 != 0) == BitAt(x, m + 5) && (b & 0x10 != 0) == BitAt(x, m + 4)
          && (b & 0x08 != 0) == BitAt(x, m + 3) && (b & 0x04 != 0) == BitAt(x, m + 2)
          && (b & 0x02 != 0) == BitAt(x, m + 1) && (b & 0x01 != 0) == BitAt(x, m)
    ensures LowBits(x, m + 8) == ByteBits(b) + LowBits(x, m)
  {
    hide BitAt, LowBits;
    TopBits(x, m, ByteBits(b));
  }

  lemma PoppedByte(x: bv32, m: nat)
    requires m <= 4
    ensures var b := ((x >> m) & 0xFF) as Byte;
            && (b & 0x80 != 0) == BitAt(x, m + 7) && (b & 0x40 != 0) == BitAt(x, m + 6)
            && (b & 0x20 != 0) == BitAt(x, m + 5) && (b & 0x10 != 0) == BitAt(x, m + 4)
            && (b & 0x08 != 0) == BitAt(x, m + 3) && (b & 0x04 != 0) == BitAt(x, m + 2)
            && (b & 0x02 != 0) == BitAt(x, m + 1) && (b & 0x01 != 0) == BitAt(x, m)
  {
    if m == 0 {} else if m == 1 {} else if m == 2 {} else if m == 3 {} else {}
  }

  lemma PopDigit(x: bv32, m: nat)
    requires m <= 7
    ensures var d := ((x >> m) & 0x1F) as Byte;
            d < 32 && LowBits(x, m + 5) == DigitBits(d) + LowBits(x, m)
  {
    PoppedDigit(x, m);
    TopDigit(x, m, ((x >> m) & 0x1F) as Byte);
  }

  lemma TopDigit(x: bv32, m: nat, d: Byte)
    requires m <= 7
    requires (d & 0x10 != 0) == BitAt(x, m + 4) && (d & 0x08 != 0) == BitAt(x, m + 3)
          && (d & 0x04 != 0) == BitAt(x, m + 2) && (d & 0x02 != 0) == BitAt(x, m + 1)
          && (d & 0x01 != 0) == BitAt(x, m)
    ensures LowBits(x, m + 5) == DigitBits(d) + LowBits(x, m)
  {
    hide BitAt, LowBits;
    TopBits(x, m, DigitBits(d));
  }

  lemma PoppedDigit(x: bv32, m: nat)
    requires m <= 7
    ensures var d := ((x >> m) & 0x1F) as Byte;
            && d < 32
            && (d & 0x10 != 0) == BitAt(x, m + 4) && (d & 0x08 != 0) == BitAt(x, m + 3)
            && (d & 0x04 != 0) == BitAt(x, m + 2) && (d & 0x02 != 0) == BitAt(x, m + 1)
            && (d & 0x01 != 0) == BitAt(x, m)
  {
    if m == 0 {} else if m == 1 {} else if m == 2 {} else if m == 3 {}
    else if m == 4 {} else if m == 5 {} else if m == 6 {} else {}
  }

  /** The last bits, filled up to a digit. */
  function Padded(buffer: bv32, n: nat): bv32
    requires 0 < n < 5
  {
    buffer << (5 - n)
  }

  lemma PushZeros(x: bv32, n: nat)
    requires 0 < n < 5
    ensures LowBits(Padded(x, n), 5) == LowBits(x, n) + Zeros(5 - n)
  {
    hide BitAt, LowBits, Padded;
    PushedZeros(x, n, Padded(x, n));
    ShiftedBits(Padded(x, n), x, n, Zeros(5 - n));
  }

  lemma PushedZeros(x: bv32, n: nat, y: bv32)
    requires 0 < n < 5 && y == Padded(x, n)
    ensures forall k :: 0 <= k < 5 - n ==> !BitAt(y, k)
    ensures forall k :: 5 - n <= k < 5 ==> BitAt(y, k) == BitAt(x, k - (5 - n))
  {
    if n == 1 {} else if n == 2 {} else if n == 3 {} else {}
  }

  // ---- the two loops --------------------------------------------------------------------------

  /** The bytes written and the bits that wait in the accumulator. */
  function Read(out: seq<Byte>, buffer: bv32, n: nat): seq<bool>
    requires n <= 12
  {
    Bits(out) + LowBits(buffer, n)
  }

  /** Five bits more at the low end. */
  function WithDigit(buffer: bv32, d: Byte): bv32 { (buffer << 5) | (d as bv32) }

  /** The eight bits above the lowest `m`. */
  function ByteOf(buffer: bv32, m: nat): Byte
    requires m <= 4
  {
    ((buffer >> m) & 0xFF) as Byte
  }

  /** One digit more in the decoder's accumulator ... */
  lemma DecoderReads(out: seq<Byte>, buffer: bv32, n: nat, d: Byte)
    requires n < 8 && d < 32
    ensures Read(out, WithDigit(buffer, d), n + 5) == Read(out, buffer, n) + DigitBits(d)
  {
    PushDigit(buffer, d, n);
    hide *;
    MoreRead(out, buffer, n, WithDigit(buffer, d), DigitBits(d));
  }

  lemma MoreRead(out: seq<Byte>, buffer: bv32, n: nat, y: bv32, more: seq<bool>)
    requires n + |more| <= 12 && LowBits(y, n + |more|) == LowBits(buffer, n) + more
    ensures Read(out, y, n + |more|) == Read(out, buffer, n) + more
  {
    hide LowBits, Bits;
    assert Bits(out) + (LowBits(buffer, n) + more) == Bits(out) + LowBits(buffer, n) + more;
  }

  /** ... and a byte out of it. */
  lemma DecoderWrites(out: seq<Byte>, y: bv32, m: nat)
    requires m <= 4
    ensures Read(out + [ByteOf(y, m)], y, m) == Read(out, y, m + 8)
  {
    PopByte(y, m);
    ByteRead(out, y, m, ByteOf(y, m));
  }

  lemma ByteRead(out: seq<Byte>, y: bv32, m: nat, b: Byte)
    requires m <= 4 && LowBits(y, m + 8) == ByteBits(b) + LowBits(y, m)
    ensures Read(out + [b], y, m) == Read(out, y, m + 8)
  {
    hide LowBits, Bits, ByteBits;
    AppendBits(out, b);
    assert Bits(out) + (ByteBits(b) + LowBits(y, m)) == Bits(out) + ByteBits(b) + LowBits(y, m);
  }

  lemma AppendBits(out: seq<Byte>, b: Byte)
    ensures Bits(out + [b]) == Bits(out) + ByteBits(b)
  {
    hide ByteBits;
    BitsConcat(out, [b]);
    assert [b][1..] == [];
  }

  function Need(size: nat, have: nat): nat { if 8 * size > have then 8 * size - have else 0 }

  /** What has been gathered so far, and what the rest of the text will give. */
  predicate Gathered(text: seq<Byte>, size: nat, ptr: nat, bits: seq<bool>)
    requires ptr <= |text|
  {
    Gather(text, 8 * size) ==
      match Gather(text[ptr..], Need(size, |bits|))
      case None => None
      case Some(rest) => Some(bits + rest)
  }

  lemma GatherStep(text: seq<Byte>, size: nat, ptr: nat, bits: seq<bool>)
    requires ptr < |text| && Gathered(text, size, ptr, bits) && |bits| < 8 * size
    ensures var c := text[ptr];
            if IsSeparator(c) then Gathered(text, size, ptr + 1, bits)
            else match DigitOf(c)
                 case None => Gather(text, 8 * size).None?
                 case Some(d) => Gathered(text, size, ptr + 1, bits + DigitBits(d))
  {
    hide DigitOf, IsSeparator, DigitBits;
    var rest := text[ptr..];
    assert rest[0] == text[ptr] && rest[1..] == text[ptr + 1..];
    if !IsSeparator(text[ptr]) && DigitOf(text[ptr]).Some? {
      var d := DigitBits(DigitOf(text[ptr]).value);
      var more := Gather(text[ptr + 1..], Need(size, |bits + d|));
      if more.Some? { assert bits + (d + more.value) == bits + d + more.value; }
    }
  }

  /** When the buffer is full or the text is at its end, the bytes are complete. */
  lemma GatherEnds(text: seq<Byte>, size: nat, ptr: nat, out: seq<Byte>, buffer: bv32, n: nat)
    requires n < 8 && ptr <= |text| && Gathered(text, size, ptr, Read(out, buffer, n))
    requires |out| >= size || ptr == |text|
    ensures Decode(text, size) == Some(out)
  {
    hide Bits, Bytes, LowBits;
    var bits := Read(out, buffer, n);
    assert Gather(text[ptr..], Need(size, |bits|)) == Some([]);
    assert bits + [] == bits;
    BytesOfBits(out, LowBits(buffer, n));
  }

  /** base32_decode of a NUL-terminated text into `size` bytes. The text and the result may be the
      same memory: the bytes written never catch up with the characters read. */
  method Base32Decode(encoded: array<Byte>, ghost text: seq<Byte>, result: array<Byte>, size: nat)
    returns (count: int)
    requires |text| < encoded.Length && encoded[..|text|] == text && encoded[|text|] == 0
    requires forall i :: 0 <= i < |text| ==> text[i] != 0
    requires size <= result.Length
    modifies result
    ensures var bytes := Decode(text, size);
            && (count == -1 <==> bytes.None?)
            && (bytes.Some? ==>
                  && 0 <= count == |bytes.value| <= size && result[..count] == bytes.value
                  && (count < size ==> result[count] == 0))
  {
    hide ByteBits, DigitBits, LowBits, Gather, Bytes, DigitOf, IsSeparator, ToByte, Gathered, Decode, Bits, Read,
         WithDigit, ByteOf;
    var buffer: bv32 := 0;
    var bitsLeft := 0;
    count := 0;
    var ptr := 0;
    ghost var out: seq<Byte> := [];
    assert encoded[0..|text| + 1] == text + [0];
    GatherStarts(text, size);
    while count < size && encoded[ptr] != 0
      invariant 0 <= count <= size && 0 <= ptr <= |text| && 0 <= bitsLeft < 8
      invariant count == |out| && result[..count] == out
      invariant 8 * count + bitsLeft <= 5 * ptr
      invariant encoded[ptr..|text| + 1] == text[ptr..] + [0]
      invariant Gathered(text, size, ptr, Read(out, buffer, bitsLeft))
      decreases |text| - ptr
    {
      assert encoded[ptr] == encoded[ptr..|text| + 1][0];
      ReadLength(out, buffer, bitsLeft);
      GatherStep(text, size, ptr, Read(out, buffer, bitsLeft));
      var ch := encoded[ptr];
      assert encoded[ptr + 1..|text| + 1] == encoded[ptr..|text| + 1][1..];
      ptr := ptr + 1;
      if IsSeparator(ch) { continue; }
      var digit := DigitOf(ch);
      if digit.None? {
        assert Decode(text, size).None? by { DecodeNone(text, size); }
        return -1;
      }
      DecoderReads(out, buffer, bitsLeft, digit.value);
      buffer := WithDigit(buffer, digit.value);
      bitsLeft := bitsLeft + 5;
      if bitsLeft >= 8 {
        DecoderWrites(out, buffer, bitsLeft - 8);
        var byte := ByteOf(buffer, bitsLeft - 8);
        ghost var before := encoded[ptr..|text| + 1];
        result[count] := byte;
        assert encoded[ptr..|text| + 1] == before;
        count := count + 1;
        out := out + [byte];
        bitsLeft := bitsLeft - 8;
      }
    }
    assert encoded[ptr] == encoded[ptr..|text| + 1][0];
    GatherEnds(text, size, ptr, out, buffer, bitsLeft);
    if count < size {
      result[count] := 0;
      assert result[..count] == out;
    }
  }

  lemma GatherStarts(text: seq<Byte>, size: nat)
    ensures Gathered(text, size, 0, Read([], 0, 0))
  {
    assert text[0..] == text;
    assert Read([], 0, 0) == [];
    match Gather(text, 8 * size)
    case None =>
    case Some(bits) => assert [] + bits == bits;
  }

  lemma ReadLength(out: seq<Byte>, buffer: bv32, n: nat)
    requires n <= 12
    ensures |Read(out, buffer, n)| == 8 * |out| + n
  {
  }

  lemma DecodeNone(text: seq<Byte>, size: nat)
    requires Gather(text, 8 * size).None?
    ensures Decode(text, size).None?
  {
  }

  // ---- the encoder ----------------------------------------------------------------------------

  /** The bits that are still to be encoded. */
  function Pending(buffer: bv32, n: nat, rest: seq<Byte>): seq<bool>
    requires n <= 12
  {
    LowBits(buffer, n) + Bits(rest)
  }

  /** A byte more at the low end. */
  function WithByte(buffer: bv32, b: Byte): bv32 { (buffer << 8) | (b as bv32) }

  /** The five bits above the lowest `m`. */
  function DigitFrom(buffer: bv32, m: nat): (d: Byte)
    requires m <= 7
    ensures d < 32 && LowBits(buffer, m + 5) == DigitBits(d) + LowBits(buffer, m)
  {
    PopDigit(buffer, m);
    ((buffer >> m) & 0x1F) as Byte
  }

  lemma DigitFromBits(d: Byte)
    requires d < 32
    ensures ToDigit(DigitBits(d)) == d
  {
  }

  /** Taking a byte in leaves the pending bits as they are. */
  lemma EncoderReads(buffer: bv32, n: nat, rest: seq<Byte>)
    requires n <= 4 && rest != []
    ensures Pending(WithByte(buffer, rest[0]), n + 8, rest[1..]) == Pending(buffer, n, rest)
  {
    PushByte(buffer, rest[0], n);
    ByteJoins(buffer, n, WithByte(buffer, rest[0]), rest);
  }

  lemma ByteJoins(buffer: bv32, n: nat, y: bv32, rest: seq<Byte>)
    requires n <= 4 && rest != [] && LowBits(y, n + 8) == LowBits(buffer, n) + ByteBits(rest[0])
    ensures Pending(y, n + 8, rest[1..]) == Pending(buffer, n, rest)
  {
    hide LowBits, ByteBits;
    var a, b, c := LowBits(buffer, n), ByteBits(rest[0]), Bits(rest[1..]);
    assert (a + b) + c == a + (b + c);
  }

  /** Filling up with zeros at the end leaves the digits as they are. */
  lemma EncoderPads(buffer: bv32, n: nat)
    requires 0 < n < 5
    ensures Digits(Pending(Padded(buffer, n), 5, [])) == Digits(Pending(buffer, n, []))
  {
    PushZeros(buffer, n);
    PadDigit(LowBits(buffer, n));
    EndPending(buffer, n);
    EndPending(Padded(buffer, n), 5);
  }

  lemma EndPending(buffer: bv32, n: nat)
    requires n <= 12
    ensures Pending(buffer, n, []) == LowBits(buffer, n)
  {
    hide LowBits;
    assert LowBits(buffer, n) + [] == LowBits(buffer, n);
  }

  lemma PadDigit(bits: seq<bool>)
    requires 0 < |bits| < 5
    ensures Digits(bits + Zeros(5 - |bits|)) == Digits(bits)
  {
    hide ToDigit;
    var all := bits + Zeros(5 - |bits|);
    assert all[..5] == all && all[5..] == [];
  }

  /** A digit comes off the front of the pending bits. */
  lemma EncoderWrites(buffer: bv32, n: nat, rest: seq<Byte>)
    requires 5 <= n <= 12
    ensures Digits(Pending(buffer, n, rest)) == [DigitFrom(buffer, n - 5)] + Digits(Pending(buffer, n - 5, rest))
  {
    hide *;
    DigitLeaves(buffer, n, rest, DigitFrom(buffer, n - 5));
  }

  lemma DigitLeaves(buffer: bv32, n: nat, rest: seq<Byte>, d: Byte)
    requires 5 <= n <= 12 && d < 32 && LowBits(buffer, n) == DigitBits(d) + LowBits(buffer, n - 5)
    ensures Digits(Pending(buffer, n, rest)) == [d] + Digits(Pending(buffer, n - 5, rest))
  {
    hide LowBits, DigitBits, ToDigit, Bits;
    DigitFromBits(d);
    var a, b, c := DigitBits(d), LowBits(buffer, n - 5), Bits(rest);
    var all := Pending(buffer, n, rest);
    assert all == a + (b + c);
    assert all[..5] == a && all[5..] == b + c;
  }

  lemma LettersAppend(ds: seq<Byte>, d: Byte)
    requires d < 32 && forall i :: 0 <= i < |ds| ==> ds[i] < 32
    ensures Letters(ds + [d]) == Letters(ds) + [Letter(d)]
  {
    hide Letter;
  }

  lemma LettersPrefix(ds: seq<Byte>, all: seq<Byte>)
    requires |ds| <= |all| && ds == all[..|ds|] && forall i :: 0 <= i < |all| ==> all[i] < 32
    ensures Letters(ds) == Letters(all)[..|ds|]
  {
    hide Letter;
    assert forall i :: 0 <= i < |ds| ==> ds[i] == all[i];
  }

  /** Takes in a byte, or at the end of the data fills up with zeros. */
  method Refill(data: seq<Byte>, buffer: bv32, next: nat, bitsLeft: nat)
    returns (buffer': bv32, next': nat, bitsLeft': nat)
    requires next <= |data| && bitsLeft < 5 && (bitsLeft > 0 || next < |data|)
    ensures next' == (if next < |data| then next + 1 else next)
    ensures bitsLeft' == if next < |data| then bitsLeft + 8 else 5
    ensures Digits(Pending(buffer', bitsLeft', data[next'..])) == Digits(Pending(buffer, bitsLeft, data[next..]))
  {
    hide Digits, Pending, WithByte, Padded;
    if next < |data| {
      EncoderReads(buffer, bitsLeft, data[next..]);
      assert data[next..][1..] == data[next + 1..];
      buffer', next', bitsLeft' := WithByte(buffer, data[next]), next + 1, bitsLeft + 8;
    } else {
      assert data[next..] == [];
      EncoderPads(buffer, bitsLeft);
      buffer', next', bitsLeft' := Padded(buffer, bitsLeft), next, 5;
    }
  }

  /** What the encoder has done: the digits so far, and those the pending bits still give. */
  predicate Encoded(all: seq<Byte>, ds: seq<Byte>, buffer: bv32, n: nat, rest: seq<Byte>)
    requires n <= 12
  {
    all == ds + Digits(Pending(buffer, n, rest)) && forall i :: 0 <= i < |ds| ==> ds[i] < 32
  }

  lemma EncodedStep(all: seq<Byte>, ds: seq<Byte>, buffer: bv32, n: nat, rest: seq<Byte>, d: Byte)
    requires 5 <= n <= 12 && Encoded(all, ds, buffer, n, rest) && d == DigitFrom(buffer, n - 5)
    ensures Encoded(all, ds + [d], buffer, n - 5, rest)
  {
    hide Digits, Pending, DigitFrom;
    EncoderWrites(buffer, n, rest);
    var more := Digits(Pending(buffer, n - 5, rest));
    assert ds + ([d] + more) == ds + [d] + more;
  }

  /** base32_encode into `size` bytes; what does not fit is cut off. */
  method Base32Encode(data: seq<Byte>, result: array<Byte>, size: nat) returns (count: int)
    requires size <= result.Length
    modifies result
    ensures count == -1 <==> |data| > 0x1000_0000
    ensures count >= -1
    ensures count >= 0 ==>
              var text := Encode(data);
              && count == (if |text| < size then |text| else size)
              && result[..count] == text[..count]
              && (count < size ==> result[count] == 0)
  {
    hide Bits, Digits, LowBits, Letter, Letters, Pending, WithByte, Padded, DigitFrom, DigitBits, Encode;
    if |data| > 0x1000_0000 { return -1; }
    count := 0;
    ghost var all := Digits(Bits(data));
    ghost var ds: seq<Byte> := [];
    DigitsSmall(Bits(data));
    if |data| > 0 {
      var buffer := data[0] as bv32;
      var next := 1;
      var bitsLeft := 8;
      EncoderStarts(data);
      while count < size && (bitsLeft > 0 || next < |data|)
        invariant 1 <= next <= |data| && 0 <= bitsLeft <= 8
        invariant 0 <= count == |ds| <= size
        invariant Encoded(all, ds, buffer, bitsLeft, data[next..])
        invariant result[..count] == Letters(ds)
        decreases |data| - next, bitsLeft
      {
        if bitsLeft < 5 {
          buffer, next, bitsLeft := Refill(data, buffer, next, bitsLeft);
        }
        var index := DigitFrom(buffer, bitsLeft - 5);
        bitsLeft := bitsLeft - 5;
        result[count] := Letter(index);
        count := count + 1;
        EncodedStep(all, ds, buffer, bitsLeft + 5, data[next..], index);
        LettersAppend(ds, index);
        ds := ds + [index];
      }
      if count < size {
        assert data[next..] == [];
        NothingPending(buffer);
      }
    } else {
      NothingPending(0);
      assert Bits(data) == Pending(0, 0, []) by { NoBits(data); }
    }
    EncodeIs(data);
    LettersPrefix(ds, all);
    if count < size {
      result[count] := 0;
      assert result[..count] == Letters(ds);
    }
  }

  lemma EncoderStarts(data: seq<Byte>)
    requires data != []
    ensures Bits(data) == Pending(data[0] as bv32, 8, data[1..])
  {
    FirstByte(data[0]);
    hide LowBits, ByteBits;
  }

  lemma FirstByte(b: Byte)
    ensures LowBits(b as bv32, 8) == ByteBits(b)
  {
    PushByte(0, b, 0);
    assert (0 as bv32 << 8) | (b as bv32) == b as bv32;
    assert LowBits(0, 0) + ByteBits(b) == ByteBits(b);
  }

  lemma NoBits(data: seq<Byte>)
    requires data == []
    ensures Bits(data) == Pending(0, 0, [])
  {
  }

  lemma NothingPending(buffer: bv32)
    ensures Digits(Pending(buffer, 0, [])) == []
  {
  }
}
