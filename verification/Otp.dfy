/** From the secret file's first line and a number to a six-digit code: the keyed hash of RFC 2104,
    the truncation of RFC 4226 and the decoded secret, in the PAM module and in the setup program. */
module Otp {
  import opened CText
  import B = Base32
  import S = Sha1
  import F = StateFile

  type Byte = bv8

  // ---- HMAC-SHA1 (section 2 of RFC 2104) ------------------------------------------------------

  /** The key filled up to a block; a longer one is hashed first. */
  function BlockKey(key: seq<Byte>): (r: seq<Byte>)
    ensures |r| == S.BLOCK
  {
    var k := if |key| > S.BLOCK then S.Hash(key) else key;
    k + S.Zeros(S.BLOCK - |k|)
  }

  function Xor(k: seq<Byte>, pad: Byte): (r: seq<Byte>)
    ensures |r| == |k|
  {
    seq(|k|, i requires 0 <= i < |k| => k[i] ^ pad)
  }

  function Hmac(key: seq<Byte>, text: seq<Byte>): (r: seq<Byte>)
    ensures |r| == 20
  {
    var k := BlockKey(key);
    S.Hash(Xor(k, 0x5C) + S.Hash(Xor(k, 0x36) + text))
  }

  /** Cut off, or filled up with zeros. */
  function Fitted(mac: seq<Byte>, n: nat): (r: seq<Byte>)
    ensures |r| == n
  {
    if n <= |mac| then mac[..n] else mac + S.Zeros(n - |mac|)
  }

  /** The key with every byte changed, and the padding byte in the rest of the block. */
  method PadKey(key: seq<Byte>, pad: Byte, tmpKey: array<Byte>)
    requires |key| <= S.BLOCK == tmpKey.Length
    modifies tmpKey
    ensures tmpKey[..] == Xor(key + S.Zeros(S.BLOCK - |key|), pad)
  {
    for i := 0 to |key|
      invariant forall j :: 0 <= j < i ==> tmpKey[j] == key[j] ^ pad
    {
      tmpKey[i] := key[i] ^ pad;
    }
    forall i | |key| <= i < S.BLOCK {
      tmpKey[i] := pad;
    }
    assert forall j :: |key| <= j < S.BLOCK ==> tmpKey[j] == 0 ^ pad;
    ghost var all := key + S.Zeros(S.BLOCK - |key|);
    assert forall j :: 0 <= j < S.BLOCK ==> tmpKey[j] == all[j] ^ pad;
  }

  /** One digest over two pieces. */
  method DigestOf(first: seq<Byte>, second: seq<Byte>, unravel: bool) returns (sha: seq<Byte>)
    requires |first| < 0x8000_0000 && |second| < 0x8000_0000
    ensures sha == S.Hash(first + second)
  {
    hide *;
    var ctx := new S.Context();
    ctx.Update(first, unravel);
    ctx.Update(second, unravel);
    assert [] + first + second == first + second;
    sha := ctx.Final(unravel);
  }

  /** hmac_sha1 */
  method HmacSha1(key: seq<Byte>, data: seq<Byte>, result: array<Byte>, resultLength: nat, unravel: bool)
    requires |key| < 0x8000_0000 && |data| < 0x8000_0000 && resultLength <= result.Length
    modifies result
    ensures result[..resultLength] == Fitted(Hmac(key, data), resultLength)
    ensures result[resultLength..] == old(result[resultLength..])
  {
    hide S.Hash, Xor;
    var k := key;
    if |key| > S.BLOCK {
      var ctx := new S.Context();
      ctx.Update(key, unravel);
      assert [] + key == key;
      k := ctx.Final(unravel);
    }
    var tmpKey := new Byte[S.BLOCK];
    PadKey(k, 0x36, tmpKey);
    var sha := DigestOf(tmpKey[..], data, unravel);
    PadKey(k, 0x5C, tmpKey);
    sha := DigestOf(tmpKey[..], sha, unravel);
    assert sha == Hmac(key, data);
    var n := if resultLength > 20 then 20 else resultLength;
    ghost var behind := result[resultLength..];
    forall i | 0 <= i < resultLength {
      result[i] := if i < n then sha[i] else 0;
    }
    assert result[resultLength..] == behind;
    assert result[..resultLength] == Fitted(sha, resultLength);
  }

  // ---- HOTP (section 5 of RFC 4226) -----------------------------------------------------------

  /** The low `n` bytes of a number, most significant first. */
  function BigEndian(value: nat, n: nat): (r: seq<Byte>)
    ensures |r| == n
  {
    if n == 0 then [] else BigEndian(value / 0x100, n - 1) + [S.Octet(value)]
  }

  /** The last byte's low half says where to sample. */
  function Offset(hash: seq<Byte>): (r: nat)
    requires |hash| == 20
    ensures r <= 15
  {
    LowHalf(hash[19]);
    (hash[19] & 0xF) as nat
  }

  lemma LowHalf(b: Byte)
    ensures (b & 0xF) as nat <= 15
  {
  }

  /** Section 5.3: 31 bits from the offset on, modulo 10^6. */
  function Truncated(hash: seq<Byte>): (r: nat)
    requires |hash| == 20
    ensures r < 1_000_000
  {
    var o := Offset(hash);
    SixDigits(S.BigEndian(hash[o], hash[o + 1], hash[o + 2], hash[o + 3]))
  }

  function SixDigits(x: bv32): (r: nat)
    ensures r < 1_000_000
  {
    (x & 0x7FFF_FFFF) as nat % 1_000_000
  }

  /** The code for a number below 2^64. */
  function Code(secret: seq<Byte>, value: nat): (r: nat)
    ensures r < 1_000_000
  {
    Truncated(Hmac(secret, BigEndian(value, 8)))
  }

  /** The number as eight bytes, written from the last one to the first. */
  method Challenge(value: nat) returns (val: array<Byte>)
    ensures fresh(val) && val.Length == 8 && val[..] == BigEndian(value, 8)
  {
    hide S.Octet;
    val := new Byte[8];
    var v, i := value, 8;
    while i > 0
      invariant 0 <= i <= 8
      invariant BigEndian(value, 8) == BigEndian(v, i) + val[i..]
    {
      i := i - 1;
      val[i] := S.Octet(v);
      BigEndianStep(v, i + 1);
      assert val[i..] == [S.Octet(v)] + val[i + 1..];
      v := v / 0x100;
    }
    assert val[0..] == val[..];
  }

  lemma BigEndianStep(v: nat, n: nat)
    requires n > 0
    ensures BigEndian(v, n) == BigEndian(v / 0x100, n - 1) + [S.Octet(v)]
  {
  }

  /** A byte more at the low end. */
  function Shifted(x: bv32, b: Byte): bv32 { (x << 8) | (b as bv32) }

  lemma FourBytes(b0: Byte, b1: Byte, b2: Byte, b3: Byte)
    ensures Shifted(Shifted(Shifted(Shifted(0, b0), b1), b2), b3) == S.BigEndian(b0, b1, b2, b3)
  {
  }

  /** The bytes sampled so far. */
  function Sampled(hash: seq<Byte>, at: nat, n: nat): bv32
    requires at + n <= |hash|
  {
    if n == 0 then 0 else Shifted(Sampled(hash, at, n - 1), hash[at + n - 1])
  }

  lemma SampledStep(hash: seq<Byte>, at: nat, n: nat)
    requires at + n < |hash|
    ensures Sampled(hash, at, 0) == 0
    ensures Sampled(hash, at, n + 1) == Shifted(Sampled(hash, at, n), hash[at + n])
  {
    hide Shifted;
  }

  method Truncate(hash: array<Byte>) returns (code: nat)
    requires hash.Length == 20
    ensures code == Truncated(hash[..])
  {
    hide Shifted, Offset, S.BigEndian, SixDigits, Sampled;
    var offset := Offset(hash[..]);
    SampledStep(hash[..], offset, 0);
    var truncated: bv32 := 0;
    for i := 0 to 4
      invariant truncated == Sampled(hash[..], offset, i)
    {
      SampledStep(hash[..], offset, i);
      truncated := Shifted(truncated, hash[offset + i]);
    }
    FourSampled(hash[..], offset);
    code := SixDigits(truncated);
  }

  lemma FourSampled(hash: seq<Byte>, at: nat)
    requires at + 4 <= |hash|
    ensures Sampled(hash, at, 4) == S.BigEndian(hash[at], hash[at + 1], hash[at + 2], hash[at + 3])
  {
    FourBytes(hash[at], hash[at + 1], hash[at + 2], hash[at + 3]);
    hide Shifted, S.BigEndian;
    hide Sampled;
    SampledStep(hash, at, 0);
    SampledStep(hash, at, 1);
    SampledStep(hash, at, 2);
    SampledStep(hash, at, 3);
  }

  /** compute_code */
  method ComputeCode(secret: seq<Byte>, value: nat, unravel: bool) returns (code: nat)
    requires |secret| < 0x8000_0000
    ensures code == Code(secret, value)
  {
    hide Hmac, BigEndian, Truncated;
    var val := Challenge(value);
    var hash := new Byte[20];
    HmacSha1(secret, val[..], hash, 20, unravel);
    assert hash[..] == hash[..20] == Hmac(secret, BigEndian(value, 8));
    code := Truncate(hash);
  }

  // ---- the secret -----------------------------------------------------------------------------

  /** A character of a file as a byte (there are no others). */
  function CharByte(c: char): (r: Byte)
    ensures c != '\0' ==> r != 0
  {
    if c as nat < 0x100 then ByteNotNul(c as nat); S.Octet(c as nat) else 0xFF
  }

  function ToBytes(t: string): (r: seq<Byte>)
    ensures |r| == |t|
  {
    seq(|t|, i requires 0 <= i < |t| => CharByte(t[i]))
  }

  lemma ByteNotNul(n: nat)
    requires n < 0x100
    ensures n != 0 ==> S.Octet(n) != 0
  {
  }

  /** get_shared_secret: the first line, decoded into a buffer of its own length. */
  function SharedSecret(t: string): Option<seq<Byte>>
  {
    var n := Span(NotLf, t);
    if n > 100_000 then None
    else match B.Decode(ToBytes(t[..n]), n)
         case None => None
         case Some(secret) => if secret == [] then None else Some(secret)
  }

  lemma NoNulBytes(t: string)
    requires F.NulFree(t)
    ensures forall i :: 0 <= i < |t| ==> ToBytes(t)[i] != 0
  {
    hide CharByte;
  }

  /** The same, with the text and the decoded bytes in the same memory. */
  method GetSharedSecret(b: F.Buffer) returns (secret: Option<seq<Byte>>)
    requires b.Valid()
    ensures secret == SharedSecret(b.text)
  {
    hide F.Holds, B.Decode, Span, CharByte;
    var n := b.SpanAt(NotLf, 0);
    assert b.text[0..] == b.text;
    if n > 100_000 { return None; }
    ghost var line := b.text[..n];
    F.HeldNulFree(b.buf[..], b.text);
    NoNulBytes(line);
    var bytes := new Byte[n + 1];
    for i := 0 to n
      invariant forall j :: 0 <= j < i ==> bytes[j] == CharByte(line[j])
    {
      var c := b.CharAt(i);
      bytes[i] := CharByte(c);
    }
    bytes[n] := 0;
    assert bytes[..n] == ToBytes(line);
    var count := B.Base32Decode(bytes, ToBytes(line), bytes, n);
    if count < 1 { return None; }
    return Some(bytes[..count]);
  }

  /** generateCode in the setup program: the key goes into a buffer of an estimated size. */
  method GenerateCode(key: array<Byte>, ghost text: seq<Byte>, tm: nat, unravel: bool) returns (code: int)
    requires |text| < key.Length && key[..|text|] == text && key[|text|] == 0
    requires forall i :: 0 <= i < |text| ==> text[i] != 0
    ensures code == Generated(text, tm)
  {
    hide B.Decode, Code;
    var n := 0;
    assert forall i :: 0 <= i < |text| ==> key[i] == text[i];
    while key[n] != 0
      invariant 0 <= n <= |text|
      decreases |text| - n
    {
      n := n + 1;
    }
    var secretLen: int := (n + 7) / 8 * 5;
    if secretLen <= 0 || secretLen > 100 { return -1; }
    var secret := new Byte[100];
    secretLen := B.Base32Decode(key, text, secret, secretLen);
    if secretLen < 1 { return -1; }
    code := ComputeCode(secret[..secretLen], tm, unravel);
  }

  /** What the setup program shows for a key: -1 when the key is empty, too long or no Base32. */
  function Generated(text: seq<Byte>, tm: nat): int
  {
    var size := (|text| + 7) / 8 * 5;
    if size == 0 || size > 100 then -1
    else match B.Decode(text, size)
         case None => -1
         case Some(secret) => if secret == [] then -1 else Code(secret, tm)
  }

  /** A buffer with room for five bits a character is never full before the text ends. */
  lemma {:induction false} RoomForAll(text: seq<Byte>, need: nat, need': nat)
    requires need >= 5 * |text| && need' >= 5 * |text|
    ensures B.Gather(text, need) == B.Gather(text, need')
  {
    hide B.IsSeparator, B.DigitOf, B.DigitBits;
    if text != [] {
      if B.IsSeparator(text[0]) {
        RoomForAll(text[1..], need, need');
      } else {
        RoomForAll(text[1..], if need > 5 then need - 5 else 0, if need' > 5 then need' - 5 else 0);
      }
    }
  }

  /** For every key within the limit the setup program's code is compute_code on the secret the
      PAM module reads from a file that starts with that key; there is none for the one exactly
      when there is none for the other. */
  lemma GeneratedIsCode(key: string, rest: string, tm: nat)
    requires 0 < |key| <= 160 && All(NotLf, key)
    ensures Generated(ToBytes(key), tm)
         == match SharedSecret(key + "\n" + rest) case None => -1 case Some(secret) => Code(secret, tm)
  {
    hide B.Gather, B.Bytes, Code, CharByte, Span;
    var t := key + "\n" + rest;
    SpanIs(NotLf, t, |key|);
    assert t[..|key|] == key;
    RoomForAll(ToBytes(key), 8 * ((|key| + 7) / 8 * 5), 8 * |key|);
  }
}
