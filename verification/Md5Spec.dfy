/** The MD5 message digest as sections 3.1 to 3.5 of RFC 1321 define it: one shot, over the whole
    message, with the four rounds written as one table-driven loop. */
module Md5Spec {
  /** An 8-bit byte. */
  datatype Byte = Byte(bits: bv8)

  /** A 32-bit word. */
  datatype Word = Word(bits: bv32)

  /** The four 32-bit registers of section 3.3. */
  datatype Registers = Registers(a: Word, b: Word, c: Word, d: Word)

  const INITIAL := Registers(Word(0x67452301), Word(0xefcdab89), Word(0x98badcfe), Word(0x10325476))

  // ----- section 2: words are byte sequences, low-order byte first

  function WordOf(b: seq<Byte>): Word
    requires |b| == 4
  {
    Word(b[0].bits as bv32 + b[1].bits as bv32 * 0x100 + b[2].bits as bv32 * 0x1_0000 + b[3].bits as bv32 * 0x100_0000)
  }

  function BytesOf(w: Word): (b: seq<Byte>)
    ensures |b| == 4
    ensures WordOf(b) == w
  {
    [Byte((w.bits & 0xff) as bv8), Byte(((w.bits >> 8) & 0xff) as bv8),
     Byte(((w.bits >> 16) & 0xff) as bv8), Byte(((w.bits >> 24) & 0xff) as bv8)]
  }

  function Words(bytes: seq<Byte>): (ws: seq<Word>)
    requires |bytes| % 4 == 0
    ensures |ws| == |bytes| / 4
  {
    if bytes == [] then [] else [WordOf(bytes[..4])] + Words(bytes[4..])
  }

  function Bytes(words: seq<Word>): (b: seq<Byte>)
    ensures |b| == 4 * |words|
  {
    if words == [] then [] else BytesOf(words[0]) + Bytes(words[1..])
  }

  lemma BytesOfWordOf(b: seq<Byte>)
    requires |b| == 4
    ensures BytesOf(WordOf(b)) == b
  {
    var r := BytesOf(WordOf(b));
    assert r[0] == b[0];
    assert r[1] == b[1];
    assert r[2] == b[2];
    assert r[3] == b[3];
  }

  /** Decoding what was encoded gives the words back. */
  lemma {:induction false} WordsOfBytes(words: seq<Word>)
    ensures Words(Bytes(words)) == words
  {
    if words != [] {
      var b := Bytes(words);
      assert b[..4] == BytesOf(words[0]) && b[4..] == Bytes(words[1..]);
      WordsOfBytes(words[1..]);
    }
  }

  /** Encoding what was decoded gives the bytes back. */
  lemma {:induction false} BytesOfWords(bytes: seq<Byte>)
    requires |bytes| % 4 == 0
    ensures Bytes(Words(bytes)) == bytes
  {
    if bytes != [] {
      BytesOfWordOf(bytes[..4]);
      BytesOfWords(bytes[4..]);
      assert Words(bytes)[1..] == Words(bytes[4..]);
      assert bytes == bytes[..4] + bytes[4..];
    }
  }

  lemma {:induction false} BytesAppend(words: seq<Word>, w: Word)
    ensures Bytes(words + [w]) == Bytes(words) + BytesOf(w)
  {
    if words == [] {
      assert words + [w] == [w];
      assert Bytes([w][1..]) == [];
    } else {
      assert (words + [w])[1..] == words[1..] + [w];
      BytesAppend(words[1..], w);
    }
  }

  lemma {:induction false} WordsAppend(bytes: seq<Byte>, b: seq<Byte>)
    requires |bytes| % 4 == 0 && |b| == 4
    ensures Words(bytes + b) == Words(bytes) + [WordOf(b)]
  {
    if bytes == [] {
      assert bytes + b == b && b[..4] == b && b[4..] == [];
    } else {
      assert (bytes + b)[..4] == bytes[..4] && (bytes + b)[4..] == bytes[4..] + b;
      WordsAppend(bytes[4..], b);
    }
  }

  // ----- section 3.4: the auxiliary functions and the 64 steps

  /** The circular shift to the left; CircularShift below ties it to the bit-vector rotation. */
  function RotateLeft(x: bv32, n: nat): bv32
    requires 0 < n < 32
  {
    (x << n) | (x >> (32 - n))
  }

  lemma CircularShift(x: bv32)
    ensures RotateLeft(x, 7) == x.RotateLeft(7) && RotateLeft(x, 12) == x.RotateLeft(12)
    ensures RotateLeft(x, 17) == x.RotateLeft(17) && RotateLeft(x, 22) == x.RotateLeft(22)
    ensures RotateLeft(x, 5) == x.RotateLeft(5) && RotateLeft(x, 9) == x.RotateLeft(9)
    ensures RotateLeft(x, 14) == x.RotateLeft(14) && RotateLeft(x, 20) == x.RotateLeft(20)
    ensures RotateLeft(x, 4) == x.RotateLeft(4) && RotateLeft(x, 11) == x.RotateLeft(11)
    ensures RotateLeft(x, 16) == x.RotateLeft(16) && RotateLeft(x, 23) == x.RotateLeft(23)
    ensures RotateLeft(x, 6) == x.RotateLeft(6) && RotateLeft(x, 10) == x.RotateLeft(10)
    ensures RotateLeft(x, 15) == x.RotateLeft(15) && RotateLeft(x, 21) == x.RotateLeft(21)
  {}

  function F(x: Word, y: Word, z: Word): Word { Word((x.bits & y.bits) | (!x.bits & z.bits)) }

  function G(x: Word, y: Word, z: Word): Word { Word((x.bits & z.bits) | (y.bits & !z.bits)) }

  function H(x: Word, y: Word, z: Word): Word { Word(x.bits ^ y.bits ^ z.bits) }

  function I(x: Word, y: Word, z: Word): Word { Word(y.bits ^ (x.bits | !z.bits)) }

  function Aux(i: nat, x: Word, y: Word, z: Word): Word
    requires i < 64
  {
    if i < 16 then F(x, y, z) else if i < 32 then G(x, y, z) else if i < 48 then H(x, y, z) else I(x, y, z)
  }

  /** Which message word step i uses: in order, then every fifth, every third and every seventh word. */
  function MessageIndex(i: nat): (k: nat)
    requires i < 64
    ensures k < 16
  {
    if i < 16 then i else if i < 32 then (5 * i + 1) % 16 else if i < 48 then (3 * i + 5) % 16 else 7 * i % 16
  }

  /** The rotation of step i: four amounts per round, used cyclically. */
  function Shift(i: nat): (s: nat)
    requires i < 64
    ensures 0 < s < 32
  {
    if i < 16 then OneOf(i % 4, 7, 12, 17, 22)
    else if i < 32 then OneOf(i % 4, 5, 9, 14, 20)
    else if i < 48 then OneOf(i % 4, 4, 11, 16, 23)
    else OneOf(i % 4, 6, 10, 15, 21)
  }

  function OneOf(k: nat, s0: nat, s1: nat, s2: nat, s3: nat): nat
  {
    if k == 0 then s0 else if k == 1 then s1 else if k == 2 then s2 else s3
  }

  /** Integer part of 4294967296 times abs(sin(i + 1)), tabulated as in the appendix of RFC 1321. */
  function Sine(i: nat): bv32
    requires i < 64
  {
    match i
    case 0 => 0xd76aa478 case 1 => 0xe8c7b756 case 2 => 0x242070db case 3 => 0xc1bdceee
    case 4 => 0xf57c0faf case 5 => 0x4787c62a case 6 => 0xa8304613 case 7 => 0xfd469501
    case 8 => 0x698098d8 case 9 => 0x8b44f7af case 10 => 0xffff5bb1 case 11 => 0x895cd7be
    case 12 => 0x6b901122 case 13 => 0xfd987193 case 14 => 0xa679438e case 15 => 0x49b40821
    case 16 => 0xf61e2562 case 17 => 0xc040b340 case 18 => 0x265e5a51 case 19 => 0xe9b6c7aa
    case 20 => 0xd62f105d case 21 => 0x02441453 case 22 => 0xd8a1e681 case 23 => 0xe7d3fbc8
    case 24 => 0x21e1cde6 case 25 => 0xc33707d6 case 26 => 0xf4d50d87 case 27 => 0x455a14ed
    case 28 => 0xa9e3e905 case 29 => 0xfcefa3f8 case 30 => 0x676f02d9 case 31 => 0x8d2a4c8a
    case 32 => 0xfffa3942 case 33 => 0x8771f681 case 34 => 0x6d9d6122 case 35 => 0xfde5380c
    case 36 => 0xa4beea44 case 37 => 0x4bdecfa9 case 38 => 0xf6bb4b60 case 39 => 0xbebfbc70
    case 40 => 0x289b7ec6 case 41 => 0xeaa127fa case 42 => 0xd4ef3085 case 43 => 0x04881d05
    case 44 => 0xd9d4d039 case 45 => 0xe6db99e5 case 46 => 0x1fa27cf8 case 47 => 0xc4ac5665
    case 48 => 0xf4292244 case 49 => 0x432aff97 case 50 => 0xab9423a7 case 51 => 0xfc93a039
    case 52 => 0x655b59c3 case 53 => 0x8f0ccc92 case 54 => 0xffeff47d case 55 => 0x85845dd1
    case 56 => 0x6fa87e4f case 57 => 0xfe2ce6e0 case 58 => 0xa3014314 case 59 => 0x4e0811a1
    case 60 => 0xf7537e82 case 61 => 0xbd3af235 case 62 => 0x2ad7d2bb case _ => 0xeb86d391
  }

  /** What every step adds up and rotates, given the value f of its auxiliary function. */
  function Mix(f: Word, a: Word, b: Word, x: Word, s: nat, t: bv32): Word
    requires 0 < s < 32
  {
    Word(RotateLeft(a.bits + f.bits + x.bits + t, s) + b.bits)
  }

  /** The one operation of all four rounds: a = b + ((a + aux(b,c,d) + X[k] + T[i]) <<< s). */
  function Operation(i: nat, a: Word, b: Word, c: Word, d: Word, x: seq<Word>): Word
    requires i < 64 && |x| == 16
  {
    Mix(Aux(i, b, c, d), a, b, x[MessageIndex(i)], Shift(i), Sine(i))
  }

  /** One step; the registers change roles cyclically from step to step. */
  function Step(i: nat, r: Registers, x: seq<Word>): Registers
    requires i < 64 && |x| == 16
  {
    Registers(r.d, Operation(i, r.a, r.b, r.c, r.d, x), r.b, r.c)
  }

  function Steps(n: nat, r: Registers, x: seq<Word>): Registers
    requires n <= 64 && |x| == 16
  {
    if n == 0 then r else Step(n - 1, Steps(n - 1, r, x), x)
  }

  /** Addition of words, modulo 2^32. */
  function Add(x: Word, y: Word): Word { Word(x.bits + y.bits) }

  function Compress(r: Registers, block: seq<Byte>): Registers
    requires |block| == 64
  {
    var t := Steps(64, r, Words(block));
    Registers(Add(r.a, t.a), Add(r.b, t.b), Add(r.c, t.c), Add(r.d, t.d))
  }

  /** Compress every whole block of the input in turn. */
  function CompressAll(r: Registers, bytes: seq<Byte>): Registers
    decreases |bytes|
  {
    if |bytes| < 64 then r else CompressAll(Compress(r, bytes[..64]), bytes[64..])
  }

  lemma {:induction false} CompressAllAppend(r: Registers, bytes: seq<Byte>, block: seq<Byte>)
    requires |bytes| % 64 == 0 && |block| == 64
    ensures CompressAll(r, bytes + block) == Compress(CompressAll(r, bytes), block)
    decreases |bytes|
  {
    if bytes == [] {
      assert bytes + block == block && block[..64] == block && block[64..] == [];
    } else {
      assert (bytes + block)[..64] == bytes[..64] && (bytes + block)[64..] == bytes[64..] + block;
      CompressAllAppend(Compress(r, bytes[..64]), bytes[64..], block);
    }
  }

  // ----- sections 3.1, 3.2 and 3.5: padding, length and output

  const TWO32: nat := 0x1_0000_0000

  /** How many zero bytes follow the 0x80 byte so that the length is 56 modulo 64. */
  function Zeros(n: nat): (k: nat)
    ensures k < 64 && (n + 1 + k) % 64 == 56
    ensures (n + (1 + k + 8)) % 64 == 0
  {
    (55 - n % 64) % 64
  }

  /** The word with the given value. */
  function ToWord(n: nat): Word
    requires n < TWO32
  {
    Word(n as bv32)
  }

  /** The value a 32-bit unsigned variable keeps of x. */
  function Wrap(x: nat): (k: nat)
    ensures k < TWO32
  {
    x % TWO32
  }

  /** What that variable loses of x. */
  function Carried(x: nat): nat
  {
    x / TWO32
  }

  /** The low 32 bits of the bit length of n bytes. */
  function LowBits(n: nat): nat { Wrap(8 * n) }

  /** The next 32 bits of the bit length of n bytes. */
  function HighBits(n: nat): nat { Wrap(Carried(8 * n)) }

  /** The bit length modulo 2^64 as two words, low-order word first. */
  function LengthWords(n: nat): (ws: seq<Word>)
    ensures |ws| == 2
  {
    [ToWord(LowBits(n)), ToWord(HighBits(n))]
  }

  /** What is appended to a message of n bytes. */
  function Padding(n: nat): (p: seq<Byte>)
    ensures |p| == 1 + Zeros(n) + 8
  {
    [Byte(0x80)] + seq(Zeros(n), _ => Byte(0)) + Bytes(LengthWords(n))
  }

  function Padded(message: seq<Byte>): (p: seq<Byte>)
    ensures |p| % 64 == 0 && |p| % 4 == 0
  {
    WholeWords(|message| + |Padding(|message|)|);
    message + Padding(|message|)
  }

  lemma WholeWords(n: nat)
    requires n % 64 == 0 || n % 64 == 56
    ensures n % 4 == 0
  {
    assert n == 4 * (16 * (n / 64)) + n % 64;
  }

  function Digest(message: seq<Byte>): (d: seq<Byte>)
    ensures |d| == 16
  {
    var r := CompressAll(INITIAL, Padded(message));
    Bytes([r.a, r.b, r.c, r.d])
  }

  /** The bytes of a text, one a character. */
  function Octets(text: string): (bytes: seq<Byte>)
    ensures |bytes| == |text|
  {
    seq(|text|, i requires 0 <= i < |text| => Octet(text[i]))
  }

  function Octet(c: char): Byte { ToByte(c as int % 256) }

  function ToByte(n: nat): Byte
    requires n < 256
  {
    Byte(n as bv8)
  }

  // ----- text form of a digest

  const HEX := "0123456789abcdef"

  predicate IsHex(s: string) { forall c <- s :: c in HEX }

  function HexByte(b: Byte): (s: string)
    ensures |s| == 2 && IsHex(s)
  {
    [HexDigit(b.bits >> 4), HexDigit(b.bits & 0xf)]
  }

  function HexDigit(b: bv8): (c: char)
    requires b < 16
    ensures c in HEX
  {
    HEX[b as int]
  }

  function Hex(bytes: seq<Byte>): (s: string)
    ensures |s| == 2 * |bytes| && IsHex(s)
  {
    if bytes == [] then [] else HexByte(bytes[0]) + Hex(bytes[1..])
  }

  function Unhex(c: char): bv8
  {
    match c
    case '0' => 0 case '1' => 1 case '2' => 2 case '3' => 3 case '4' => 4 case '5' => 5 case '6' => 6 case '7' => 7
    case '8' => 8 case '9' => 9 case 'a' => 10 case 'b' => 11 case 'c' => 12 case 'd' => 13 case 'e' => 14 case _ => 15
  }

  lemma UnhexDigit(b: bv8)
    requires b < 16
    ensures Unhex(HexDigit(b)) == b
  {
    assert b == 0 || b == 1 || b == 2 || b == 3 || b == 4 || b == 5 || b == 6 || b == 7
        || b == 8 || b == 9 || b == 10 || b == 11 || b == 12 || b == 13 || b == 14 || b == 15;
  }

  /** The byte that two digits stand for, high digit first. */
  function PairValue(high: char, low: char): Byte { Byte((Unhex(high) << 4) | Unhex(low)) }

  function FromHex(s: string): seq<Byte>
    requires |s| % 2 == 0
  {
    if s == "" then [] else [PairValue(s[0], s[1])] + FromHex(s[2..])
  }

  lemma Nibbles(b: bv8)
    ensures b >> 4 < 16 && b & 0xf < 16 && ((b >> 4) << 4) | (b & 0xf) == b
  {}

  lemma HexByteRoundTrip(b: Byte)
    ensures PairValue(HexByte(b)[0], HexByte(b)[1]) == b
  {
    Nibbles(b.bits);
    UnhexDigit(b.bits >> 4);
    UnhexDigit(b.bits & 0xf);
    hide Unhex, HexDigit;
  }

  /** The text of a digest determines the digest. */
  lemma {:induction false} HexRoundTrip(bytes: seq<Byte>)
    ensures FromHex(Hex(bytes)) == bytes
  {
    if bytes != [] {
      hide PairValue, HexByte;
      HexByteRoundTrip(bytes[0]);
      assert Hex(bytes)[2..] == Hex(bytes[1..]);
      HexRoundTrip(bytes[1..]);
    }
  }
}
