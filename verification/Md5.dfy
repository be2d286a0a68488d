/** The streaming MD5 object of libraries/bb_monitor_srv_utils/md5.cpp. */
module Md5 {
  import opened Md5Spec

  // ----- FF, GG, HH and II: one statement of each round

  function FF(a: Word, b: Word, c: Word, d: Word, x: Word, s: nat, ac: bv32): Word
    requires 0 < s < 32
  {
    Mix(F(b, c, d), a, b, x, s, ac)
  }

  function GG(a: Word, b: Word, c: Word, d: Word, x: Word, s: nat, ac: bv32): Word
    requires 0 < s < 32
  {
    Mix(G(b, c, d), a, b, x, s, ac)
  }

  function HH(a: Word, b: Word, c: Word, d: Word, x: Word, s: nat, ac: bv32): Word
    requires 0 < s < 32
  {
    Mix(H(b, c, d), a, b, x, s, ac)
  }

  function II(a: Word, b: Word, c: Word, d: Word, x: Word, s: nat, ac: bv32): Word
    requires 0 < s < 32
  {
    Mix(I(b, c, d), a, b, x, s, ac)
  }

  // ----- the unrolled statements against the table-driven loop

  /** The statement at position i of the unrolled text, for given operands. */
  function Statement(i: nat, a: Word, b: Word, c: Word, d: Word, x: Word, s: nat, ac: bv32): Word
    requires i < 64 && 0 < s < 32
  {
    if i < 16 then FF(a, b, c, d, x, s, ac)
    else if i < 32 then GG(a, b, c, d, x, s, ac)
    else if i < 48 then HH(a, b, c, d, x, s, ac)
    else II(a, b, c, d, x, s, ac)
  }

  lemma StatementIsOperation(i: nat, a: Word, b: Word, c: Word, d: Word, x: seq<Word>)
    requires i < 64 && |x| == 16
    ensures Statement(i, a, b, c, d, x[MessageIndex(i)], Shift(i), Sine(i)) == Operation(i, a, b, c, d, x)
  {
    hide Mix, F, G, H, I;
  }

  /** Four consecutive steps bring the registers back to their own names. */
  lemma FourSteps(i: nat, r: Registers, x: seq<Word>)
    requires i <= 60 && |x| == 16
    ensures
      var q := Steps(i, r, x);
      var a := Statement(i, q.a, q.b, q.c, q.d, x[MessageIndex(i)], Shift(i), Sine(i));
      var d := Statement(i + 1, q.d, a, q.b, q.c, x[MessageIndex(i + 1)], Shift(i + 1), Sine(i + 1));
      var c := Statement(i + 2, q.c, d, a, q.b, x[MessageIndex(i + 2)], Shift(i + 2), Sine(i + 2));
      var b := Statement(i + 3, q.b, c, d, a, x[MessageIndex(i + 3)], Shift(i + 3), Sine(i + 3));
      Steps(i + 4, r, x) == Registers(a, b, c, d)
  {
    hide Statement, Operation, Sine, Shift, MessageIndex;
    var q := Steps(i, r, x);
    StatementIsOperation(i, q.a, q.b, q.c, q.d, x);
    var q1 := Step(i, q, x);
    assert Steps(i + 1, r, x) == q1;
    StatementIsOperation(i + 1, q1.a, q1.b, q1.c, q1.d, x);
    var q2 := Step(i + 1, q1, x);
    assert Steps(i + 2, r, x) == q2;
    StatementIsOperation(i + 2, q2.a, q2.b, q2.c, q2.d, x);
    var q3 := Step(i + 2, q2, x);
    assert Steps(i + 3, r, x) == q3;
    StatementIsOperation(i + 3, q3.a, q3.b, q3.c, q3.d, x);
    assert Steps(i + 4, r, x) == Step(i + 3, q3, x);
  }

  /** The order in which the four rounds use the words of the block. */
  lemma MessageOrder()
    ensures MessageIndex(0) == 0 && MessageIndex(1) == 1 && MessageIndex(2) == 2 && MessageIndex(3) == 3
    ensures MessageIndex(4) == 4 && MessageIndex(5) == 5 && MessageIndex(6) == 6 && MessageIndex(7) == 7
    ensures MessageIndex(8) == 8 && MessageIndex(9) == 9 && MessageIndex(10) == 10 && MessageIndex(11) == 11
    ensures MessageIndex(12) == 12 && MessageIndex(13) == 13 && MessageIndex(14) == 14 && MessageIndex(15) == 15
    ensures MessageIndex(16) == 1 && MessageIndex(17) == 6 && MessageIndex(18) == 11 && MessageIndex(19) == 0
    ensures MessageIndex(20) == 5 && MessageIndex(21) == 10 && MessageIndex(22) == 15 && MessageIndex(23) == 4
    ensures MessageIndex(24) == 9 && MessageIndex(25) == 14 && MessageIndex(26) == 3 && MessageIndex(27) == 8
    ensures MessageIndex(28) == 13 && MessageIndex(29) == 2 && MessageIndex(30) == 7 && MessageIndex(31) == 12
    ensures MessageIndex(32) == 5 && MessageIndex(33) == 8 && MessageIndex(34) == 11 && MessageIndex(35) == 14
    ensures MessageIndex(36) == 1 && MessageIndex(37) == 4 && MessageIndex(38) == 7 && MessageIndex(39) == 10
    ensures MessageIndex(40) == 13 && MessageIndex(41) == 0 && MessageIndex(42) == 3 && MessageIndex(43) == 6
    ensures MessageIndex(44) == 9 && MessageIndex(45) == 12 && MessageIndex(46) == 15 && MessageIndex(47) == 2
    ensures MessageIndex(48) == 0 && MessageIndex(49) == 7 && MessageIndex(50) == 14 && MessageIndex(51) == 5
    ensures MessageIndex(52) == 12 && MessageIndex(53) == 3 && MessageIndex(54) == 10 && MessageIndex(55) == 1
    ensures MessageIndex(56) == 8 && MessageIndex(57) == 15 && MessageIndex(58) == 6 && MessageIndex(59) == 13
    ensures MessageIndex(60) == 4 && MessageIndex(61) == 11 && MessageIndex(62) == 2 && MessageIndex(63) == 9
  {}

  lemma NoSteps(r: Registers, x: seq<Word>)
    requires |x| == 16
    ensures Steps(0, r, x) == r
  {}

  /** Round 1 of transform; s is the state the block started from. */
  method Round1(r: Registers, x: seq<Word>, ghost s: Registers) returns (t: Registers)
    requires |x| == 16 && r == s
    ensures t == Steps(16, s, x)
  {
    var a, b, c, d := r.a, r.b, r.c, r.d;
    MessageOrder();
    hide FF, Steps, MessageIndex;
    NoSteps(s, x);
    FourSteps(0, s, x);
    a := FF(a, b, c, d, x[0], 7, 0xd76aa478);
    d := FF(d, a, b, c, x[1], 12, 0xe8c7b756);
    c := FF(c, d, a, b, x[2], 17, 0x242070db);
    b := FF(b, c, d, a, x[3], 22, 0xc1bdceee);
    FourSteps(4, s, x);
    a := FF(a, b, c, d, x[4], 7, 0xf57c0faf);
    d := FF(d, a, b, c, x[5], 12, 0x4787c62a);
    c := FF(c, d, a, b, x[6], 17, 0xa8304613);
    b := FF(b, c, d, a, x[7], 22, 0xfd469501);
    FourSteps(8, s, x);
    a := FF(a, b, c, d, x[8], 7, 0x698098d8);
    d := FF(d, a, b, c, x[9], 12, 0x8b44f7af);
    c := FF(c, d, a, b, x[10], 17, 0xffff5bb1);
    b := FF(b, c, d, a, x[11], 22, 0x895cd7be);
    FourSteps(12, s, x);
    a := FF(a, b, c, d, x[12], 7, 0x6b901122);
    d := FF(d, a, b, c, x[13], 12, 0xfd987193);
    c := FF(c, d, a, b, x[14], 17, 0xa679438e);
    b := FF(b, c, d, a, x[15], 22, 0x49b40821);
    t := Registers(a, b, c, d);
  }

  /** Round 2 of transform; s is the state the block started from. */
  method Round2(r: Registers, x: seq<Word>, ghost s: Registers) returns (t: Registers)
    requires |x| == 16 && r == Steps(16, s, x)
    ensures t == Steps(32, s, x)
  {
    var a, b, c, d := r.a, r.b, r.c, r.d;
    MessageOrder();
    hide GG, Steps, MessageIndex;
    FourSteps(16, s, x);
    a := GG(a, b, c, d, x[1], 5, 0xf61e2562);
    d := GG(d, a, b, c, x[6], 9, 0xc040b340);
    c := GG(c, d, a, b, x[11], 14, 0x265e5a51);
    b := GG(b, c, d, a, x[0], 20, 0xe9b6c7aa);
    FourSteps(20, s, x);
    a := GG(a, b, c, d, x[5], 5, 0xd62f105d);
    d := GG(d, a, b, c, x[10], 9, 0x2441453);
    c := GG(c, d, a, b, x[15], 14, 0xd8a1e681);
    b := GG(b, c, d, a, x[4], 20, 0xe7d3fbc8);
    FourSteps(24, s, x);
    a := GG(a, b, c, d, x[9], 5, 0x21e1cde6);
    d := GG(d, a, b, c, x[14], 9, 0xc33707d6);
    c := GG(c, d, a, b, x[3], 14, 0xf4d50d87);
    b := GG(b, c, d, a, x[8], 20, 0x455a14ed);
    FourSteps(28, s, x);
    a := GG(a, b, c, d, x[13], 5, 0xa9e3e905);
    d := GG(d, a, b, c, x[2], 9, 0xfcefa3f8);
    c := GG(c, d, a, b, x[7], 14, 0x676f02d9);
    b := GG(b, c, d, a, x[12], 20, 0x8d2a4c8a);
    t := Registers(a, b, c, d);
  }

  /** Round 3 of transform; s is the state the block started from. */
  method Round3(r: Registers, x: seq<Word>, ghost s: Registers) returns (t: Registers)
    requires |x| == 16 && r == Steps(32, s, x)
    ensures t == Steps(48, s, x)
  {
    var a, b, c, d := r.a, r.b, r.c, r.d;
    MessageOrder();
    hide HH, Steps, MessageIndex;
    FourSteps(32, s, x);
    a := HH(a, b, c, d, x[5], 4, 0xfffa3942);
    d := HH(d, a, b, c, x[8], 11, 0x8771f681);
    c := HH(c, d, a, b, x[11], 16, 0x6d9d6122);
    b := HH(b, c, d, a, x[14], 23, 0xfde5380c);
    FourSteps(36, s, x);
    a := HH(a, b, c, d, x[1], 4, 0xa4beea44);
    d := HH(d, a, b, c, x[4], 11, 0x4bdecfa9);
    c := HH(c, d, a, b, x[7], 16, 0xf6bb4b60);
    b := HH(b, c, d, a, x[10], 23, 0xbebfbc70);
    FourSteps(40, s, x);
    a := HH(a, b, c, d, x[13], 4, 0x289b7ec6);
    d := HH(d, a, b, c, x[0], 11, 0xeaa127fa);
    c := HH(c, d, a, b, x[3], 16, 0xd4ef3085);
    b := HH(b, c, d, a, x[6], 23, 0x4881d05);
    FourSteps(44, s, x);
    a := HH(a, b, c, d, x[9], 4, 0xd9d4d039);
    d := HH(d, a, b, c, x[12], 11, 0xe6db99e5);
    c := HH(c, d, a, b, x[15], 16, 0x1fa27cf8);
    b := HH(b, c, d, a, x[2], 23, 0xc4ac5665);
    t := Registers(a, b, c, d);
  }

  /** Round 4 of transform; s is the state the block started from. */
  method Round4(r: Registers, x: seq<Word>, ghost s: Registers) returns (t: Registers)
    requires |x| == 16 && r == Steps(48, s, x)
    ensures t == Steps(64, s, x)
  {
    var a, b, c, d := r.a, r.b, r.c, r.d;
    MessageOrder();
    hide II, Steps, MessageIndex;
    FourSteps(48, s, x);
    a := II(a, b, c, d, x[0], 6, 0xf4292244);
    d := II(d, a, b, c, x[7], 10, 0x432aff97);
    c := II(c, d, a, b, x[14], 15, 0xab9423a7);
    b := II(b, c, d, a, x[5], 21, 0xfc93a039);
    FourSteps(52, s, x);
    a := II(a, b, c, d, x[12], 6, 0x655b59c3);
    d := II(d, a, b, c, x[3], 10, 0x8f0ccc92);
    c := II(c, d, a, b, x[10], 15, 0xffeff47d);
    b := II(b, c, d, a, x[1], 21, 0x85845dd1);
    FourSteps(56, s, x);
    a := II(a, b, c, d, x[8], 6, 0x6fa87e4f);
    d := II(d, a, b, c, x[15], 10, 0xfe2ce6e0);
    c := II(c, d, a, b, x[6], 15, 0xa3014314);
    b := II(b, c, d, a, x[13], 21, 0x4e0811a1);
    FourSteps(60, s, x);
    a := II(a, b, c, d, x[4], 6, 0xf7537e82);
    d := II(d, a, b, c, x[11], 10, 0xbd3af235);
    c := II(c, d, a, b, x[2], 15, 0x2ad7d2bb);
    b := II(b, c, d, a, x[9], 21, 0xeb86d391);
    t := Registers(a, b, c, d);
  }

  method Rounds(r: Registers, x: seq<Word>) returns (t: Registers)
    requires |x| == 16
    ensures t == Steps(64, r, x)
  {
    hide Steps;
    t := Round1(r, x, r);
    t := Round2(t, x, r);
    t := Round3(t, x, r);
    t := Round4(t, x, r);
  }

  // ----- words and bytes

  /** Four bytes shifted into place. */
  function Or(b0: Byte, b1: Byte, b2: Byte, b3: Byte): (w: Word)
    ensures w == WordOf([b0, b1, b2, b3])
  {
    Word((b0.bits as bv32) | (b1.bits as bv32 << 8) | (b2.bits as bv32 << 16) | (b3.bits as bv32 << 24))
  }

  method Decode(output: array<Word>, input: seq<Byte>)
    requires |input| == 4 * output.Length
    modifies output
    ensures output[..] == Words(input)
  {
    hide Or, WordOf;
    var i := 0;
    while i < output.Length
      invariant 0 <= i <= output.Length
      invariant output[..i] == Words(input[..4 * i])
    {
      var j := 4 * i;
      output[i] := Or(input[j], input[j + 1], input[j + 2], input[j + 3]);
      assert input[j..j + 4] == [input[j], input[j + 1], input[j + 2], input[j + 3]];
      WordsAppend(input[..j], input[j..j + 4]);
      assert input[..j] + input[j..j + 4] == input[..4 * (i + 1)];
      assert output[..i + 1] == output[..i] + [output[i]];
      i := i + 1;
    }
    assert input[..4 * i] == input;
  }

  method Encode(output: array<Byte>, input: seq<Word>)
    requires output.Length == 4 * |input|
    modifies output
    ensures output[..] == Bytes(input)
  {
    hide BytesOf;
    var i := 0;
    while i < |input|
      invariant 0 <= i <= |input|
      invariant output[..4 * i] == Bytes(input[..i])
    {
      var j, b := 4 * i, BytesOf(input[i]);
      output[j], output[j + 1], output[j + 2], output[j + 3] := b[0], b[1], b[2], b[3];
      assert output[..j + 4] == output[..j] + b;
      BytesAppend(input[..i], input[i]);
      assert input[..i] + [input[i]] == input[..i + 1];
      i := i + 1;
    }
    assert input[..i] == input;
    assert output[..4 * i] == output[..];
  }

  // ----- the bit counter

  /** One update of the counter words (low, high) by a 32-bit byte length, with the carry test of the code. */
  function CountAfter(lo: nat, hi: nat, length: nat): (r: (nat, nat))
    ensures r.0 < TWO32 && r.1 < TWO32
  {
    var shifted := ShiftLeft3(length);
    var lo' := Wrap(lo + shifted);
    var hi' := if lo' < shifted then Wrap(hi + 1) else hi;
    (lo', Wrap(hi' + ShiftRight29(length)))
  }

  function ShiftLeft3(x: nat): (y: nat)
    ensures y < TWO32
  {
    Wrap(x * 8)
  }

  function ShiftRight29(x: nat): nat { x / 0x2000_0000 }

  /** The two shifts split the bit length of a 32-bit byte length into its words. */
  lemma Shifts(length: nat)
    requires length < TWO32
    ensures 8 * length == TWO32 * ShiftRight29(length) + ShiftLeft3(length)
  {
    WrapIs(length * 8, length / 0x2000_0000, 8 * (length % 0x2000_0000));
  }

  lemma DivMod(x: nat, q: nat, r: nat, m: nat)
    requires m > 0 && r < m && x == m * q + r
    ensures x / m == q && x % m == r
  {
    var d := x / m;
    assert m * d + x % m == m * q + r;
    assert d > q ==> m * d >= m * (q + 1);
    assert d < q ==> m * q >= m * (d + 1);
  }

  lemma WrapIs(x: nat, q: nat, r: nat)
    requires r < TWO32 && x == TWO32 * q + r
    ensures Wrap(x) == r && Carried(x) == q
  {
    DivMod(x, q, r, TWO32);
  }

  lemma WrapSum(x: nat, y: nat)
    ensures Wrap(Wrap(x) + y) == Wrap(x + y)
    ensures x == TWO32 * Carried(x) + Wrap(x)
  {
    var s := Wrap(x) + y;
    WrapIs(x + y, Carried(x) + Carried(s), Wrap(s));
  }

  /** The carry test keeps the two words equal to the bit length of everything fed so far, modulo 2^64. */
  lemma AdvanceCountsBits(n: nat, length: nat)
    requires length < TWO32
    ensures CountAfter(LowBits(n), HighBits(n), length) == (LowBits(n + length), HighBits(n + length))
  {
    var qa, ra := Carried(8 * n), Wrap(8 * n);
    var qb, rb := ShiftRight29(length), ShiftLeft3(length);
    WrapSum(8 * n, 0);
    Shifts(length);
    hide Wrap, Carried, ShiftLeft3, ShiftRight29;
    if ra + rb < TWO32 {
      WrapIs(ra + rb, 0, ra + rb);
      WrapIs(8 * (n + length), qa + qb, ra + rb);
      WrapSum(qa, qb);
    } else {
      WrapIs(ra + rb, 1, ra + rb - TWO32);
      WrapIs(8 * (n + length), qa + qb + 1, ra + rb - TWO32);
      WrapSum(qa, 1);
      WrapSum(qa + 1, qb);
    }
  }

  /** How full the buffer is, recovered from the low counter word. */
  function Index(lo: nat): (k: nat)
    ensures k < 64
  {
    lo / 8 % 64
  }

  /** The low counter word alone tells how full the buffer is. */
  lemma IndexFromCounter(n: nat)
    ensures Index(LowBits(n)) == n % 64
  {
    WrapIs(8 * n, n / 0x2000_0000, 8 * (n % 0x2000_0000));
    DivMod(n, 0x80_0000 * (n / 0x2000_0000) + n % 0x2000_0000 / 64, n % 0x2000_0000 % 64, 64);
  }

  // ----- the 32-bit cursor of update

  /** Whether the 32-bit sum of cursor and block size never wraps, for a buffer holding index bytes. */
  predicate UpdateFits(index: nat, length: nat)
  {
    length < TWO32 - if index == 0 then 64 else index
  }

  lemma ShortFits(index: nat, length: nat)
    requires index < 64 && length <= 120
    ensures UpdateFits(index, length)
  {}

  /** A value the block cursor takes. */
  predicate IsCursor(index: nat, length: nat, i: nat)
  {
    64 - index <= i <= length && (index + i) % 64 == 0
  }

  lemma GuardExact(index: nat, length: nat, i: nat)
    requires index < 64 && UpdateFits(index, length) && IsCursor(index, length, i)
    ensures Wrap(i + 64) == i + 64
  {
    WrapIs(i + 64, 0, i + 64);
  }

  /** UpdateFits is exact: it fails if and only if the loop guard, whose sum wraps at 2^32, lets
      the block at some cursor through although that block ends past the input. */
  lemma CursorWraps(index: nat, length: nat)
    requires index < 64 && length < TWO32
    ensures !UpdateFits(index, length)
       <==> exists i: nat :: IsCursor(index, length, i) && Wrap(i + 64) <= length < i + 64
  {
    if !UpdateFits(index, length) {
      var i := TWO32 - if index == 0 then 64 else index;
      assert IsCursor(index, length, i);
    }
  }

  // ----- the object

  function Whole(m: seq<Byte>): seq<Byte> { m[..|m| / 64 * 64] }

  function Rest(m: seq<Byte>): seq<Byte> { m[|m| / 64 * 64..] }

  lemma LastBlock(data: seq<Byte>, k: nat)
    requires k % 64 == 0 && k <= |data| < k + 64
    ensures Whole(data) == data[..k] && Rest(data) == data[k..] && |data| % 64 == |data| - k
  {
    DivMod(|data|, k / 64, |data| - k, 64);
  }

  lemma CompressOne(r: Registers, block: seq<Byte>)
    requires |block| == 64
    ensures CompressAll(r, block) == Compress(r, block)
  {
    assert block[..64] == block && block[64..] == [];
  }

  lemma CompressNone(r: Registers)
    ensures CompressAll(r, []) == r
  {}

  lemma {:induction false} CompressAllConcat(r: Registers, a: seq<Byte>, b: seq<Byte>)
    requires |a| % 64 == 0
    ensures CompressAll(r, a + b) == CompressAll(CompressAll(r, a), b)
    decreases |a|
  {
    hide Compress;
    if a == [] {
      assert a + b == b;
    } else {
      assert (a + b)[..64] == a[..64] && (a + b)[64..] == a[64..] + b;
      CompressAllConcat(Compress(r, a[..64]), a[64..], b);
    }
  }

  /** Compressing the buffered bytes with new input continues the compression of the whole message. */
  lemma Continues(m: seq<Byte>, input: seq<Byte>)
    ensures CompressAll(CompressAll(INITIAL, Whole(m)), Whole(Rest(m) + input))
         == CompressAll(INITIAL, Whole(m + input))
    ensures Rest(Rest(m) + input) == Rest(m + input)
    ensures |Rest(m) + input| % 64 == |m + input| % 64
  {
    hide CompressAll;
    assert m + input == Whole(m) + (Rest(m) + input);
    assert Whole(m + input) == Whole(m) + Whole(Rest(m) + input);
    CompressAllConcat(INITIAL, Whole(m), Whole(Rest(m) + input));
  }

  lemma LengthWordsOf(n: nat)
    ensures LengthWords(n) == [ToWord(LowBits(n)), ToWord(HighBits(n))]
  {}

  /** The padding and length bytes that finalize feeds are those of sections 3.1 and 3.2. */
  lemma PaddingText(n: nat, padLen: nat)
    requires padLen == if n % 64 < 56 then 56 - n % 64 else 120 - n % 64
    ensures PADDING[..padLen] + Bytes(LengthWords(n)) == Padding(n)
  {
    hide LengthWords, Bytes;
    assert padLen == 1 + Zeros(n);
    assert PADDING[..padLen] == [Byte(0x80)] + seq(Zeros(n), _ => Byte(0));
  }

  lemma PaddedIs(m: seq<Byte>, padding: seq<Byte>, bits: seq<Byte>)
    requires padding + bits == Padding(|m|)
    ensures m + padding + bits == Padded(m)
  {
    hide Padding;
  }

  /** The digest is read off the registers once the padded message has been compressed. */
  lemma DigestOfState(m: seq<Byte>)
    ensures var r := CompressAll(INITIAL, Whole(Padded(m))); Bytes([r.a, r.b, r.c, r.d]) == Digest(m)
  {
    hide CompressAll, Padding, Bytes;
    assert Whole(Padded(m)) == Padded(m);
  }

  const PADDING: seq<Byte> := [Byte(0x80)] + seq(63, _ => Byte(0))

  class MD5 {
    var finalized: bool
    const buffer: array<Byte>
    const count: array<nat>
    const state: array<Word>
    const digest: array<Byte>
    ghost var message: seq<Byte>

    ghost predicate Shape()
      reads this, count
    {
      && buffer.Length == 64 && count.Length == 2 && state.Length == 4 && digest.Length == 16
      && buffer != digest
      && count[0] < TWO32 && count[1] < TWO32
    }

    ghost function Regs(): Registers
      requires state.Length == 4
      reads state
    {
      Registers(state[0], state[1], state[2], state[3])
    }

    /** Everything in the object is the image of the bytes fed so far. */
    ghost predicate Absorbed(m: seq<Byte>)
      requires Shape()
      reads this, buffer, count, state
    {
      && count[0] == LowBits(|m|) && count[1] == HighBits(|m|)
      && Regs() == CompressAll(INITIAL, Whole(m))
      && buffer[..|m| % 64] == Rest(m)
    }

    ghost predicate Valid()
      reads this, buffer, count, state, digest
    {
      Shape() && if finalized then digest[..] == Digest(message) else Absorbed(message)
    }

    constructor ()
      ensures Valid() && !finalized && message == []
      ensures fresh(buffer) && fresh(count) && fresh(state) && fresh(digest)
    {
      finalized := false;
      buffer := new Byte[64](_ => Byte(0));
      count := new nat[2](_ => 0);
      state := new Word[4](_ => Word(0));
      digest := new Byte[16](_ => Byte(0));
      message := [];
      new;
      state[0] := Word(0x67452301);
      state[1] := Word(0xefcdab89);
      state[2] := Word(0x98badcfe);
      state[3] := Word(0x10325476);
    }

    method Transform(block: seq<Byte>)
      requires |block| == 64 && state.Length == 4
      modifies state
      ensures Regs() == Compress(old(Regs()), block)
    {
      var x := new Word[16](_ => Word(0));
      Decode(x, block);
      var t := Rounds(Registers(state[0], state[1], state[2], state[3]), x[..]);
      hide Steps, Add;
      state[0] := Add(state[0], t.a);
      state[1] := Add(state[1], t.b);
      state[2] := Add(state[2], t.c);
      state[3] := Add(state[3], t.d);
    }

    /** memcpy(&buffer[at], source, |source|) */
    method Fill(at: nat, source: seq<Byte>)
      requires at + |source| <= buffer.Length
      modifies buffer
      ensures buffer[..] == old(buffer[..at]) + source + old(buffer[at + |source|..])
    {
      forall k | 0 <= k < |source| {
        buffer[at + k] := source[k];
      }
    }

    /** Add length bytes to the bit counter, with an explicit carry. */
    method AddToCount(length: nat)
      requires Shape() && length < TWO32
      modifies count
      ensures Shape() && (count[0], count[1]) == CountAfter(old(count[0]), old(count[1]), length)
    {
      var shifted := ShiftLeft3(length);
      count[0] := Wrap(count[0] + shifted);
      if count[0] < shifted {
        count[1] := Wrap(count[1] + 1);
      }
      count[1] := Wrap(count[1] + ShiftRight29(length));
    }

    /** The part of update that moves bytes: fill up the buffer, compress whole blocks, keep the rest. */
    method Absorb(index: nat, input: seq<Byte>)
      requires Shape() && index < 64 && UpdateFits(index, |input|)
      modifies buffer, state
      ensures
        var data := old(buffer[..index]) + input;
        Regs() == CompressAll(old(Regs()), Whole(data)) && buffer[..|data| % 64] == Rest(data)
    {
      hide Compress, CompressAll, Whole, Rest, Wrap;
      ghost var r, data := Regs(), buffer[..index] + input;
      var at, i := index, 0;
      var firstpart := 64 - index;
      if |input| >= firstpart {
        Fill(index, input[..firstpart]);
        assert buffer[..] == data[..64];
        Transform(buffer[..]);
        CompressOne(r, data[..64]);
        i := firstpart;
        GuardExact(index, |input|, i);
        while Wrap(i + 64) <= |input|
          invariant IsCursor(index, |input|, i) && Wrap(i + 64) == i + 64
          invariant Regs() == CompressAll(r, data[..index + i])
          decreases |input| - i
          modifies state
        {
          assert data[..index + i + 64] == data[..index + i] + input[i..i + 64];
          CompressAllAppend(r, data[..index + i], input[i..i + 64]);
          Transform(input[i..i + 64]);
          i := i + 64;
          GuardExact(index, |input|, i);
        }
        at := 0;
        LastBlock(data, index + i);
        assert data[index + i..] == input[i..];
      } else {
        CompressNone(r);
        LastBlock(data, 0);
      }
      Fill(at, input[i..]);
    }

    method Update(input: seq<Byte>)
      requires Valid() && UpdateFits(Index(count[0]), |input|)
      modifies this`message, buffer, count, state
      ensures Valid()
      ensures message == if finalized then old(message) else old(message) + input
    {
      hide CompressAll, Digest, Whole, Rest, CountAfter, LowBits, HighBits, Index;
      var index := Index(count[0]);
      AddToCount(|input|);
      Absorb(index, input);
      if !finalized {
        AdvanceCountsBits(|message|, |input|);
        IndexFromCounter(|message|);
        Continues(message, input);
        message := message + input;
      }
    }

    lemma BufferedLength()
      requires Valid() && !finalized
      ensures Index(count[0]) == |message| % 64
    {
      IndexFromCounter(|message|);
    }

    /** The first half of finalize: feed the padding and the length of what came before it. */
    method Pad()
      requires Valid() && !finalized
      modifies this`message, buffer, count, state
      ensures Valid() && message == Padded(old(message))
    {
      hide Wrap, Carried, LengthWords, Padding, ToWord, Bytes, Zeros, UpdateFits, Index, CompressAll, Whole, Rest;
      ghost var m := message;
      var bits := new Byte[8](_ => Byte(0));
      LengthWordsOf(|m|);
      Encode(bits, [ToWord(count[0]), ToWord(count[1])]);
      BufferedLength();
      var index := Index(count[0]);
      var padLen := if index < 56 then 56 - index else 120 - index;
      PaddingText(|m|, padLen);
      var padding := PADDING[..padLen];
      ShortFits(index, padLen);
      Update(padding);
      ShortFits(Index(count[0]), 8);
      Update(bits[..]);
      PaddedIs(m, padding, Bytes(LengthWords(|m|)));
    }

    method Finalize()
      requires Valid()
      modifies this, buffer, count, state, digest
      ensures Valid() && finalized && message == old(message)
      ensures old(finalized) ==>
        digest[..] == old(digest[..]) && unchanged(buffer) && unchanged(count) && unchanged(state)
    {
      if !finalized {
        hide CompressAll, Digest, Padded, Bytes, Whole;
        ghost var m := message;
        Pad();
        Encode(digest, state[..]);
        DigestOfState(m);
        assert state[..] == [state[0], state[1], state[2], state[3]];
        assert digest[..] == Digest(m);
        message := m;
        Fill(0, seq(64, _ => Byte(0)));
        count[0], count[1] := 0, 0;
        finalized := true;
      }
    }

    /** The digest as text, empty before finalize. */
    method HexDigest() returns (text: string)
      requires Valid()
      ensures text == if finalized then Hex(Digest(message)) else ""
    {
      text := "";
      if finalized {
        hide Digest, HexByte;
        for i := 0 to 16
          invariant text == Hex(digest[..i])
        {
          HexAppend(digest[..i], digest[i]);
          assert digest[..i + 1] == digest[..i] + [digest[i]];
          text := text + HexByte(digest[i]);
        }
        assert digest[..16] == digest[..];
      }
    }
  }

  lemma {:induction false} HexAppend(bytes: seq<Byte>, b: Byte)
    ensures Hex(bytes + [b]) == Hex(bytes) + HexByte(b)
  {
    if bytes == [] {
      assert bytes + [b] == [b];
    } else {
      assert (bytes + [b])[1..] == bytes[1..] + [b];
      HexAppend(bytes[1..], b);
    }
  }

  // ----- whole uses of the object

  function Concat(chunks: seq<seq<Byte>>): seq<Byte>
  {
    if chunks == [] then [] else Concat(chunks[..|chunks| - 1]) + chunks[|chunks| - 1]
  }

  /** Every chunk is short enough for the 32-bit cursor of update. */
  predicate ChunksFit(chunks: seq<seq<Byte>>)
  {
    forall i :: 0 <= i < |chunks| ==> UpdateFits(|Concat(chunks[..i])| % 64, |chunks[i]|)
  }

  lemma NoChunks(chunks: seq<seq<Byte>>)
    ensures Concat(chunks[..0]) == []
  {}

  lemma NextChunk(chunks: seq<seq<Byte>>, i: nat)
    requires i < |chunks| && ChunksFit(chunks)
    ensures Concat(chunks[..i + 1]) == Concat(chunks[..i]) + chunks[i]
    ensures UpdateFits(|Concat(chunks[..i])| % 64, |chunks[i]|)
  {
    assert chunks[..i + 1][..i] == chunks[..i];
  }

  /** Feeding a message in any chunks whatever gives the one-shot digest of the whole message. */
  method DigestOfChunks(chunks: seq<seq<Byte>>) returns (text: string)
    requires ChunksFit(chunks)
    ensures text == Hex(Digest(Concat(chunks)))
  {
    hide *;
    NoChunks(chunks);
    var md5 := new MD5();
    for i := 0 to |chunks|
      invariant md5.Valid() && !md5.finalized && fresh(md5) && fresh(md5.buffer) && fresh(md5.count)
      invariant fresh(md5.state) && fresh(md5.digest)
      invariant md5.message == Concat(chunks[..i])
    {
      md5.BufferedLength();
      NextChunk(chunks, i);
      md5.Update(chunks[i]);
    }
    assert chunks[..|chunks|] == chunks;
    md5.Finalize();
    text := md5.HexDigest();
  }

  /** md5(std::string): one update with the whole text, which must fit a 32-bit length. */
  method Md5Text(bytes: seq<Byte>) returns (text: string)
    requires UpdateFits(0, |bytes|)
    ensures text == Hex(Digest(bytes))
  {
    assert Concat([bytes][..0]) == [];
    assert Concat([bytes]) == bytes;
    text := DigestOfChunks([bytes]);
  }
}
