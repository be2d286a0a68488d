/** The SQL functions of sql/sample/monitor.schema that turn a tenant id into its public text id: a Feistel
    scrambler on 32-bit integers and a base-62 printer. */
module TenantId {
  import opened Wrappers

  const TWO16: int := 0x1_0000
  const TWO31: int := 0x8000_0000
  const TWO32: int := 0x1_0000_0000

  /** The SQL type int. */
  predicate IsInt(v: int) { -TWO31 <= v < TWO31 }

  predicate IsHalf(h: int) { 0 <= h < TWO16 }

  // ----- 16-bit exclusive or

  /** a # b on the lowest n bits, bit by bit. */
  function Xor(a: nat, b: nat, n: nat): nat
  {
    if n == 0 then 0 else (if a % 2 == b % 2 then 0 else 1) + 2 * Xor(a / 2, b / 2, n - 1)
  }

  function Pow2(n: nat): nat { if n == 0 then 1 else 2 * Pow2(n - 1) }

  lemma {:induction false} XorTwice(a: nat, b: nat, n: nat)
    requires a < Pow2(n)
    ensures Xor(Xor(a, b, n), b, n) == a
    ensures Xor(a, b, n) < Pow2(n)
  {
    if n > 0 {
      XorTwice(a / 2, b / 2, n - 1);
      var x := Xor(a, b, n);
      assert x / 2 == Xor(a / 2, b / 2, n - 1) && x % 2 == if a % 2 == b % 2 then 0 else 1;
    }
  }

  function Xor16(a: int, b: int): (r: int)
    requires IsHalf(a) && IsHalf(b)
    ensures IsHalf(r)
  {
    Pow16();
    XorTwice(a, b, 16);
    Xor(a, b, 16)
  }

  lemma Pow16()
    ensures Pow2(16) == TWO16
  {
    assert Pow2(4) == 16;
    assert Pow2(8) == 256;
    assert Pow2(12) == 4096;
  }

  lemma Xor16Twice(a: int, b: int)
    requires IsHalf(a) && IsHalf(b)
    ensures Xor16(Xor16(a, b), b) == a
  {
    Pow16();
    XorTwice(a, b, 16);
  }

  // ----- pseudo_encrypt_int

  /** A round function: 16 bits to 16 bits, otherwise arbitrary. */
  ghost predicate IsRound(f: int -> int)
  {
    forall r :: IsHalf(r) ==> IsHalf(f(r))
  }

  /** The round function of the schema: the numeric quotient is rounded to the nearest integer. */
  function SchemaRound(r: int): int
  {
    var x := (1366 * r + 150889) % 714025;
    (2 * x * 32767 + 714025) / (2 * 714025)
  }

  /** The quotient is never half way between two integers, so the rule for ties does not matter. */
  lemma NeverHalfWay(r: int)
    ensures var x := (1366 * r + 150889) % 714025; 2 * x * 32767 % (2 * 714025) != 714025
  {
    var x := (1366 * r + 150889) % 714025;
    var q := 2 * x * 32767 / (2 * 714025);
    assert 2 * x * 32767 == 2 * 714025 * q + 2 * x * 32767 % (2 * 714025);
  }

  /** Nor does the precision of the division, as long as the error is below one part in 1428050. */
  lemma PrecisionDoesNotMatter(r: int, q: real)
    requires var x := (1366 * r + 150889) % 714025;
      -1.0 < 1428050.0 * q - (2 * x * 32767) as real < 1.0
    ensures (q + 0.5).Floor == SchemaRound(r)
  {
    var x := (1366 * r + 150889) % 714025;
    var m := 2 * x * 32767 + 714025;
    NeverHalfWay(r);
    assert m == 1428050 * SchemaRound(r) + m % 1428050;
    assert 0 < m % 1428050 < 1428050;
    assert (m - 1) as real < 1428050.0 * (q + 0.5) < (m + 1) as real;
  }

  /** A round function whose results leave the top bit alone. */
  ghost predicate IsSmallRound(f: int -> int)
  {
    forall r :: IsHalf(r) ==> 0 <= f(r) < 0x8000
  }

  /** The results of the schema's round function have 15 bits; the product does not overflow. */
  lemma SchemaRoundIsSmall()
    ensures IsSmallRound(SchemaRound) && IsRound(SchemaRound)
    ensures forall r :: IsHalf(r) ==> 1366 * r + 150889 < TWO31
  {
    forall r | IsHalf(r) ensures 0 <= SchemaRound(r) < 0x8000 {
      var x := (1366 * r + 150889) % 714025;
      assert 0 <= x < 714025;
    }
  }

  /** (v >> 16) & 65535 and v & 65535; the shift is arithmetic. */
  function High(v: int): (h: int)
    ensures IsHalf(h)
  {
    v / TWO16 % TWO16
  }

  function Low(v: int): (h: int)
    ensures IsHalf(h)
  {
    v % TWO16
  }

  /** (h << 16) + l, where the shifted value wraps to the signed range. */
  function Join(h: int, l: int): (v: int)
    requires IsHalf(h) && IsHalf(l)
    ensures IsInt(v)
  {
    var shifted := if h * TWO16 < TWO31 then h * TWO16 else h * TWO16 - TWO32;
    shifted + l
  }

  lemma JoinSplits(h: int, l: int)
    requires IsHalf(h) && IsHalf(l)
    ensures High(Join(h, l)) == h && Low(Join(h, l)) == l
  {
    var k := if h * TWO16 < TWO31 then h else h - TWO16;
    assert Join(h, l) == k * TWO16 + l;
    assert (k * TWO16 + l) / TWO16 == k;
  }

  lemma SplitJoins(v: int)
    requires IsInt(v)
    ensures Join(High(v), Low(v)) == v
  {
    assert v == v / TWO16 * TWO16 + v % TWO16;
    assert -0x8000 <= v / TWO16 < 0x8000;
  }

  /** The two halves after n rounds. */
  ghost function Rounds(f: int -> int, l: int, r: int, n: nat): (p: (int, int))
    requires IsRound(f) && IsHalf(l) && IsHalf(r)
    ensures IsHalf(p.0) && IsHalf(p.1)
  {
    if n == 0 then (l, r)
    else
      var p := Rounds(f, l, r, n - 1);
      (p.1, Xor16(p.0, f(p.1)))
  }

  ghost function Encrypt(f: int -> int, v: int): (e: int)
    requires IsRound(f)
    ensures IsInt(e)
  {
    var p := Rounds(f, High(v), Low(v), 3);
    Join(p.1, p.0)
  }

  /** Running the rounds on the swapped result takes them back. */
  lemma ThreeRoundsBack(f: int -> int, l: int, r: int)
    requires IsRound(f) && IsHalf(l) && IsHalf(r)
    ensures
      var p := Rounds(f, l, r, 3);
      Rounds(f, p.1, p.0, 3) == (r, l)
  {
    hide Xor16;
    var p0, p1, p2, p3 := (l, r), Rounds(f, l, r, 1), Rounds(f, l, r, 2), Rounds(f, l, r, 3);
    assert Rounds(f, l, r, 0) == p0;
    assert p1 == (r, Xor16(l, f(r))) && p2 == (p1.1, Xor16(p1.0, f(p1.1))) && p3 == (p2.1, Xor16(p2.0, f(p2.1)));
    Xor16Twice(p2.0, f(p2.1));
    Xor16Twice(p1.0, f(p1.1));
    Xor16Twice(l, f(r));
    assert Rounds(f, p3.1, p3.0, 0) == (p3.1, p3.0);
    assert Rounds(f, p3.1, p3.0, 1) == (p2.1, p2.0);
    assert Rounds(f, p3.1, p3.0, 2) == (p1.1, p1.0);
  }

  /** The scrambler is its own inverse on all 32-bit integers, whatever the round function. */
  lemma EncryptIsInvolution(f: int -> int, v: int)
    requires IsRound(f) && IsInt(v)
    ensures Encrypt(f, Encrypt(f, v)) == v
  {
    hide Rounds, Join, High, Low;
    var p := Rounds(f, High(v), Low(v), 3);
    JoinSplits(p.1, p.0);
    ThreeRoundsBack(f, High(v), Low(v));
    SplitJoins(v);
  }

  lemma EncryptIsInjective(f: int -> int, v: int, w: int)
    requires IsRound(f) && IsInt(v) && IsInt(w) && Encrypt(f, v) == Encrypt(f, w)
    ensures v == w
  {
    EncryptIsInvolution(f, v);
    EncryptIsInvolution(f, w);
  }

  /** Exclusive or with a number of n bits leaves the bit above them alone. */
  lemma {:induction false} TopBit(a: nat, b: nat, n: nat)
    requires a < Pow2(n + 1) && b < Pow2(n)
    ensures Xor(a, b, n + 1) < Pow2(n) <==> a < Pow2(n)
  {
    if n > 0 {
      TopBit(a / 2, b / 2, n - 1);
    }
  }

  lemma TopBit16(a: int, b: int)
    requires IsHalf(a) && 0 <= b < 0x8000
    ensures Xor16(a, b) < 0x8000 <==> a < 0x8000
  {
    Pow16();
    assert Pow2(16) == 2 * Pow2(15);
    TopBit(a, b, 15);
    hide Xor;
  }

  /** The scrambler keeps the sign: the high half goes through two exclusive ors with 15 bits each. */
  lemma EncryptKeepsSign(f: int -> int, v: int)
    requires IsRound(f) && IsSmallRound(f) && IsInt(v)
    ensures Encrypt(f, v) < 0 <==> v < 0
  {
    hide Xor16;
    var l, r := High(v), Low(v);
    var p1, p2 := Rounds(f, l, r, 1), Rounds(f, l, r, 2);
    assert Rounds(f, l, r, 0) == (l, r);
    assert p1.1 == Xor16(l, f(r)) && p2.0 == p1.1 && Rounds(f, l, r, 3).1 == Xor16(p2.0, f(p2.1));
    TopBit16(l, f(r));
    TopBit16(p2.0, f(p2.1));
    hide Rounds;
    assert v < 0 <==> l >= 0x8000;
  }

  method PseudoEncrypt(f: int -> int, value: int) returns (e: int)
    requires IsRound(f) && IsInt(value)
    ensures e == Encrypt(f, value)
  {
    var l1, r1 := High(value), Low(value);
    var i := 0;
    while i < 3
      invariant 0 <= i <= 3 && IsHalf(l1) && IsHalf(r1)
      invariant (l1, r1) == Rounds(f, High(value), Low(value), i)
    {
      hide Xor16, High, Low;
      var l2 := r1;
      var r2 := Xor16(l1, f(r1));
      l1, r1 := l2, r2;
      i := i + 1;
    }
    e := Join(r1, l1);
  }

  // ----- stringify_int

  const BASE: nat := 62

  /** The character at a position of 'a'..'z' 'A'..'Z' '0'..'9'. */
  function Digit(d: nat): char
    requires d < BASE
  {
    if d < 26 then 'a' + d as char else if d < 52 then 'A' + (d - 26) as char else '0' + (d - 52) as char
  }

  function DigitValue(c: char): nat
  {
    if 'a' <= c <= 'z' then (c - 'a') as int
    else if 'A' <= c <= 'Z' then (c - 'A') as int + 26
    else if '0' <= c <= '9' then (c - '0') as int + 52
    else 0
  }

  lemma DigitRoundTrip(d: nat)
    requires d < BASE
    ensures DigitValue(Digit(d)) == d
  {}

  /** The digits of n, lowest first; at least one. */
  function Digits(n: nat): (s: string)
    ensures s != ""
  {
    if n < BASE then [Digit(n)] else [Digit(n % BASE)] + Digits(n / BASE)
  }

  function Value(s: string): nat
  {
    if s == "" then 0 else DigitValue(s[0]) + BASE * Value(s[1..])
  }

  lemma {:induction false} DigitsRoundTrip(n: nat)
    ensures Value(Digits(n)) == n
  {
    DigitRoundTrip(n % BASE);
    if n >= BASE {
      DigitsRoundTrip(n / BASE);
      assert Digits(n)[1..] == Digits(n / BASE);
    } else {
      assert Digits(n)[1..] == "";
    }
  }

  function Abs(n: int): nat { if n < 0 then -n else n }

  /** abs(int) raises an error on the smallest int, which has no counterpart. */
  function Stringify(n: int): Option<string>
  {
    if n == -TWO31 then None else Some(Digits(Abs(n)))
  }

  /** The alphabet of the schema: small letters, capital letters and decimal digits. */
  lemma DigitsOfAlphabet(d: nat)
    ensures d < 26 ==> Digit(d) == "abcdefghijklmnopqrstuvwxyz"[d]
    ensures d < 26 ==> Digit(26 + d) == "ABCDEFGHIJKLMNOPQRSTUVWXYZ"[d]
    ensures d < 10 ==> Digit(52 + d) == "0123456789"[d]
  {
    if d < 13 {
      assert d == 0 || d == 1 || d == 2 || d == 3 || d == 4 || d == 5 || d == 6 || d == 7 || d == 8 || d == 9
          || d == 10 || d == 11 || d == 12;
    } else if d < 26 {
      assert d == 13 || d == 14 || d == 15 || d == 16 || d == 17 || d == 18 || d == 19 || d == 20 || d == 21
          || d == 22 || d == 23 || d == 24 || d == 25;
    }
  }

  /** The text of a number: digits of the alphabet, lowest first and no leading zero, whose value is the number without
      its sign. Only the smallest integer has none. */
  lemma StringifyExactly(n: int)
    requires IsInt(n)
    ensures Stringify(n) == None <==> n == -2147483648
    ensures Stringify(n) != None ==>
      var text := Stringify(n).value;
      && Value(text) == (if n < 0 then -n else n)
      && (forall c <- text :: 'a' <= c <= 'z' || 'A' <= c <= 'Z' || '0' <= c <= '9')
      && text != "" && (|text| > 1 ==> text[|text| - 1] != 'a')
  {
    DigitsRoundTrip(Abs(n));
    DigitsAreDigits(Abs(n));
  }

  lemma {:induction false} DigitsAreDigits(n: nat)
    ensures forall c <- Digits(n) :: 'a' <= c <= 'z' || 'A' <= c <= 'Z' || '0' <= c <= '9'
    ensures n > 0 ==> Digits(n)[|Digits(n)| - 1] != 'a'
    ensures n == 0 ==> |Digits(n)| == 1
  {
    if n >= BASE {
      DigitsAreDigits(n / BASE);
    }
  }

  /** Texts agree exactly if the numbers agree up to sign. */
  lemma StringifyIsInjective(m: int, n: int)
    requires IsInt(m) && IsInt(n)
    ensures Stringify(m) == Stringify(n) <==> Abs(m) == Abs(n)
  {
    DigitsRoundTrip(Abs(m));
    DigitsRoundTrip(Abs(n));
  }

  method StringifyInt(n: int) returns (output: Option<string>)
    requires IsInt(n)
    ensures output == Stringify(n)
  {
    if n == -TWO31 {
      return None;
    }
    var rest: nat := Abs(n);
    var text := "";
    while true
      invariant text + Digits(rest) == Digits(Abs(n))
      decreases rest
    {
      text := text + [Digit(rest % BASE)];
      if rest / BASE == 0 {
        break;
      }
      rest := rest / BASE;
    }
    return Some(text);
  }

  // ----- tenant_assign_text_id_column

  ghost function TextId(f: int -> int, tenant: int): Option<string>
    requires IsRound(f)
  {
    Stringify(Encrypt(f, tenant))
  }

  method AssignTextId(f: int -> int, tenant: int) returns (text: Option<string>)
    requires IsRound(f) && IsInt(tenant)
    ensures text == TextId(f, tenant)
  {
    var e := PseudoEncrypt(f, tenant);
    text := StringifyInt(e);
  }

  /** Two tenants share a text id exactly if their scrambled ids are equal or opposite. */
  lemma TextIdsCollideExactly(f: int -> int, a: int, b: int)
    requires IsRound(f) && IsInt(a) && IsInt(b)
    ensures TextId(f, a) == TextId(f, b) <==> Encrypt(f, a) == Encrypt(f, b) || Encrypt(f, a) == -Encrypt(f, b)
  {
    StringifyIsInjective(Encrypt(f, a), Encrypt(f, b));
    hide Encrypt, Stringify;
  }

  /** The text id tells apart any two tenants whose ids have the same sign, negative or not. */
  lemma UniqueForOneSign(f: int -> int, a: int, b: int)
    requires IsRound(f) && IsSmallRound(f) && IsInt(a) && IsInt(b) && (a < 0 <==> b < 0)
    ensures TextId(f, a) == TextId(f, b) <==> a == b
  {
    hide Encrypt, TextId, Rounds;
    TextIdsCollideExactly(f, a, b);
    EncryptKeepsSign(f, a);
    EncryptKeepsSign(f, b);
    if Encrypt(f, a) == Encrypt(f, b) {
      EncryptIsInjective(f, a, b);
    }
  }

  /** Across the signs it does not: apart from the tenant that scrambles to 0 and the one whose insert fails, every
      tenant shares its text id with exactly one other. If the scrambler keeps the sign, one of the two ids is
      negative and the other is not. */
  lemma EveryTextIdIsShared(f: int -> int, a: int)
    requires IsRound(f) && IsInt(a) && Encrypt(f, a) != 0 && Encrypt(f, a) != -TWO31
    ensures
      var b := Encrypt(f, -Encrypt(f, a));
      && IsInt(b) && b != a && TextId(f, b) == TextId(f, a)
      && (IsSmallRound(f) ==> (a < 0 <==> b >= 0))
      && forall c :: IsInt(c) && TextId(f, c) == TextId(f, a) ==> c == a || c == b
  {
    hide Encrypt, TextId;
    var n := Encrypt(f, a);
    var b := Encrypt(f, -n);
    EncryptIsInvolution(f, -n);
    EncryptIsInvolution(f, a);
    if IsSmallRound(f) {
      EncryptKeepsSign(f, a);
      EncryptKeepsSign(f, -n);
    }
    TextIdsCollideExactly(f, b, a);
    forall c | IsInt(c) && TextId(f, c) == TextId(f, a) ensures c == a || c == b {
      TextIdsCollideExactly(f, c, a);
      EncryptIsInvolution(f, c);
    }
  }

  /** A text id belongs to one tenant alone exactly if that tenant scrambles to 0 or its insert fails. */
  lemma TextIdUniqueExactly(f: int -> int, a: int)
    requires IsRound(f) && IsInt(a)
    ensures (forall c :: IsInt(c) && TextId(f, c) == TextId(f, a) ==> c == a)
       <==> Encrypt(f, a) == 0 || Encrypt(f, a) == -TWO31
  {
    hide Encrypt, TextId;
    if Encrypt(f, a) == 0 || Encrypt(f, a) == -TWO31 {
      forall c | IsInt(c) && TextId(f, c) == TextId(f, a) ensures c == a {
        TextIdsCollideExactly(f, c, a);
        EncryptIsInvolution(f, c);
        EncryptIsInvolution(f, a);
      }
    } else {
      EveryTextIdIsShared(f, a);
    }
  }

  // ----- the ids of the schema

  lemma RoundsAre(f: int -> int, l: int, r: int, x: int, y: int, z: int)
    requires IsRound(f) && IsHalf(l) && IsHalf(r) && IsHalf(x) && IsHalf(y)
    requires Xor16(l, f(r)) == x && Xor16(r, f(x)) == y && Xor16(x, f(y)) == z
    ensures Rounds(f, l, r, 3) == (y, z)
  {
    hide Xor16;
    assert Rounds(f, l, r, 0) == (l, r);
    assert Rounds(f, l, r, 1) == (r, x);
    assert Rounds(f, l, r, 2) == (x, y);
  }

  // Exclusive or of given numbers, by their hexadecimal digits.

  datatype Digit4 = Digit4(b3: bool, b2: bool, b1: bool, b0: bool)

  datatype Half = Half(d3: Digit4, d2: Digit4, d1: Digit4, d0: Digit4)

  const D0 := Digit4(false, false, false, false)
  const D1 := Digit4(false, false, false, true)
  const D2 := Digit4(false, false, true, false)
  const D3 := Digit4(false, false, true, true)
  const D4 := Digit4(false, true, false, false)
  const D5 := Digit4(false, true, false, true)
  const D6 := Digit4(false, true, true, false)
  const D7 := Digit4(false, true, true, true)
  const D8 := Digit4(true, false, false, false)
  const D9 := Digit4(true, false, false, true)
  const DA := Digit4(true, false, true, false)
  const DB := Digit4(true, false, true, true)
  const DC := Digit4(true, true, false, false)
  const DD := Digit4(true, true, false, true)
  const DE := Digit4(true, true, true, false)
  const DF := Digit4(true, true, true, true)

  function BitValue(b: bool): nat { if b then 1 else 0 }

  function DigitValue4(x: Digit4): (v: nat)
    ensures v < 16
  {
    8 * BitValue(x.b3) + 4 * BitValue(x.b2) + 2 * BitValue(x.b1) + BitValue(x.b0)
  }

  function HalfValue(x: Half): (v: nat)
    ensures IsHalf(v)
  {
    4096 * DigitValue4(x.d3) + 256 * DigitValue4(x.d2) + 16 * DigitValue4(x.d1) + DigitValue4(x.d0)
  }

  function XorDigits(x: Digit4, y: Digit4): Digit4
  {
    Digit4(x.b3 != y.b3, x.b2 != y.b2, x.b1 != y.b1, x.b0 != y.b0)
  }

  lemma XorBit(a: nat, b: nat, x: bool, y: bool, n: nat)
    ensures Xor(2 * a + BitValue(x), 2 * b + BitValue(y), n + 1) == BitValue(x != y) + 2 * Xor(a, b, n)
  {}

  lemma XorTwoBits(a: nat, b: nat, x1: bool, x0: bool, y1: bool, y0: bool, n: nat)
    ensures Xor(4 * a + 2 * BitValue(x1) + BitValue(x0), 4 * b + 2 * BitValue(y1) + BitValue(y0), n + 2)
         == BitValue(x0 != y0) + 2 * BitValue(x1 != y1) + 4 * Xor(a, b, n)
  {
    hide Xor, BitValue;
    XorBit(a, b, x1, y1, n);
    XorBit(2 * a + BitValue(x1), 2 * b + BitValue(y1), x0, y0, n + 1);
    assert 2 * (2 * a + BitValue(x1)) == 4 * a + 2 * BitValue(x1);
    assert 2 * (2 * b + BitValue(y1)) == 4 * b + 2 * BitValue(y1);
  }

  lemma XorDigit(a: nat, b: nat, x: Digit4, y: Digit4, n: nat)
    ensures Xor(16 * a + DigitValue4(x), 16 * b + DigitValue4(y), n + 4)
         == DigitValue4(XorDigits(x, y)) + 16 * Xor(a, b, n)
  {
    hide Xor, BitValue, DigitValue4, XorDigits, Upper;
    DigitParts(a, x);
    DigitParts(b, y);
    DigitParts(Xor(a, b, n), XorDigits(x, y));
    UpperXor(a, b, x, y, n);
    XorTwoBits(Upper(a, x), Upper(b, y), x.b1, x.b0, y.b1, y.b0, n + 2);
    XorParts(x, y);
  }

  /** A number followed by the upper two bits of a digit. */
  function Upper(a: nat, x: Digit4): nat { 4 * a + 2 * BitValue(x.b3) + BitValue(x.b2) }

  lemma UpperXor(a: nat, b: nat, x: Digit4, y: Digit4, n: nat)
    ensures Xor(Upper(a, x), Upper(b, y), n + 2) == Upper(Xor(a, b, n), XorDigits(x, y))
  {
    hide Xor, BitValue;
    XorTwoBits(a, b, x.b3, x.b2, y.b3, y.b2, n);
  }

  lemma DigitParts(a: nat, x: Digit4)
    ensures 16 * a + DigitValue4(x) == 4 * Upper(a, x) + 2 * BitValue(x.b1) + BitValue(x.b0)
  {
    hide BitValue;
  }

  lemma XorParts(x: Digit4, y: Digit4)
    ensures var z := XorDigits(x, y);
      z.b3 == (x.b3 != y.b3) && z.b2 == (x.b2 != y.b2) && z.b1 == (x.b1 != y.b1) && z.b0 == (x.b0 != y.b0)
  {}

  lemma XorNoBits(a: nat, b: nat)
    ensures Xor(a, b, 0) == 0
  {}

  lemma XorHalves(x: Half, y: Half)
    ensures Xor16(HalfValue(x), HalfValue(y)) == HalfValue(Half(XorDigits(x.d3, y.d3), XorDigits(x.d2, y.d2),
                                                              XorDigits(x.d1, y.d1), XorDigits(x.d0, y.d0)))
  {
    hide Xor, DigitValue4, XorDigits;
    var a1, b1 := DigitValue4(x.d3), DigitValue4(y.d3);
    var a2, b2 := 16 * a1 + DigitValue4(x.d2), 16 * b1 + DigitValue4(y.d2);
    var a3, b3 := 16 * a2 + DigitValue4(x.d1), 16 * b2 + DigitValue4(y.d1);
    XorNoBits(0, 0);
    XorDigit(0, 0, x.d3, y.d3, 0);
    XorDigit(a1, b1, x.d2, y.d2, 4);
    XorDigit(a2, b2, x.d1, y.d1, 8);
    XorDigit(a3, b3, x.d0, y.d0, 12);
  }

  lemma ScrambleZeroXors()
    ensures Xor16(0, 6924) == 6924 && Xor16(0, 14995) == 14995 && Xor16(6924, 29432) == 27124
  {
    hide Xor, Xor16;
    XorHalves(Half(D0, D0, D0, D0), Half(D1, DB, D0, DC));
    XorHalves(Half(D0, D0, D0, D0), Half(D3, DA, D9, D3));
    XorHalves(Half(D1, DB, D0, DC), Half(D7, D2, DF, D8));
  }

  lemma ScrambleZero()
    requires IsRound(SchemaRound)
    ensures Encrypt(SchemaRound, 0) == 1777613459
  {
    hide Xor, Xor16;
    ScrambleZeroXors();
    RoundsAre(SchemaRound, 0, 0, 6924, 14995, 27124);
  }

  lemma ScrambleOneXors()
    ensures Xor16(0, 6987) == 6987 && Xor16(1, 18944) == 18945 && Xor16(6987, 14908) == 8567
  {
    hide Xor, Xor16;
    XorHalves(Half(D0, D0, D0, D0), Half(D1, DB, D4, DB));
    XorHalves(Half(D0, D0, D0, D1), Half(D4, DA, D0, D0));
    XorHalves(Half(D1, DB, D4, DB), Half(D3, DA, D3, DC));
  }

  lemma ScrambleOne()
    requires IsRound(SchemaRound)
    ensures Encrypt(SchemaRound, 1) == 561465857
  {
    hide Xor, Xor16;
    ScrambleOneXors();
    RoundsAre(SchemaRound, 0, 1, 6987, 18945, 8567);
  }

  lemma ScrambleSmallestXors()
    ensures Xor16(32768, 6924) == 39692 && Xor16(0, 4785) == 4785 && Xor16(39692, 11976) == 46532
  {
    hide Xor, Xor16;
    XorHalves(Half(D8, D0, D0, D0), Half(D1, DB, D0, DC));
    XorHalves(Half(D0, D0, D0, D0), Half(D1, D2, DB, D1));
    XorHalves(Half(D9, DB, D0, DC), Half(D2, DE, DC, D8));
  }

  lemma ScrambleSmallest()
    requires IsRound(SchemaRound)
    ensures Encrypt(SchemaRound, -TWO31) == -1245441359
  {
    hide Xor, Xor16;
    ScrambleSmallestXors();
    RoundsAre(SchemaRound, 32768, 0, 39692, 4785, 46532);
  }

  lemma ScrambleOppositeXors()
    ensures Xor16(56968, 11288) == 62096 && Xor16(46591, 232) == 46359 && Xor16(62096, 29511) == 33239
  {
    hide Xor, Xor16;
    XorHalves(Half(DD, DE, D8, D8), Half(D2, DC, D1, D8));
    XorHalves(Half(DB, D5, DF, DF), Half(D0, D0, DE, D8));
    XorHalves(Half(DF, D2, D9, D0), Half(D7, D3, D4, D7));
  }

  lemma ScrambleOpposite()
    requires IsRound(SchemaRound)
    ensures Encrypt(SchemaRound, -561465857) == -2116569833
  {
    hide Xor, Xor16;
    ScrambleOppositeXors();
    RoundsAre(SchemaRound, 56968, 46591, 62096, 46359, 33239);
  }

  /** The scrambled ids of 0, 1 and the smallest integer. */
  lemma SchemaScrambles()
    ensures IsRound(SchemaRound)
    ensures Encrypt(SchemaRound, 0) == 1777613459
    ensures Encrypt(SchemaRound, 1) == 561465857
    ensures Encrypt(SchemaRound, -TWO31) == -1245441359
    ensures Encrypt(SchemaRound, -561465857) == -2116569833
  {
    SchemaRoundIsSmall();
    ScrambleZero();
    ScrambleOne();
    ScrambleSmallest();
    ScrambleOpposite();
  }

  /** Two ids of one sign never share a text id; in particular no two tenants of the sample data, whose ids are
      positive, do. */
  lemma SchemaUniqueForOneSign(a: int, b: int)
    requires IsInt(a) && IsInt(b) && (a < 0 <==> b < 0)
    ensures IsRound(SchemaRound) && (TextId(SchemaRound, a) == TextId(SchemaRound, b) <==> a == b)
  {
    SchemaRoundIsSmall();
    UniqueForOneSign(SchemaRound, a, b);
  }

  /** The text id of the first tenant. */
  lemma SchemaTextId()
    ensures IsRound(SchemaRound) && TextId(SchemaRound, 1) == Some("5409L")
  {
    SchemaScrambles();
    hide Encrypt;
    var n := 561465857;
    assert n / 62 == 9055900 && n % 62 == 57;
    assert 9055900 / 62 == 146062 && 9055900 % 62 == 56;
    assert 146062 / 62 == 2355 && 146062 % 62 == 52;
    assert 2355 / 62 == 37 && 2355 % 62 == 61;
    assert Digits(37) == "L";
    assert Digits(2355) == "9L";
    assert Digits(146062) == "09L";
    assert Digits(9055900) == "409L";
    assert Digits(n) == "5409L";
  }

  /** Two ids that do share one. */
  lemma SchemaIdsCollide()
    ensures IsRound(SchemaRound) && TextId(SchemaRound, 1) == TextId(SchemaRound, -2116569833)
  {
    SchemaScrambles();
    hide Encrypt, TextId;
    EncryptIsInvolution(SchemaRound, -561465857);
    TextIdsCollideExactly(SchemaRound, 1, -2116569833);
  }

  /** Among all 32-bit ids, the text id is unique for two ids only: the one that scrambles to 0, and the one whose
      insert fails. */
  lemma SchemaUniqueExactly(a: int)
    requires IsInt(a)
    ensures IsRound(SchemaRound)
    ensures (forall c :: IsInt(c) && TextId(SchemaRound, c) == TextId(SchemaRound, a) ==> c == a)
       <==> a == 1777613459 || a == -1245441359
  {
    SchemaRoundIsSmall();
    SchemaScrambles();
    hide Encrypt, TextId, SchemaRound;
    TextIdUniqueExactly(SchemaRound, a);
    EncryptIsInvolution(SchemaRound, 0);
    EncryptIsInvolution(SchemaRound, -TWO31);
    EncryptIsInvolution(SchemaRound, a);
  }
}
