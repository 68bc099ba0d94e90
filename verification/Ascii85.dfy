/** The text form of a key (Code/src/Graphics/Ascii85.c): 16 bytes as four groups of five
  base-85 digits, in 32-bit arithmetic. */
module Ascii85 {

  type Byte = x: nat | x < 256

  const TWO_32: nat := 0x1_0000_0000

  /** The table of powers of 85. */
  function Power(j: nat): (p: nat)
    requires j < 5
    ensures p > 0
  {
    if j == 0 then 52200625 else if j == 1 then 614125 else if j == 2 then 7225 else if j == 3 then 85 else 1
  }

  /** A big-endian 32-bit word. */
  function Word(b: seq<Byte>): (w: nat)
    requires |b| == 4
    ensures w < TWO_32
  {
    b[0] as int * 0x100_0000 + b[1] as int * 0x1_0000 + b[2] as int * 0x100 + b[3] as int
  }

  function WordBytes(w: nat): (b: seq<Byte>)
    requires w < TWO_32
    ensures |b| == 4
  {
    [w / 0x100_0000, w / 0x1_0000 % 256, w / 0x100 % 256, w % 256]
  }

  /** The digits of a word in base 85, as characters from '!' on. */
  function Digits(w: nat): (s: seq<Byte>)
    requires w < TWO_32
    ensures |s| == 5
  {
    seq(5, j requires 0 <= j < 5 => (w / Power(j)) % 85 + 33)
  }

  /** A char is signed, and 33 is subtracted from it as an int. */
  function DigitOf(c: Byte): int {
    (if c < 128 then c else c - 256) - 33
  }

  /** The value of five characters before it is reduced to 32 bits. */
  function Value(s: seq<Byte>): int
    requires |s| == 5
  {
    DigitOf(s[0]) * 52200625 + DigitOf(s[1]) * 614125 + DigitOf(s[2]) * 7225 + DigitOf(s[3]) * 85 + DigitOf(s[4])
  }

  predicate Printable(s: seq<Byte>) {
    forall j: nat | j < |s| :: 33 <= s[j] <= 117
  }

  function Encode(b: seq<Byte>): (s: seq<Byte>)
    decreases |b|
  {
    if |b| < 4 then [] else Digits(Word(b[..4])) + Encode(b[4..])
  }

  function Decode(s: seq<Byte>): (b: seq<Byte>)
    decreases |s|
  {
    if |s| < 5 then [] else WordBytes(Value(s[..5]) % TWO_32) + Decode(s[5..])
  }

  // ----- one group -----

  lemma Times(a: int, b: int, d: int)
    requires a + 1 <= b && d > 0
    ensures a * d + d <= b * d
  {
    var k := b - a - 1;
    Distribute(a, k + 1, d);
    Distribute(k, 1, d);
    NonNegative(k, d);
  }

  lemma NonNegative(a: int, b: int)
    requires a >= 0 && b >= 0
    ensures a * b >= 0
  {
  }

  lemma Distribute(a: int, b: int, d: int)
    ensures (a + b) * d == a * d + b * d
  {
  }

  lemma Divides(w: int, d: int)
    requires d > 0
    ensures w == w / d * d + w % d && 0 <= w % d < d
  {
  }

  lemma Quotient(w: int, d: int, q: int, r: int)
    requires 0 <= r < d && w == q * d + r
    ensures w / d == q && w % d == r
  {
    Divides(w, d);
    var q' := w / d;
    if q > q' {
      Times(q', q, d);
    } else if q < q' {
      Times(q, q', d);
    }
  }

  lemma WordOfBytes(b: seq<Byte>)
    requires |b| == 4
    ensures WordBytes(Word(b)) == b
  {
    BytesAre(b[0], b[1], b[2], b[3]);
  }

  lemma BytesAre(b0: int, b1: int, b2: int, b3: int)
    requires 0 <= b0 < 256 && 0 <= b1 < 256 && 0 <= b2 < 256 && 0 <= b3 < 256
    ensures
      var w := b0 * 0x100_0000 + b1 * 0x1_0000 + b2 * 0x100 + b3;
      w / 0x100_0000 == b0 && w / 0x1_0000 % 256 == b1 && w / 0x100 % 256 == b2 && w % 256 == b3
  {
    var w := b0 * 0x100_0000 + b1 * 0x1_0000 + b2 * 0x100 + b3;
    Quotient(w, 0x100_0000, b0, b1 * 0x1_0000 + b2 * 0x100 + b3);
    Quotient(w, 0x1_0000, b0 * 256 + b1, b2 * 0x100 + b3);
    Quotient(w, 0x100, b0 * 0x1_0000 + b1 * 256 + b2, b3);
    Quotient(b0 * 256 + b1, 256, b0, b1);
    Quotient(b0 * 0x1_0000 + b1 * 256 + b2, 256, b0 * 256 + b1, b2);
  }

  lemma BytesOfWord(w: nat)
    requires w < TWO_32
    ensures Word(WordBytes(w)) == w
  {
    var a, b := w / 0x100, w / 0x1_0000;
    Quotient(w, 0x1_0000, a / 256, a % 256 * 256 + w % 256);
    Quotient(w, 0x100_0000, b / 256, b % 256 * 0x1_0000 + a % 256 * 256 + w % 256);
  }

  /** The quotients and remainders by the powers of a number given by its digits. */
  lemma DigitsSplit(a: int, b: int, c: int, d: int, e: int)
    requires 0 <= a && 0 <= b < 85 && 0 <= c < 85 && 0 <= d < 85 && 0 <= e < 85
    ensures
      var w := a * 52200625 + b * 614125 + c * 7225 + d * 85 + e;
      && w / 52200625 == a && w % 52200625 == b * 614125 + c * 7225 + d * 85 + e
      && w / 614125 % 85 == b && w % 614125 == c * 7225 + d * 85 + e
      && w / 7225 % 85 == c && w % 7225 == d * 85 + e
      && w / 85 % 85 == d && w % 85 == e
  {
    var w := a * 52200625 + b * 614125 + c * 7225 + d * 85 + e;
    Quotient(w, 52200625, a, b * 614125 + c * 7225 + d * 85 + e);
    Quotient(w, 614125, a * 85 + b, c * 7225 + d * 85 + e);
    Quotient(w, 7225, (a * 85 + b) * 85 + c, d * 85 + e);
    Quotient(w, 85, ((a * 85 + b) * 85 + c) * 85 + d, e);
    Quotient(a * 85 + b, 85, a, b);
    Quotient((a * 85 + b) * 85 + c, 85, a * 85 + b, c);
    Quotient(((a * 85 + b) * 85 + c) * 85 + d, 85, (a * 85 + b) * 85 + c, d);
  }

  /** The digits of a word. */
  lemma DigitsOf(w: nat) returns (a: nat, b: nat, c: nat, d: nat, e: nat)
    requires w < TWO_32
    ensures a < 85 && b < 85 && c < 85 && d < 85 && e < 85
    ensures w == a * 52200625 + b * 614125 + c * 7225 + d * 85 + e
    ensures Digits(w) == [a + 33, b + 33, c + 33, d + 33, e + 33]
  {
    var q1 := w / 85;
    var q2 := q1 / 85;
    var q3 := q2 / 85;
    Divides(w, 85);
    Divides(q1, 85);
    Divides(q2, 85);
    Divides(q3, 85);
    a, b, c, d, e := q3 / 85, q3 % 85, q2 % 85, q1 % 85, w % 85;
    DigitsAre(w, a, b, c, d, e);
  }

  lemma DigitsAre(w: nat, a: nat, b: nat, c: nat, d: nat, e: nat)
    requires w < TWO_32 && b < 85 && c < 85 && d < 85 && e < 85
    requires w == a * 52200625 + b * 614125 + c * 7225 + d * 85 + e
    ensures a < 85 && Digits(w) == [a + 33, b + 33, c + 33, d + 33, e + 33]
  {
    DigitsSplit(a, b, c, d, e);
    Quotient(a, 85, 0, a);
    DigitsIn(w);
    hide Digits;
    assert Digits(w) == [Digits(w)[0], Digits(w)[1], Digits(w)[2], Digits(w)[3], Digits(w)[4]];
  }

  lemma DigitsIn(w: nat)
    requires w < TWO_32
    ensures Digits(w)[0] == w / 52200625 % 85 + 33
    ensures Digits(w)[1] == w / 614125 % 85 + 33
    ensures Digits(w)[2] == w / 7225 % 85 + 33
    ensures Digits(w)[3] == w / 85 % 85 + 33
    ensures Digits(w)[4] == w % 85 + 33
  {
  }

  lemma ValueOfDigits(w: nat)
    requires w < TWO_32
    ensures Value(Digits(w)) == w && Printable(Digits(w))
  {
    var a, b, c, d, e := DigitsOf(w);
    hide Digits;
  }

  /** Five characters in range are the digits of their value. */
  lemma DigitsOfValue(s: seq<Byte>)
    requires |s| == 5 && Printable(s) && Value(s) < TWO_32
    ensures Value(s) >= 0 && Digits(Value(s)) == s
  {
    DigitsAre(Value(s), s[0] - 33, s[1] - 33, s[2] - 33, s[3] - 33, s[4] - 33);
  }

  /** A group survives decoding and encoding exactly if its characters are digits and its
    value fits into 32 bits. */
  lemma GroupConverse(s: seq<Byte>)
    requires |s| == 5
    ensures Digits(Value(s) % TWO_32) == s <==> Printable(s) && Value(s) < TWO_32
  {
    hide Digits, Value, Printable;
    if Printable(s) && Value(s) < TWO_32 {
      DigitsOfValue(s);
      Quotient(Value(s), TWO_32, 0, Value(s));
    }
    if Digits(Value(s) % TWO_32) == s {
      ValueOfDigits(Value(s) % TWO_32);
    }
  }

  // ----- a whole key -----

  lemma EncodeStep(a: seq<Byte>, b: seq<Byte>)
    requires |a| == 4
    ensures Encode(a + b) == Digits(Word(a)) + Encode(b)
  {
    hide Digits, Word;
    assert (a + b)[..4] == a && (a + b)[4..] == b;
  }

  lemma DecodeStep(a: seq<Byte>, b: seq<Byte>)
    requires |a| == 5
    ensures Decode(a + b) == WordBytes(Value(a) % TWO_32) + Decode(b)
  {
    hide WordBytes, Value;
    assert (a + b)[..5] == a && (a + b)[5..] == b;
  }

  lemma NoGroups()
    ensures Encode([]) == [] && Decode([]) == []
  {
  }

  /** Decoding inverts encoding, and what is encoded can be shown and typed. */
  lemma {:induction false} EncodeRoundTrip(b: seq<Byte>, n: nat)
    requires |b| == 4 * n
    ensures Decode(Encode(b)) == b && Printable(Encode(b)) && |Encode(b)| == 5 * n
    decreases n
  {
    if n == 0 {
      NoGroups();
    } else {
      hide *;
      EncodeRoundTrip(b[4..], n - 1);
      OneMoreGroup(b[..4], b[4..]);
      assert b == b[..4] + b[4..];
    }
  }

  lemma OneMoreGroup(a: seq<Byte>, b: seq<Byte>)
    requires |a| == 4 && Decode(Encode(b)) == b && Printable(Encode(b))
    ensures Decode(Encode(a + b)) == a + b && Printable(Encode(a + b)) && |Encode(a + b)| == |Encode(b)| + 5
  {
    WordOfBytes(a);
    hide Word, Digits, WordBytes, Value, Printable, Encode, Decode;
    var w := Word(a);
    EncodeStep(a, b);
    ValueOfDigits(w);
    BothPrintable(Digits(w), Encode(b));
    DecodeStep(Digits(w), Encode(b));
    Quotient(w, TWO_32, 0, w);
  }

  lemma BothPrintable(s: seq<Byte>, t: seq<Byte>)
    requires Printable(s) && Printable(t)
    ensures Printable(s + t)
  {
  }

  /** Every group consists of digits and has a value that fits into 32 bits. */
  ghost predicate GroupsFit(s: seq<Byte>)
    decreases |s|
  {
    |s| >= 5 ==> Printable(s[..5]) && Value(s[..5]) < TWO_32 && GroupsFit(s[5..])
  }

  lemma SameParts(a: seq<Byte>, b: seq<Byte>, s: seq<Byte>)
    requires |a| == 5 <= |s| && |b| == |s| - 5
    ensures a + b == s <==> a == s[..5] && b == s[5..]
  {
    assert s == s[..5] + s[5..];
    assert (a + b)[..5] == a && (a + b)[5..] == b;
  }

  lemma FitStep(s: seq<Byte>)
    requires |s| >= 5
    ensures GroupsFit(s) <==> Printable(s[..5]) && Value(s[..5]) < TWO_32 && GroupsFit(s[5..])
  {
    hide Printable, Value;
  }

  /** Encoding inverts decoding exactly on texts whose groups are digits and fit. */
  lemma {:induction false} DecodeRoundTrip(s: seq<Byte>, n: nat)
    requires |s| == 5 * n
    ensures |Decode(s)| == 4 * n && |Encode(Decode(s))| == 5 * n
    ensures Encode(Decode(s)) == s <==> GroupsFit(s)
    decreases n
  {
    NoGroups();
    if n > 0 {
      hide Digits, Word, WordBytes, Value, Printable, Encode, Decode, GroupsFit;
      var w := Value(s[..5]) % TWO_32;
      assert s == s[..5] + s[5..];
      DecodeStep(s[..5], s[5..]);
      BytesOfWord(w);
      GroupConverse(s[..5]);
      DecodeRoundTrip(s[5..], n - 1);
      EncodeStep(WordBytes(w), Decode(s[5..]));
      SameParts(Digits(w), Encode(Decode(s[5..])), s);
      FitStep(s);
    }
  }

  // ----- one group in numbers -----

  /** The four bytes are one number, highest byte first, and its base-85 digits come highest
    first, from '!' on. With EncodeAppend this says what any number of groups gives. */
  lemma EncodeOfGroup(b: seq<Byte>)
    requires |b| == 4
    ensures
      var w := b[0] as int * 16777216 + b[1] as int * 65536 + b[2] as int * 256 + b[3] as int;
      && |Encode(b)| == 5
      && Encode(b)[0] == 33 + w / 52200625 && Encode(b)[1] == 33 + w / 614125 % 85
      && Encode(b)[2] == 33 + w / 7225 % 85 && Encode(b)[3] == 33 + w / 85 % 85 && Encode(b)[4] == 33 + w % 85
  {
    assert b == b + [];
    EncodeStep(b, []);
    NoGroups();
    hide Encode, Digits;
    DigitsIn(Word(b));
    FirstDigit(Word(b));
  }

  lemma FirstDigit(w: nat)
    requires w < TWO_32
    ensures w / 52200625 % 85 == w / 52200625
  {
    Divides(w, 52200625);
  }

  /** The digits, a character from 128 on being negative, add up modulo 2^32 to the number
    whose bytes come out, highest first. */
  lemma DecodeOfGroup(s: seq<Byte>, d: seq<int>)
    requires |s| == |d| == 5
    requires forall j: nat | j < 5 :: d[j] == s[j] as int - (if s[j] < 128 then 33 else 256 + 33)
    ensures
      var w := (d[0] * 52200625 + d[1] * 614125 + d[2] * 7225 + d[3] * 85 + d[4]) % 4294967296;
      Decode(s) == [w / 16777216, w / 65536 % 256, w / 256 % 256, w % 256]
  {
    assert s == s + [];
    DecodeStep(s, []);
    NoGroups();
  }

  // ----- the loops -----

  lemma {:induction false} EncodeAppend(a: seq<Byte>, b: seq<Byte>, n: nat)
    requires |a| == 4 * n
    ensures Encode(a + b) == Encode(a) + Encode(b)
    decreases n
  {
    NoGroups();
    if n == 0 {
      assert a + b == b;
    } else {
      hide Digits, Word, Encode;
      assert a == a[..4] + a[4..] && a + b == a[..4] + (a[4..] + b);
      EncodeStep(a[..4], a[4..] + b);
      EncodeStep(a[..4], a[4..]);
      EncodeAppend(a[4..], b, n - 1);
    }
  }

  lemma {:induction false} DecodeAppend(a: seq<Byte>, b: seq<Byte>, n: nat)
    requires |a| == 5 * n
    ensures Decode(a + b) == Decode(a) + Decode(b)
    decreases n
  {
    NoGroups();
    if n == 0 {
      assert a + b == b;
    } else {
      hide WordBytes, Value, Decode;
      assert a == a[..5] + a[5..] && a + b == a[..5] + (a[5..] + b);
      DecodeStep(a[..5], a[5..] + b);
      DecodeStep(a[..5], a[5..]);
      DecodeAppend(a[5..], b, n - 1);
    }
  }

  lemma EncodeGroups(b: seq<Byte>, i: nat)
    requires |b| == 16 && i < 4
    ensures Encode(b[..4 * i + 4]) == Encode(b[..4 * i]) + Digits(Word(b[4 * i..4 * i + 4]))
  {
    hide Digits, Word, Encode;
    var g := b[4 * i..4 * i + 4];
    assert b[..4 * i + 4] == b[..4 * i] + g && g == g + [];
    EncodeAppend(b[..4 * i], g, i);
    EncodeStep(g, []);
    NoGroups();
  }

  lemma DecodeGroups(s: seq<Byte>, i: nat)
    requires |s| == 20 && i < 4
    ensures Decode(s[..5 * i + 5]) == Decode(s[..5 * i]) + WordBytes(Value(s[5 * i..5 * i + 5]) % TWO_32)
  {
    hide WordBytes, Value, Decode;
    var g := s[5 * i..5 * i + 5];
    assert s[..5 * i + 5] == s[..5 * i] + g && g == g + [];
    DecodeAppend(s[..5 * i], g, i);
    DecodeStep(g, []);
    NoGroups();
  }

  /** encode_16B: the digits are taken off one after the other. */
  method Encode16B(input: array<Byte>, output: array<Byte>)
    requires input.Length == 16 && output.Length == 20 && input != output
    modifies output
    ensures output[..] == Encode(input[..])
  {
    hide Encode, Digits, Word;
    ghost var b := input[..];
    var i := 0;
    NoGroups();
    while i < 4
      invariant 0 <= i <= 4 && input[..] == b
      invariant output[..5 * i] == Encode(b[..4 * i])
    {
      EncodeGroups(b, i);
      EncodeGroup(input, output, i);
      i := i + 1;
    }
    assert b[..16] == b && output[..20] == output[..];
  }

  /** Dividing what is left by the next power gives the next digit. */
  lemma NextDigit(w: nat, j: nat)
    requires w < TWO_32 && j < 5
    ensures
      var sum := if j == 0 then w else w % Power(j - 1);
      && sum / Power(j) + 33 == Digits(w)[j] < 128
      && sum - sum / Power(j) * Power(j) == w % Power(j)
  {
    var a, b, c, d, e := DigitsOf(w);
    hide Digits;
    DigitsSplit(a, b, c, d, e);
    if j == 0 {
      NextQuotient(w, 52200625, a, w % 52200625);
    } else if j == 1 {
      NextQuotient(w % 52200625, 614125, b, w % 614125);
    } else if j == 2 {
      NextQuotient(w % 614125, 7225, c, w % 7225);
    } else if j == 3 {
      NextQuotient(w % 7225, 85, d, w % 85);
    } else {
      NextQuotient(w % 85, 1, e, 0);
    }
  }

  lemma NextQuotient(w: int, d: int, q: int, r: int)
    requires 0 <= r < d && w == q * d + r
    ensures w / d == q && w - w / d * d == r
  {
    Quotient(w, d, q, r);
  }

  /** The body of the outer loop of encode_16B. */
  method EncodeGroup(input: array<Byte>, output: array<Byte>, i: nat)
    requires input.Length == 16 && output.Length == 20 && input != output && i < 4
    modifies output
    ensures output[..5 * i + 5] == old(output[..5 * i]) + Digits(Word(input[4 * i..4 * i + 4]))
  {
    ghost var w := Word(input[4 * i..4 * i + 4]);
    ghost var out := output[..5 * i];
    hide Digits;
    var sum: nat := input[4 * i] as int * 0x100_0000 + input[4 * i + 1] as int * 0x1_0000
      + input[4 * i + 2] as int * 0x100 + input[4 * i + 3] as int;
    var j := 0;
    while j < 5
      invariant 0 <= j <= 5
      invariant sum == if j == 0 then w else w % Power(j - 1)
      invariant output[..5 * i + j] == out + Digits(w)[..j]
    {
      NextDigit(w, j);
      var tempOutput := sum / Power(j);
      sum := sum - tempOutput * Power(j);
      output[5 * i + j] := tempOutput + 33;
      assert Digits(w)[..j + 1] == Digits(w)[..j] + [Digits(w)[j]];
      j := j + 1;
    }
    assert Digits(w)[..5] == Digits(w);
  }

  /** decode_16B: the sum is a 32-bit word that wraps around, also below zero. */
  method Decode16B(input: array<Byte>, output: array<Byte>)
    requires input.Length == 20 && output.Length == 16 && input != output
    modifies output
    ensures output[..] == Decode(input[..])
  {
    hide Decode, WordBytes, Value;
    ghost var s := input[..];
    var i := 0;
    NoGroups();
    while i < 4
      invariant 0 <= i <= 4 && input[..] == s
      invariant output[..4 * i] == Decode(s[..5 * i])
    {
      DecodeGroups(s, i);
      DecodeGroup(input, output, i);
      i := i + 1;
    }
    assert s[..20] == s && output[..16] == output[..];
  }

  /** The value of the first characters of a group. */
  function PartialValue(s: seq<Byte>, j: nat): int
    requires |s| == 5 && j <= 5
  {
    if j == 0 then 0 else PartialValue(s, j - 1) + DigitOf(s[j - 1]) * Power(j - 1)
  }

  lemma AllOfValue(s: seq<Byte>)
    requires |s| == 5
    ensures PartialValue(s, 5) == Value(s)
  {
    assert PartialValue(s, 1) == DigitOf(s[0]) * 52200625;
    assert PartialValue(s, 2) == PartialValue(s, 1) + DigitOf(s[1]) * 614125;
    assert PartialValue(s, 3) == PartialValue(s, 2) + DigitOf(s[2]) * 7225;
    assert PartialValue(s, 4) == PartialValue(s, 3) + DigitOf(s[3]) * 85;
  }

  lemma WrapsOnce(a: int, b: int)
    ensures (a % TWO_32 + b) % TWO_32 == (a + b) % TWO_32
  {
  }

  /** The body of the outer loop of decode_16B. */
  method DecodeGroup(input: array<Byte>, output: array<Byte>, i: nat)
    requires input.Length == 20 && output.Length == 16 && input != output && i < 4
    modifies output
    ensures output[..4 * i + 4] == old(output[..4 * i]) + WordBytes(Value(input[5 * i..5 * i + 5]) % TWO_32)
  {
    ghost var s := input[5 * i..5 * i + 5];
    hide Value, PartialValue;
    var sum := SumOf(input, i);
    AllOfValue(s);
    PutWord(output, i, sum);
  }

  /** The inner loop of decode_16B. */
  method SumOf(input: array<Byte>, i: nat) returns (sum: nat)
    requires input.Length == 20 && i < 4
    ensures sum == PartialValue(input[5 * i..5 * i + 5], 5) % TWO_32
  {
    ghost var s := input[5 * i..5 * i + 5];
    sum := 0;
    var j := 0;
    while j < 5
      invariant 0 <= j <= 5
      invariant sum == PartialValue(s, j) % TWO_32
    {
      WrapsOnce(PartialValue(s, j), DigitOf(input[5 * i + j]) * Power(j));
      sum := (sum + DigitOf(input[5 * i + j]) * Power(j)) % TWO_32;
      j := j + 1;
    }
  }

  method PutWord(output: array<Byte>, i: nat, sum: nat)
    requires output.Length == 16 && i < 4 && sum < TWO_32
    modifies output
    ensures output[..4 * i + 4] == old(output[..4 * i]) + WordBytes(sum)
  {
    output[4 * i] := sum / 0x100_0000;
    output[4 * i + 1] := sum / 0x1_0000 % 256;
    output[4 * i + 2] := sum / 0x100 % 256;
    output[4 * i + 3] := sum % 256;
  }
}
