/** Cipher block chaining (section 6.2 of NIST SP 800-38A) on values, the shortened
  decryption the device uses for text, and the round trip of a credential. The
  code only ever passes whole blocks; here a shorter rest is left as it is. */
module Cbc {
  import opened Bytes
  import opened Aes

  function CbcEncrypt(k: Block, iv: Block, data: seq<bv8>): (r: seq<bv8>)
    ensures |r| == |data|
    decreases |data|
  {
    if |data| < 16 then data
    else
      var c := Cipher(k, Xor(data[..16], iv));
      c + CbcEncrypt(k, c, data[16..])
  }

  function CbcDecrypt(k: Block, iv: Block, data: seq<bv8>): (r: seq<bv8>)
    ensures |r| == |data|
    decreases |data|
  {
    if |data| < 16 then data
    else Xor(InvCipher(k, data[..16]), iv) + CbcDecrypt(k, data[..16], data[16..])
  }

  /** Decryption that stops after the first block with a zero byte; what follows stays enciphered. */
  function CbcDecryptText(k: Block, iv: Block, data: seq<bv8>): (r: seq<bv8>)
    ensures |r| == |data|
    decreases |data|
  {
    if |data| < 16 then data
    else
      var p := Xor(InvCipher(k, data[..16]), iv);
      p + if 0 in p then data[16..] else CbcDecryptText(k, data[..16], data[16..])
  }

  lemma CbcEncryptStep(k: Block, iv: Block, data: seq<bv8>)
    requires |data| >= 16
    ensures
      var c := Cipher(k, Xor(data[..16], iv));
      CbcEncrypt(k, iv, data) == c + CbcEncrypt(k, c, data[16..])
  {
    hide Cipher, Xor;
  }

  lemma CbcDecryptStep(k: Block, iv: Block, data: seq<bv8>)
    requires |data| >= 16
    ensures CbcDecrypt(k, iv, data)
         == Xor(InvCipher(k, data[..16]), iv) + CbcDecrypt(k, data[..16], data[16..])
  {
    hide InvCipher, Xor;
  }

  lemma CbcDecryptTextStep(k: Block, iv: Block, data: seq<bv8>)
    requires |data| >= 16
    ensures
      var p := Xor(InvCipher(k, data[..16]), iv);
      CbcDecryptText(k, iv, data) == p + if 0 in p then data[16..] else CbcDecryptText(k, data[..16], data[16..])
  {
    hide InvCipher, Xor;
  }

  /** The first block of a CBC ciphertext deciphers to the first block of the plain text. */
  lemma FirstBlock(k: Block, iv: Block, data: seq<bv8>)
    requires |data| >= 16
    ensures
      var e := CbcEncrypt(k, iv, data);
      && Xor(InvCipher(k, e[..16]), iv) == data[..16]
      && e[16..] == CbcEncrypt(k, e[..16], data[16..])
  {
    hide *;
    CbcEncryptStep(k, iv, data);
    InvCipherOfCipher(k, Xor(data[..16], iv));
    XorTwice(data[..16], iv);
    assert CbcEncrypt(k, iv, data)[..16] == Cipher(k, Xor(data[..16], iv));
  }

  lemma {:induction false} CbcRoundTrip(k: Block, iv: Block, data: seq<bv8>)
    ensures CbcDecrypt(k, iv, CbcEncrypt(k, iv, data)) == data
    decreases |data|
  {
    if |data| >= 16 {
      hide *;
      var e := CbcEncrypt(k, iv, data);
      FirstBlock(k, iv, data);
      CbcRoundTrip(k, e[..16], data[16..]);
      CbcDecryptStep(k, iv, e);
      assert data == data[..16] + data[16..];
    }
  }

  // ----- text: printable bytes followed by zeros -----

  predicate Control(b: bv8) {
    b < 32
  }

  lemma ControlIs(b: bv8)
    ensures Control(b) <==> ToNat(b) < 32
  {
  }

  /** The number of bytes before the first control byte. */
  function TextLength(s: seq<bv8>): (n: nat)
    ensures n <= |s|
    ensures n < |s| ==> Control(s[n])
    ensures forall i | 0 <= i < n :: !Control(s[i])
  {
    if s == [] || Control(s[0]) then 0 else 1 + TextLength(s[1..])
  }

  /** What reading a credential keeps: the text, with everything after it zeroed. */
  function Strip(s: seq<bv8>): (r: seq<bv8>)
    ensures |r| == |s|
  {
    s[..TextLength(s)] + Zeros(|s| - TextLength(s))
  }

  function Zeros(n: nat): (z: seq<bv8>)
    ensures |z| == n
  {
    seq(n, _ => 0)
  }

  /** The first n bytes are printable, the others zero. */
  ghost predicate IsTextOf(s: seq<bv8>, n: nat) {
    && n <= |s|
    && (forall i | 0 <= i < n :: !Control(s[i]))
    && (forall i | n <= i < |s| :: s[i] == 0)
  }

  ghost predicate IsText(s: seq<bv8>) {
    exists n: nat :: IsTextOf(s, n)
  }

  lemma TextLengthIs(s: seq<bv8>, n: nat)
    requires n <= |s| && (n < |s| ==> Control(s[n]))
    requires forall i | 0 <= i < n :: !Control(s[i])
    ensures TextLength(s) == n
  {
    hide TextLength, Control;
    var m := TextLength(s);
  }

  /** Exactly the texts survive stripping, and a stripped sequence is one. */
  lemma StripIsText(s: seq<bv8>)
    ensures Strip(s) == s <==> IsText(s)
    ensures IsText(Strip(s))
    ensures Strip(Strip(s)) == Strip(s)
  {
    var n := TextLength(s);
    var t := Strip(s);
    assert t[..n] == s[..n];
    assert IsTextOf(t, n);
    TextLengthIs(t, n);
    if IsText(s) {
      var m: nat :| IsTextOf(s, m);
      TextLengthIs(s, m);
    }
  }

  /** Stripping in terms of numbers: it keeps the bytes before the first one below 32 and
    zeroes the others. */
  lemma StrippedIs(s: seq<bv8>)
    ensures exists n: nat ::
      && n <= |s| && Strip(s)[..n] == s[..n] && (forall i: nat | i < n :: ToNat(s[i]) >= 32)
      && (n < |s| ==> ToNat(s[n]) < 32) && (forall i: nat | n <= i < |s| :: Strip(s)[i] == 0)
  {
    hide Control, TextLength, ToNat;
    var n := TextLength(s);
    forall i: nat | i < |s|
      ensures Control(s[i]) <==> ToNat(s[i]) < 32
    {
      ControlIs(s[i]);
    }
    assert Strip(s)[..n] == s[..n];
  }

  /** A text in terms of numbers: bytes of at least 32, then zeros. */
  lemma TextIs(s: seq<bv8>)
    ensures IsText(s) <==>
      exists n: nat :: n <= |s| && (forall i: nat | i < n :: ToNat(s[i]) >= 32) && s[n..] == seq(|s| - n, _ => 0)
  {
    hide Control, ToNat;
    forall i: nat | i < |s|
      ensures Control(s[i]) <==> ToNat(s[i]) < 32
    {
      ControlIs(s[i]);
    }
    if IsText(s) {
      var n: nat :| IsTextOf(s, n);
      assert s[n..] == seq(|s| - n, _ => 0);
    }
    if n: nat :| n <= |s| && (forall i: nat | i < n :: ToNat(s[i]) >= 32) && s[n..] == seq(|s| - n, _ => 0) {
      forall i: nat | n <= i < |s|
        ensures s[i] == 0
      {
        assert s[i] == s[n..][i - n];
      }
      assert IsTextOf(s, n);
    }
  }

  /** A control byte in the first part makes what follows irrelevant. */
  lemma StripEarly(p: seq<bv8>, x: seq<bv8>, y: seq<bv8>)
    requires |x| == |y| && TextLength(p) < |p|
    ensures Strip(p + x) == Strip(p + y)
  {
    hide *;
    StripOfFirst(p, x);
    StripOfFirst(p, y);
  }

  lemma StripOfFirst(p: seq<bv8>, x: seq<bv8>)
    requires TextLength(p) < |p|
    ensures
      var n := TextLength(p);
      Strip(p + x) == ZeroFilled(p[..n], |p| + |x| - n)
  {
    hide *;
    var s, n := p + x, TextLength(p);
    LengthOfFirst(p, x);
    FrontOfSum(p, x, n);
    StripFilled(s, n, |s| - n);
  }

  function ZeroFilled(text: seq<bv8>, k: nat): seq<bv8> {
    text + Zeros(k)
  }

  lemma StripFilled(s: seq<bv8>, n: nat, k: nat)
    requires n == TextLength(s) && n + k == |s|
    ensures Strip(s) == ZeroFilled(s[..n], k)
  {
  }

  lemma LengthOfFirst(p: seq<bv8>, x: seq<bv8>)
    requires TextLength(p) < |p|
    ensures TextLength(p + x) == TextLength(p)
  {
    hide *;
    TextLengthIs(p + x, TextLength(p));
  }

  lemma FrontOfSum(p: seq<bv8>, x: seq<bv8>, n: nat)
    requires n <= |p|
    ensures (p + x)[..n] == p[..n]
  {
  }

  lemma StripLate(p: seq<bv8>, x: seq<bv8>)
    requires TextLength(p) == |p|
    ensures Strip(p + x) == p + Strip(x)
  {
    hide *;
    var m := TextLength(x);
    var k := |x| - m;
    StripIs(x, m, k);
    LateLength(p, x);
    StripIs(p + x, |p| + m, k);
    Regrouped(p, x, m, Zeros(k));
  }

  lemma LateLength(p: seq<bv8>, x: seq<bv8>)
    requires TextLength(p) == |p|
    ensures TextLength(p + x) == |p| + TextLength(x)
    ensures |p + x| - TextLength(p + x) == |x| - TextLength(x)
  {
    hide *;
    var m := TextLength(x);
    NoControlInBoth(p, x, m);
    TextLengthIs(p + x, |p| + m);
  }

  lemma Regrouped(p: seq<bv8>, x: seq<bv8>, m: nat, z: seq<bv8>)
    requires m <= |x|
    ensures (p + x)[..|p| + m] + z == p + (x[..m] + z)
  {
    assert (p + x)[..|p| + m] == p + x[..m];
  }

  lemma NoControlInBoth(p: seq<bv8>, x: seq<bv8>, m: nat)
    requires TextLength(p) == |p| && m == TextLength(x)
    ensures m < |x| ==> Control((p + x)[|p| + m])
    ensures forall i | 0 <= i < |p| + m :: !Control((p + x)[i])
  {
    hide *;
    forall i | 0 <= i < |p| + m
      ensures !Control((p + x)[i])
    {
      if i < |p| {
        assert (p + x)[i] == p[i];
      } else {
        assert (p + x)[i] == x[i - |p|];
      }
    }
  }

  lemma ZeroEndsText(p: seq<bv8>)
    requires 0 in p
    ensures TextLength(p) < |p|
  {
  }

  lemma StripIs(s: seq<bv8>, n: nat, k: nat)
    requires n == TextLength(s) && n + k == |s|
    ensures Strip(s) == s[..n] + Zeros(k)
  {
  }

  /** The shortened decryption loses nothing that reading a credential keeps. */
  lemma {:induction false} StripDecryptText(k: Block, iv: Block, data: seq<bv8>)
    ensures Strip(CbcDecryptText(k, iv, data)) == Strip(CbcDecrypt(k, iv, data))
    decreases |data|
  {
    if |data| >= 16 {
      hide *;
      var p := Xor(InvCipher(k, data[..16]), iv);
      var rest := CbcDecrypt(k, data[..16], data[16..]);
      CbcDecryptStep(k, iv, data);
      CbcDecryptTextStep(k, iv, data);
      StripDecryptText(k, data[..16], data[16..]);
      var text := if 0 in p then data[16..] else CbcDecryptText(k, data[..16], data[16..]);
      if 0 in p { ZeroEndsText(p); }
      if TextLength(p) < |p| {
        StripEarly(p, text, rest);
      } else {
        StripLate(p, text);
        StripLate(p, rest);
      }
    }
  }
}
