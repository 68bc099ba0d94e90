/** Bytes, 16-bit ids and bits as the device stores them. */
module Bytes {

  /** `s` with the bytes from `off` on replaced by `t`. */
  function Splice(s: seq<bv8>, off: nat, t: seq<bv8>): (r: seq<bv8>)
    requires off + |t| <= |s|
    ensures |r| == |s|
    ensures r[off..off + |t|] == t
  {
    s[..off] + t + s[off + |t|..]
  }

  lemma SpliceAgain(s: seq<bv8>, off: nat, t: seq<bv8>, u: seq<bv8>)
    requires off + |t| <= |s| && |t| == |u|
    ensures Splice(Splice(s, off, t), off, u) == Splice(s, off, u)
  {
  }

  /** Writing the next byte of a sequence of which i bytes are written. */
  lemma SpliceGrows(s: seq<bv8>, off: nat, t: seq<bv8>, i: nat)
    requires off + |t| <= |s| && i < |t|
    ensures Splice(s, off, t[..i])[off + i := t[i]] == Splice(s, off, t[..i + 1])
  {
    assert t[..i + 1] == t[..i] + [t[i]];
  }

  lemma SpliceStart(s: seq<bv8>, off: nat, t: seq<bv8>)
    requires off + |t| <= |s|
    ensures Splice(s, off, t[..0]) == s
    ensures Splice(s, off, t[..|t|]) == Splice(s, off, t)
  {
    assert t[..|t|] == t;
  }

  lemma SpliceFirst(s: seq<bv8>, off: nat, t: seq<bv8>)
    requires t != [] && off + |t| <= |s|
    ensures Splice(s[off := t[0]], off + 1, t[1..]) == Splice(s, off, t)
  {
    var s' := s[off := t[0]];
    forall a: nat | a < |s|
      ensures Splice(s', off + 1, t[1..])[a] == Splice(s, off, t)[a]
    {
      SpliceAt(s', off + 1, t[1..], a);
      SpliceAt(s, off, t, a);
    }
  }

  lemma SpliceAt(s: seq<bv8>, off: nat, t: seq<bv8>, a: nat)
    requires off + |t| <= |s| && a < |s|
    ensures Splice(s, off, t)[a] == if off <= a < off + |t| then t[a - off] else s[a]
  {
  }

  lemma SpliceElsewhere(s: seq<bv8>, off: nat, t: seq<bv8>, a: nat, b: nat)
    requires off + |t| <= |s| && a <= b <= |s|
    requires b <= off || off + |t| <= a
    ensures Splice(s, off, t)[a..b] == s[a..b]
  {
    forall i: nat | i < b - a
      ensures Splice(s, off, t)[a..b][i] == s[a..b][i]
    {
      SpliceAt(s, off, t, a + i);
    }
  }

  /** A splice seen through a window that contains it. */
  lemma SpliceInWindow(s: seq<bv8>, off: nat, t: seq<bv8>, a: nat, b: nat)
    requires a <= off && off + |t| <= b <= |s|
    ensures Splice(s, off, t)[a..b] == Splice(s[a..b], off - a, t)
  {
    forall i: nat | i < b - a
      ensures Splice(s, off, t)[a..b][i] == Splice(s[a..b], off - a, t)[i]
    {
      SpliceAt(s, off, t, a + i);
      SpliceAt(s[a..b], off - a, t, i);
    }
  }

  lemma SliceOfSlice(s: seq<bv8>, a: nat, b: nat, c: nat, d: nat)
    requires a <= b <= |s| && c <= d <= b - a
    ensures s[a..b][c..d] == s[a + c..a + d]
  {
    assert forall i: nat | i < d - c :: s[a..b][c..d][i] == s[a + c..a + d][i];
  }

  // ----- bytes and numbers -----

  function ToByte(n: nat): bv8
    requires n < 256
  {
    n as bv8
  }

  function ToNat(b: bv8): (n: nat)
    ensures n < 256
  {
    b as nat
  }

  lemma ByteOfNat(b: bv8)
    ensures ToByte(ToNat(b)) == b
  {
  }

  /** Bytes compare as their numbers do. */
  lemma ByteOrder(a: bv8, b: bv8)
    ensures a < b <==> ToNat(a) < ToNat(b)
  {
  }

  lemma NatOfNextByte(b: bv8)
    requires b != 255
    ensures ToNat(b + 1) == ToNat(b) + 1
  {
  }

  lemma SomeByte(n: nat) returns (b: bv8)
    requires n < 256
    ensures ToNat(b) == n
  {
    if n == 0 {
      b := 0;
    } else {
      var c := SomeByte(n - 1);
      assert c != 255;
      NatOfNextByte(c);
      b := c + 1;
    }
  }

  lemma NatOfByte(n: nat)
    requires n < 256
    ensures ToNat(ToByte(n)) == n
  {
    var b := SomeByte(n);
    ByteOfNat(b);
  }

  /** A 16-bit number, low byte first; larger numbers wrap around. */
  function IdBytes(n: nat): (r: seq<bv8>)
    ensures |r| == 2
  {
    [ToByte(n % 256), ToByte(n / 256 % 256)]
  }

  function IdOf(lo: bv8, hi: bv8): (n: nat)
    ensures n < 65536
  {
    ToNat(lo) + 256 * ToNat(hi)
  }

  /** The low byte first. */
  lemma IdBytesAre(n: nat)
    ensures ToNat(IdBytes(n)[0]) == n % 256 && ToNat(IdBytes(n)[1]) == n / 256 % 256
  {
    hide ToByte, ToNat;
    NatOfByte(n % 256);
    NatOfByte(n / 256 % 256);
  }

  /** Three bytes, the low one first, hold the numbers below 2^24. */
  lemma ThreeBytesAre(n: nat)
    ensures ToNat(ToByte(n % 256)) + 256 * ToNat(ToByte(n / 256 % 256)) + 65536 * ToNat(ToByte(n / 65536 % 256)) == n % 16777216
  {
    hide ToByte, ToNat;
    NatOfByte(n % 256);
    NatOfByte(n / 256 % 256);
    NatOfByte(n / 65536 % 256);
    var q := n / 256;
    var p := q / 256;
    PartsAre(n, n % 256, q % 256, p % 256, p / 256);
  }

  lemma PartsAre(n: nat, a: nat, b: nat, c: nat, d: nat)
    requires a < 256 && b < 256 && c < 256 && n == a + 256 * b + 65536 * c + 16777216 * d
    ensures n % 256 == a && n / 256 % 256 == b && n / 65536 % 256 == c
    ensures n % 16777216 == a + 256 * b + 65536 * c
  {
    assert n / 256 == b + 256 * c + 65536 * d;
    assert n / 65536 == c + 256 * d;
  }

  lemma IdRoundTrip(n: nat)
    requires n < 65536
    ensures var b := IdBytes(n); IdOf(b[0], b[1]) == n
  {
    hide ToByte, ToNat;
    NatOfByte(n % 256);
    NatOfByte(n / 256 % 256);
  }

  lemma IdBytesRoundTrip(lo: bv8, hi: bv8)
    ensures IdBytes(IdOf(lo, hi)) == [lo, hi]
  {
    hide ToByte, ToNat;
    ByteOfNat(lo);
    ByteOfNat(hi);
    var n := IdOf(lo, hi);
    assert n % 256 == ToNat(lo);
    assert n / 256 == ToNat(hi);
  }

  // ----- bits -----

  predicate Bit(b: bv8, j: nat)
    requires j < 8
  {
    (b >> j) & 1 == 1
  }

  function WithBit(b: bv8, j: nat): bv8
    requires j < 8
  {
    b | (1 << j)
  }

  function WithoutBit(b: bv8, j: nat): bv8
    requires j < 8
  {
    b & !(1 << j)
  }

  /** Bit 0 is the lowest one. */
  lemma BitIs(b: bv8, j: nat)
    requires j < 8
    ensures Bit(b, j) <==> b & [1, 2, 4, 8, 16, 32, 64, 128][j] != 0
  {
  }

  lemma BitAfterSet(b: bv8, j: nat, k: nat)
    requires j < 8 && k < 8
    ensures Bit(WithBit(b, j), k) == (k == j || Bit(b, k))
  {
    BitSet(b, j as bv8, k as bv8);
  }

  lemma BitSet(b: bv8, j: bv8, k: bv8)
    requires j < 8 && k < 8
    ensures ((b | (1 << j)) >> k) & 1 == 1 <==> k == j || (b >> k) & 1 == 1
  {
  }

  lemma BitAfterClear(b: bv8, j: nat, k: nat)
    requires j < 8 && k < 8
    ensures Bit(WithoutBit(b, j), k) == (k != j && Bit(b, k))
  {
    BitCleared(b, j as bv8, k as bv8);
  }

  lemma BitCleared(b: bv8, j: bv8, k: bv8)
    requires j < 8 && k < 8
    ensures ((b & !(1 << j)) >> k) & 1 == 1 <==> k != j && (b >> k) & 1 == 1
  {
  }

  lemma NoBitInZero(k: nat)
    requires k < 8
    ensures !Bit(0, k)
  {
  }
}
