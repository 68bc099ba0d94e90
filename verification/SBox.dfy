/** Arithmetic in GF(2^8) and the AES S-box (sections 4.2 and 5.1.1 of FIPS 197).

  The desktop library reads the S-box and its inverse from two 256-byte tables.
  The device stores sixteen inverses only and computes both boxes: it doubles
  its argument until it falls below 16, looks that up, doubles the answer as
  often, and applies an affine map bit by bit. `CalcSbox` is that computation,
  proved to agree with the desktop tables on all 256 bytes. */
module SBox {

  // ----- doubling -----

  /** Multiplication by {02}: GF28_MUL2. */
  function Mul2(a: bv8): bv8 {
    if a & 0x80 != 0 then (a << 1) ^ 0x1b else a << 1
  }

  /** Multiplication by the inverse of {02}: GF28_DIV2. */
  function Div2(a: bv8): bv8 {
    if a & 0x01 != 0 then (a >> 1) ^ 0x8d else a >> 1
  }

  /** The desktop library's doubling. */
  function Xtime(x: bv8): bv8 {
    (x << 1) ^ (((x >> 7) & 1) * 0x1b)
  }

  /** Doubling written with shifts only, the form bit-level proofs are quick with. */
  function Dbl(x: bv8): bv8 {
    var t := x >> 7;
    (x << 1) ^ t ^ (t << 1) ^ (t << 3) ^ (t << 4)
  }

  lemma DoublingForms(a: bv8)
    ensures Div2(Mul2(a)) == a
    ensures Mul2(Div2(a)) == a
    ensures Xtime(a) == Mul2(a)
    ensures Dbl(a) == Mul2(a)
  {
  }

  lemma Mul2Xor(a: bv8, b: bv8)
    ensures Mul2(a ^ b) == Mul2(a) ^ Mul2(b)
  {
    DoublingForms(a);
    DoublingForms(b);
    DoublingForms(a ^ b);
    assert Dbl(a ^ b) == Dbl(a) ^ Dbl(b);
  }

  // ----- the doubling loop terminates -----

  /** Some number of doublings, at most `fuel`, takes `x` below 16. */
  predicate Falls(x: bv8, fuel: nat)
    decreases fuel
  {
    x < 16 || (fuel > 0 && Falls(Mul2(x), fuel - 1))
  }

  function Dbl3(x: bv8): bv8 { Dbl(Dbl(Dbl(x))) }

  function Dbl7(x: bv8): bv8 { Dbl(Dbl3(Dbl3(x))) }

  predicate LowWithin7(x: bv8) {
    || x < 16
    || Dbl(x) < 16
    || Dbl(Dbl(x)) < 16
    || Dbl3(x) < 16
    || Dbl(Dbl3(x)) < 16
    || Dbl(Dbl(Dbl3(x))) < 16
    || Dbl3(Dbl3(x)) < 16
  }

  lemma LowWithin50(x: bv8)
    ensures
      || LowWithin7(x)
      || LowWithin7(Dbl7(x))
      || LowWithin7(Dbl7(Dbl7(x)))
      || LowWithin7(Dbl7(Dbl7(Dbl7(x))))
      || LowWithin7(Dbl7(Dbl7(Dbl7(Dbl7(x)))))
      || LowWithin7(Dbl7(Dbl7(Dbl7(Dbl7(Dbl7(x))))))
      || LowWithin7(Dbl7(Dbl7(Dbl7(Dbl7(Dbl7(Dbl7(x)))))))
      || LowWithin7(Dbl7(Dbl7(Dbl7(Dbl7(Dbl7(Dbl7(Dbl7(x))))))))
  {
  }

  lemma FallsBefore(x: bv8, fuel: nat)
    requires Falls(Dbl(x), fuel)
    ensures Falls(x, fuel + 1)
  {
    DoublingForms(x);
  }

  lemma {:induction false} FallsMore(x: bv8, fuel: nat, more: nat)
    requires Falls(x, fuel) && fuel <= more
    ensures Falls(x, more)
    decreases fuel
  {
    if x >= 16 {
      FallsMore(Mul2(x), fuel - 1, more - 1);
    }
  }

  lemma FallsFromLow(x: bv8)
    requires LowWithin7(x)
    ensures Falls(x, 6)
  {
    var x1 := Dbl(x);
    var x2 := Dbl(x1);
    var x3 := Dbl(x2);
    var x4 := Dbl(x3);
    var x5 := Dbl(x4);
    var x6 := Dbl(x5);
    if x6 < 16 { FallsBefore(x5, 0); } else { assert !Falls(x6, 0); }
    if Falls(x5, 1) { FallsBefore(x4, 1); }
    if Falls(x4, 2) { FallsBefore(x3, 2); }
    if Falls(x3, 3) { FallsBefore(x2, 3); }
    if Falls(x2, 4) { FallsBefore(x1, 4); }
    if Falls(x1, 5) { FallsBefore(x, 5); }
  }

  lemma FallsBefore7(x: bv8, fuel: nat)
    requires Falls(Dbl7(x), fuel)
    ensures Falls(x, fuel + 7)
  {
    var x1 := Dbl(x);
    var x2 := Dbl(x1);
    var x3 := Dbl(x2);
    var x4 := Dbl(x3);
    var x5 := Dbl(x4);
    var x6 := Dbl(x5);
    FallsBefore(x6, fuel);
    FallsBefore(x5, fuel + 1);
    FallsBefore(x4, fuel + 2);
    FallsBefore(x3, fuel + 3);
    FallsBefore(x2, fuel + 4);
    FallsBefore(x1, fuel + 5);
    FallsBefore(x, fuel + 6);
  }

  predicate LowAfterHops(x: bv8, hops: nat)
    decreases hops
  {
    LowWithin7(x) || (hops > 0 && LowAfterHops(Dbl7(x), hops - 1))
  }

  lemma {:induction false} FallsAfterHops(x: bv8, hops: nat)
    requires LowAfterHops(x, hops)
    ensures Falls(x, 6 + 7 * hops)
    decreases hops
  {
    if LowWithin7(x) {
      FallsFromLow(x);
      FallsMore(x, 6, 6 + 7 * hops);
    } else {
      FallsAfterHops(Dbl7(x), hops - 1);
      FallsBefore7(x, 6 + 7 * (hops - 1));
    }
  }

  /** Every doubling orbit meets the sixteen tabulated inverses within 55 steps. */
  lemma AlwaysFalls(x: bv8)
    ensures Falls(x, 55)
  {
    LowWithin50(x);
    hide LowWithin7, Dbl7;
    var h1 := Dbl7(x);
    var h2 := Dbl7(h1);
    var h3 := Dbl7(h2);
    var h4 := Dbl7(h3);
    var h5 := Dbl7(h4);
    var h6 := Dbl7(h5);
    var h7 := Dbl7(h6);
    assert LowAfterHops(h7, 0) == LowWithin7(h7);
    assert LowAfterHops(h6, 1) == (LowWithin7(h6) || LowAfterHops(h7, 0));
    assert LowAfterHops(h5, 2) == (LowWithin7(h5) || LowAfterHops(h6, 1));
    assert LowAfterHops(h4, 3) == (LowWithin7(h4) || LowAfterHops(h5, 2));
    assert LowAfterHops(h3, 4) == (LowWithin7(h3) || LowAfterHops(h4, 3));
    assert LowAfterHops(h2, 5) == (LowWithin7(h2) || LowAfterHops(h3, 4));
    assert LowAfterHops(h1, 6) == (LowWithin7(h1) || LowAfterHops(h2, 5));
    assert LowAfterHops(x, 7) == (LowWithin7(x) || LowAfterHops(h1, 6));
    FallsAfterHops(x, 7);
  }

  // ----- the tables of the desktop library -----

  /** One row of sixteen entries of the S-box, most significant byte first. */
  function SboxRow(r: bv8): bv128 {
    if r == 0 then 0x637c777bf26b6fc53001672bfed7ab76
    else if r == 1 then 0xca82c97dfa5947f0add4a2af9ca472c0
    else if r == 2 then 0xb7fd9326363ff7cc34a5e5f171d83115
    else if r == 3 then 0x04c723c31896059a071280e2eb27b275
    else if r == 4 then 0x09832c1a1b6e5aa0523bd6b329e32f84
    else if r == 5 then 0x53d100ed20fcb15b6acbbe394a4c58cf
    else if r == 6 then 0xd0efaafb434d338545f9027f503c9fa8
    else if r == 7 then 0x51a3408f929d38f5bcb6da2110fff3d2
    else if r == 8 then 0xcd0c13ec5f974417c4a77e3d645d1973
    else if r == 9 then 0x60814fdc222a908846eeb814de5e0bdb
    else if r == 10 then 0xe0323a0a4906245cc2d3ac629195e479
    else if r == 11 then 0xe7c8376d8dd54ea96c56f4ea657aae08
    else if r == 12 then 0xba78252e1ca6b4c6e8dd741f4bbd8b8a
    else if r == 13 then 0x703eb5664803f60e613557b986c11d9e
    else if r == 14 then 0xe1f8981169d98e949b1e87e9ce5528df
    else 0x8ca1890dbfe6426841992d0fb054bb16
  }

  /** One row of sixteen entries of the inverse S-box. */
  function RsboxRow(r: bv8): bv128 {
    if r == 0 then 0x52096ad53036a538bf40a39e81f3d7fb
    else if r == 1 then 0x7ce339829b2fff87348e4344c4dee9cb
    else if r == 2 then 0x547b9432a6c2233dee4c950b42fac34e
    else if r == 3 then 0x082ea16628d924b2765ba2496d8bd125
    else if r == 4 then 0x72f8f66486689816d4a45ccc5d65b692
    else if r == 5 then 0x6c704850fdedb9da5e154657a78d9d84
    else if r == 6 then 0x90d8ab008cbcd30af7e45805b8b34506
    else if r == 7 then 0xd02c1e8fca3f0f02c1afbd0301138a6b
    else if r == 8 then 0x3a9111414f67dcea97f2cfcef0b4e673
    else if r == 9 then 0x96ac7422e7ad3585e2f937e81c75df6e
    else if r == 10 then 0x47f11a711d29c5896fb7620eaa18be1b
    else if r == 11 then 0xfc563e4bc6d279209adbc0fe78cd5af4
    else if r == 12 then 0x1fdda8338807c731b11210592780ec5f
    else if r == 13 then 0x60517fa919b54a0d2de57a9f93c99cef
    else if r == 14 then 0xa0e03b4dae2af5b0c8ebbb3c83539961
    else 0x172b047eba77d626e169146355210c7d
  }

  function Entry(row: bv128, column: bv8): bv8 {
    ((row >> (8 * (15 - (column & 15)))) & 0xff) as bv8
  }

  function SboxValue(x: bv8): bv8 {
    Entry(SboxRow(x >> 4), x)
  }

  function RsboxValue(x: bv8): bv8 {
    Entry(RsboxRow(x >> 4), x)
  }

  // ----- the affine maps -----

  function Rotl1(b: bv8): bv8 { (b << 1) | (b >> 7) }

  function InvAffine(y: bv8): bv8 {
    ((y << 1) | (y >> 7)) ^ ((y << 3) | (y >> 5)) ^ ((y << 6) | (y >> 2)) ^ 0x05
  }

  /** The multiplicative inverse in GF(2^8), zero for zero, as the S-box holds it. */
  function Inverse(x: bv8): bv8 {
    InvAffine(SboxValue(x))
  }

  lemma InverseTwiceLow(x: bv8)
    requires x < 128
    ensures Inverse(Inverse(x)) == x
  {
  }

  lemma InverseTwiceHigh(x: bv8)
    requires x >= 128
    ensures Inverse(Inverse(x)) == x
  {
  }

  lemma InverseDoubledLow(x: bv8)
    requires x < 128
    ensures Inverse(Dbl(Inverse(Dbl(x)))) == x
  {
  }

  lemma InverseDoubledHigh(x: bv8)
    requires x >= 128
    ensures Inverse(Dbl(Inverse(Dbl(x)))) == x
  {
  }

  lemma RsboxThenSboxLow(x: bv8)
    requires x < 128
    ensures SboxValue(RsboxValue(x)) == x
  {
  }

  lemma RsboxThenSboxHigh(x: bv8)
    requires x >= 128
    ensures SboxValue(RsboxValue(x)) == x
  {
  }

  lemma InverseTwice(x: bv8)
    ensures Inverse(Inverse(x)) == x
  {
    if x < 128 { InverseTwiceLow(x); } else { InverseTwiceHigh(x); }
  }

  /** 1/x == 2 * (1/(2x)): the fact the doubling loops rest on. */
  lemma InverseOfDouble(x: bv8)
    ensures Inverse(x) == Mul2(Inverse(Mul2(x)))
  {
    if x < 128 { InverseDoubledLow(x); } else { InverseDoubledHigh(x); }
    hide Inverse;
    DoublingForms(x);
    DoublingForms(Inverse(Mul2(x)));
    InverseTwice(Dbl(Inverse(Dbl(x))));
  }

  /** The two tables of the desktop library are inverse permutations. */
  lemma TablesInverse(x: bv8)
    ensures RsboxValue(SboxValue(x)) == x
    ensures SboxValue(RsboxValue(x)) == x
    ensures RsboxValue(x) == Inverse(InvAffine(x))
  {
    RsboxIsInverse(x);
    RsboxIsInverse(SboxValue(x));
    InverseTwice(x);
    if x < 128 { RsboxThenSboxLow(x); } else { RsboxThenSboxHigh(x); }
  }

  lemma RsboxIsInverse(y: bv8)
    ensures RsboxValue(y) == Inverse(InvAffine(y))
  {
    if y < 128 { RsboxThenSboxLow(y); } else { RsboxThenSboxHigh(y); }
    var x := RsboxValue(y);
    InverseTwice(x);
  }

  // ----- the device's computation -----

  /** invGf28: the inverses of 0 to 15, the only table the device stores. */
  function InvGf28(x: bv8): bv8
    requires x < 16
  {
    Entry(0x00018df6cb527bd1e84f29c0b0e1e5c7, x)
  }

  lemma InvGf28IsInverse(x: bv8)
    requires x < 16
    ensures InvGf28(x) == Inverse(x)
  {
  }

  /** The product of the circulant bit matrix with first column `b` and the bits of `x`. */
  function Circulant(x: bv8, b: bv8): bv8
    decreases x
  {
    if x == 0 then 0
    else (if x & 1 != 0 then b else 0) ^ Circulant(x >> 1, Rotl1(b))
  }

  /** All eight bits of the low bit of `b`. */
  function Mask(b: bv8): bv8 {
    var c := b & 1;
    var d := c | (c << 1);
    var e := d | (d << 2);
    e | (e << 4)
  }

  lemma CirculantStep(x: bv8, b: bv8)
    ensures Circulant(x, b) == (Mask(x) & b) ^ Circulant(x >> 1, Rotl1(b))
  {
  }

  lemma Circulant4A(x: bv8)
    ensures InvAffine(x ^ 0x63) == Circulant(x, 0x4a)
  {
    assert Circulant(0, 0x4a) == 0;
    CirculantStep(x, 0x4a);
    CirculantStep(x >> 1, 0x94);
    CirculantStep(x >> 2, 0x29);
    CirculantStep(x >> 3, 0x52);
    CirculantStep(x >> 4, 0xa4);
    CirculantStep(x >> 5, 0x49);
    CirculantStep(x >> 6, 0x92);
    CirculantStep(x >> 7, 0x25);
  }

  lemma Circulant1F(x: bv8)
    ensures InvAffine(0x63 ^ Circulant(x, 0x1f)) == x
  {
    CirculantStep(x, 0x1f);
    CirculantStep(x >> 1, 0x3e);
    CirculantStep(x >> 2, 0x7c);
    CirculantStep(x >> 3, 0xf8);
    CirculantStep(x >> 4, 0xf1);
    CirculantStep(x >> 5, 0xe3);
    CirculantStep(x >> 6, 0xc7);
    CirculantStep(x >> 7, 0x8f);
  }

  /** Both tables in the form the device computes them. */
  lemma DeviceForms(x: bv8)
    ensures SboxValue(x) == 0x63 ^ Circulant(Inverse(x), 0x1f)
    ensures RsboxValue(x) == Inverse(0 ^ Circulant(x ^ 0x63, 0x4a))
  {
    TablesInverse(x);
    Circulant4A(x ^ 0x63);
    Circulant1F(Inverse(x));
    InvAffineInjective(SboxValue(x), 0x63 ^ Circulant(Inverse(x), 0x1f));
  }

  lemma InvAffineInjective(x: bv8, y: bv8)
    requires InvAffine(x) == InvAffine(y)
    ensures x == y
  {
  }

  /** The loop at label matxor. */
  method MatXor(x0: bv8, a0: bv8, b0: bv8) returns (a: bv8)
    ensures a == a0 ^ Circulant(x0, b0)
  {
    hide Circulant, Rotl1;
    var x, b := x0, b0;
    a := a0;
    while x != 0
      invariant a ^ Circulant(x, b) == a0 ^ Circulant(x0, b0)
      decreases x
    {
      CirculantTurn(x, b, a);
      if x & 1 != 0 { a := a ^ b; }
      b := Rotl1(b);
      x := x >> 1;
    }
    NoCirculant(b, a);
  }

  lemma NoCirculant(b: bv8, a: bv8)
    ensures a ^ Circulant(0, b) == a
  {
  }

  /** One turn of the loop moves a summand to the accumulator. */
  lemma CirculantTurn(x: bv8, b: bv8, a: bv8)
    requires x != 0
    ensures (if x & 1 != 0 then a ^ b else a) ^ Circulant(x >> 1, Rotl1(b)) == a ^ Circulant(x, b)
    ensures x >> 1 < x
  {
    hide Circulant, Rotl1;
    CirculantUnfolds(x, b);
    MovesOver(a, b, Circulant(x >> 1, Rotl1(b)));
    Halved(x);
  }

  lemma {:induction false} CirculantUnfolds(x: bv8, b: bv8)
    requires x != 0
    ensures x & 1 != 0 ==> Circulant(x, b) == b ^ Circulant(x >> 1, Rotl1(b))
    ensures x & 1 == 0 ==> Circulant(x, b) == Circulant(x >> 1, Rotl1(b))
  {
    hide Rotl1;
  }

  lemma MovesOver(a: bv8, b: bv8, c: bv8)
    ensures (a ^ b) ^ c == a ^ (b ^ c)
  {
  }

  lemma Halved(x: bv8)
    requires x != 0
    ensures x >> 1 < x
  {
  }

  /** Doubled(x, n) is {02}^n x. */
  function Doubled(x: bv8, n: nat): bv8 {
    if n == 0 then x else Mul2(Doubled(x, n - 1))
  }

  lemma {:induction false} DoubledFromInside(x: bv8, n: nat)
    ensures Doubled(Mul2(x), n) == Doubled(x, n + 1)
  {
    if n > 0 { DoubledFromInside(x, n - 1); }
  }

  /** aesCalcSbox computes the entries of both tables. */
  method CalcSbox(x0: bv8, inv: bool) returns (r: bv8)
    ensures r == if inv then RsboxValue(x0) else SboxValue(x0)
  {
    hide Mul2, Inverse, InvGf28, Circulant, SboxValue, RsboxValue;
    DeviceForms(x0);
    var x := x0;
    if inv {
      x := MatXor(x ^ 0x63, 0, 0x4a);
    }
    ghost var y := x;
    var a := 0;  // at most 55, so the byte that counts the doublings does not wrap
    AlwaysFalls(x);
    while x >= 16
      invariant 0 <= a <= 55 && Falls(x, 55 - a)
      invariant Inverse(y) == Doubled(Inverse(x), a)
      decreases 55 - a
    {
      InverseOfDouble(x);
      DoubledFromInside(Inverse(Mul2(x)), a);
      x := Mul2(x);
      a := a + 1;
    }
    InvGf28IsInverse(x);
    x := InvGf28(x);
    while a != 0
      invariant 0 <= a
      invariant Inverse(y) == Doubled(x, a)
    {
      a := a - 1;
      DoubledFromInside(x, a);
      x := Mul2(x);
    }
    if !inv {
      x := MatXor(x, 0x63, 0x1f);
    }
    r := x;
  }
}
