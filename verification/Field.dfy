/** Multiplication in GF(2^8) (section 4.2 of FIPS 197), and that the S-box is built on
  inverses with respect to it. */
module Field {
  import opened SBox

  /** Addition, and a summand that a mask keeps or drops. */
  function Plus(a: bv8, b: bv8): bv8 { a ^ b }

  function Kept(mask: bv8, a: bv8): bv8 { mask & a }

  function Sum4(p0: bv8, p1: bv8, p2: bv8, p3: bv8, more: bv8): bv8 {
    Plus(p0, Plus(p1, Plus(p2, Plus(p3, more))))
  }

  function Sum8(p0: bv8, p1: bv8, p2: bv8, p3: bv8, p4: bv8, p5: bv8, p6: bv8, p7: bv8): bv8 {
    Sum4(p0, p1, p2, p3, Sum4(p4, p5, p6, p7, 0))
  }

  /** The i-th bit of a byte as a mask. */
  function BitMask(b: bv8, i: nat): bv8
    requires i < 8
  {
    Mask(b >> i)
  }

  /** The product: the sum of the doublings of `a` that the bits of `b` select. */
  function Times(a: bv8, b: bv8): bv8 {
    var a1 := Dbl(a);
    var a2 := Dbl(a1);
    var a3 := Dbl(a2);
    var a4 := Dbl(a3);
    var a5 := Dbl(a4);
    var a6 := Dbl(a5);
    Sum8(Kept(BitMask(b, 0), a), Kept(BitMask(b, 1), a1), Kept(BitMask(b, 2), a2), Kept(BitMask(b, 3), a3),
      Kept(BitMask(b, 4), a4), Kept(BitMask(b, 5), a5), Kept(BitMask(b, 6), a6), Kept(BitMask(b, 7), Dbl(a6)))
  }

  /** The bits of a doubled byte. */
  lemma DoubledBits(b: bv8)
    ensures
      var d, t := Dbl(b), BitMask(b, 7);
      && BitMask(d, 0) == t && BitMask(d, 1) == Plus(BitMask(b, 0), t) && BitMask(d, 2) == BitMask(b, 1)
      && BitMask(d, 3) == Plus(BitMask(b, 2), t) && BitMask(d, 4) == Plus(BitMask(b, 3), t)
      && BitMask(d, 5) == BitMask(b, 4) && BitMask(d, 6) == BitMask(b, 5) && BitMask(d, 7) == BitMask(b, 6)
  {
  }

  /** The polynomial of the field: x^8 = x^4 + x^3 + x + 1. */
  lemma EightDoublings(a: bv8)
    ensures Dbl(Dbl7(a)) == Plus(Plus(a, Dbl(a)), Plus(Dbl3(a), Dbl(Dbl3(a))))
  {
  }

  /** A summand that four positions share. */
  lemma SharedSummand(t: bv8, m0: bv8, m1: bv8, m2: bv8, m3: bv8, m4: bv8, m5: bv8, m6: bv8,
                      a: bv8, a1: bv8, a2: bv8, a3: bv8, a4: bv8, a5: bv8, a6: bv8, a7: bv8)
    ensures
      Sum8(Kept(t, a), Kept(Plus(m0, t), a1), Kept(m1, a2), Kept(Plus(m2, t), a3),
        Kept(Plus(m3, t), a4), Kept(m4, a5), Kept(m5, a6), Kept(m6, a7)) ==
      Sum8(Kept(m0, a1), Kept(m1, a2), Kept(m2, a3), Kept(m3, a4), Kept(m4, a5), Kept(m5, a6), Kept(m6, a7),
        Kept(t, Plus(Plus(a, a1), Plus(a3, a4))))
  {
    hide *;
    KeptPlus(m0, t, a1);
    KeptPlus(m2, t, a3);
    KeptPlus(m3, t, a4);
    KeptOfSum(t, a, a1);
    KeptOfSum(t, a3, a4);
    KeptOfSum(t, Plus(a, a1), Plus(a3, a4));
    Regrouped(Kept(t, a), Kept(t, a1), Kept(t, a3), Kept(t, a4),
      Kept(m0, a1), Kept(m1, a2), Kept(m2, a3), Kept(m3, a4), Kept(m4, a5), Kept(m5, a6), Kept(m6, a7));
  }

  lemma KeptPlus(m: bv8, t: bv8, a: bv8)
    ensures Kept(Plus(m, t), a) == Plus(Kept(m, a), Kept(t, a))
  {
  }

  lemma KeptOfSum(t: bv8, a: bv8, b: bv8)
    ensures Kept(t, Plus(a, b)) == Plus(Kept(t, a), Kept(t, b))
  {
  }

  lemma Regrouped(t0: bv8, t1: bv8, t3: bv8, t4: bv8, p0: bv8, p1: bv8, p2: bv8, p3: bv8, p4: bv8, p5: bv8, p6: bv8)
    ensures
      Sum8(t0, Plus(p0, t1), p1, Plus(p2, t3), Plus(p3, t4), p4, p5, p6) ==
      Sum8(p0, p1, p2, p3, p4, p5, p6, Plus(Plus(t0, t1), Plus(t3, t4)))
  {
    var t := Plus(Plus(t0, t1), Plus(t3, t4));
    var u := Plus(p4, Plus(p5, p6));
    var v := Plus(p3, u);
    PlusZero(p6);
    PlusZero(t);
    hide Plus;
    PlusAssociates(p5, p6, t);
    PlusAssociates(p4, Plus(p5, p6), t);
    assert Sum8(p0, p1, p2, p3, p4, p5, p6, t) == Sum4(p0, p1, p2, p3, Plus(u, t));
    MovedOut(p3, t4, u);
    MovedOut(p2, t3, Plus(t4, v));
    MovedOut(p0, t1, Plus(p1, Plus(t3, Plus(p2, Plus(t4, v)))));
    Collect(p0, p1, p2, v, t0, t1, t3, t4);
    Spread(p0, p1, p2, p3, u, t);
  }

  lemma PlusZero(a: bv8)
    ensures Plus(a, 0) == a && Plus(0, a) == a
  {
  }

  lemma PlusCommutes(a: bv8, b: bv8)
    ensures Plus(a, b) == Plus(b, a)
  {
  }

  lemma PlusAssociates(a: bv8, b: bv8, c: bv8)
    ensures Plus(a, Plus(b, c)) == Plus(Plus(a, b), c)
  {
  }

  lemma MovedOut(p: bv8, t: bv8, more: bv8)
    ensures Plus(Plus(p, t), more) == Plus(t, Plus(p, more))
  {
  }

  lemma Swapped(p: bv8, t: bv8, more: bv8)
    ensures Plus(p, Plus(t, more)) == Plus(t, Plus(p, more))
  {
  }

  /** The shared summands to the front. */
  lemma Collect(p0: bv8, p1: bv8, p2: bv8, v: bv8, t0: bv8, t1: bv8, t3: bv8, t4: bv8)
    ensures
      Plus(t0, Plus(t1, Plus(p0, Plus(p1, Plus(t3, Plus(p2, Plus(t4, v))))))) ==
      Plus(Plus(Plus(t0, t1), Plus(t3, t4)), Plus(p0, Plus(p1, Plus(p2, v))))
  {
    hide Plus;
    var w := Plus(p2, v);
    Swapped(p2, t4, v);
    Swapped(p1, t3, Plus(t4, w));
    Swapped(p1, t4, w);
    Swapped(p0, t3, Plus(t4, Plus(p1, w)));
    Swapped(p0, t4, Plus(p1, w));
    var x := Plus(p0, Plus(p1, w));
    PlusAssociates(t3, t4, x);
    PlusAssociates(t0, t1, Plus(Plus(t3, t4), x));
    PlusAssociates(Plus(t0, t1), Plus(t3, t4), x);
  }

  lemma Spread(p0: bv8, p1: bv8, p2: bv8, p3: bv8, u: bv8, t: bv8)
    ensures Sum4(p0, p1, p2, p3, Plus(u, t)) == Plus(t, Plus(p0, Plus(p1, Plus(p2, Plus(p3, u)))))
  {
    hide Plus;
    PlusCommutes(u, t);
    Swapped(p3, t, u);
    Swapped(p2, t, Plus(p3, u));
    Swapped(p1, t, Plus(p2, Plus(p3, u)));
    Swapped(p0, t, Plus(p1, Plus(p2, Plus(p3, u))));
  }

  /** A doubling may be moved from one factor to the other. */
  lemma DoublingMoves(a: bv8, b: bv8)
    ensures Times(Dbl(a), b) == Times(a, Dbl(b))
  {
    EightDoublings(a);
    DoubledBits(b);
    hide BitMask, Dbl, Plus, Kept, Sum8;
    var a1 := Dbl(a);
    var a2 := Dbl(a1);
    var a3 := Dbl(a2);
    var a4 := Dbl(a3);
    var a5 := Dbl(a4);
    var a6 := Dbl(a5);
    SharedSummand(BitMask(b, 7), BitMask(b, 0), BitMask(b, 1), BitMask(b, 2), BitMask(b, 3), BitMask(b, 4),
      BitMask(b, 5), BitMask(b, 6), a, a1, a2, a3, a4, a5, a6, Dbl(a6));
  }

  lemma SmallInverses(x: bv8)
    requires 0 < x < 8
    ensures Times(x, InvGf28(x)) == 1
  {
  }

  lemma OtherSmallInverses(x: bv8)
    requires 8 <= x < 16
    ensures Times(x, InvGf28(x)) == 1
  {
  }

  lemma DoubledNotZero(x: bv8)
    requires x != 0
    ensures Mul2(x) != 0
  {
  }

  /** What the S-box calls an inverse is one: below 16 by the table, above along the doublings. */
  lemma {:induction false} InverseAlong(x: bv8, fuel: nat)
    requires x != 0 && Falls(x, fuel)
    ensures Times(x, Inverse(x)) == 1
    decreases fuel
  {
    hide Times, Inverse, InvGf28, Mul2, Dbl;
    if x < 16 {
      InvGf28IsInverse(x);
      if x < 8 { SmallInverses(x); } else { OtherSmallInverses(x); }
    } else {
      DoubledNotZero(x);
      InverseAlong(Mul2(x), fuel - 1);
      InverseOfDouble(x);
      DoublingForms(x);
      DoublingForms(Inverse(Mul2(x)));
      DoublingMoves(x, Inverse(Mul2(x)));
    }
  }

  lemma InverseIsInverse(x: bv8)
    requires x != 0
    ensures Times(x, Inverse(x)) == 1
  {
    hide Times, Inverse, Falls;
    AlwaysFalls(x);
    InverseAlong(x, 55);
  }
}
