/** AES-128 on values: the transformations of sections 5.1 to 5.3 of FIPS 197 and
  the key schedule, with the theorem that deciphering inverts enciphering. The
  in-place code of the device and the expanded-key code of the desktop library
  are both proved against these functions. */
module Aes {
  import opened SBox

  type Block = s: seq<bv8> | |s| == 16 witness seq(16, _ => 0)

  // ----- transformations of the state, column by column as the bytes are stored -----

  /** Addition in GF(2^8). */
  function Add(a: bv8, b: bv8): bv8 {
    a ^ b
  }

  function Xor(a: Block, b: Block): Block {
    seq(16, i requires 0 <= i < 16 => Add(a[i], b[i]))
  }

  function SubBytes(s: Block): Block {
    seq(16, i requires 0 <= i < 16 => SboxValue(s[i]))
  }

  function InvSubBytes(s: Block): Block {
    seq(16, i requires 0 <= i < 16 => RsboxValue(s[i]))
  }

  /** The byte at row r and column c, taken modulo 4; columns are stored one after the other. */
  function Cell(s: Block, r: nat, c: nat): bv8
    requires r < 4
  {
    s[r + 4 * (c % 4)]
  }

  /** Row r, the bytes r, r + 4, r + 8 and r + 12, moves left by r columns. */
  function ShiftRows(s: Block): Block {
    seq(16, i requires 0 <= i < 16 => Cell(s, i % 4, i / 4 + i % 4))
  }

  function InvShiftRows(s: Block): Block {
    seq(16, i requires 0 <= i < 16 => Cell(s, i % 4, i / 4 + 3 * (i % 4)))
  }

  function Sum4(a0: bv8, a1: bv8, a2: bv8, a3: bv8): bv8 {
    Add(Add(a0, a1), Add(a2, a3))
  }

  /** {02}a0 + {03}a1 + a2 + a3. */
  function MixByte(a0: bv8, a1: bv8, a2: bv8, a3: bv8): bv8 {
    Add(Add(Sum4(a0, a1, a2, a3), a0), Mul2(Add(a0, a1)))
  }

  /** {0e}a0 + {0b}a1 + {0d}a2 + {09}a3, with the doublings shared. */
  function InvMixByte(a0: bv8, a1: bv8, a2: bv8, a3: bv8): bv8 {
    var sum := Sum4(a0, a1, a2, a3);
    Add(Add(Add(Mul2(Mul2(Add(Mul2(sum), Add(a0, a2)))), sum), a0), Mul2(Add(a0, a1)))
  }

  /** Byte number i + k (modulo 4) of the column that holds byte i. */
  function InColumn(s: Block, i: nat, k: nat): bv8
    requires i < 16
  {
    s[i / 4 * 4 + (i + k) % 4]
  }

  function MixColumns(s: Block): Block {
    seq(16, i requires 0 <= i < 16 =>
      MixByte(InColumn(s, i, 0), InColumn(s, i, 1), InColumn(s, i, 2), InColumn(s, i, 3)))
  }

  function InvMixColumns(s: Block): Block {
    seq(16, i requires 0 <= i < 16 =>
      InvMixByte(InColumn(s, i, 0), InColumn(s, i, 1), InColumn(s, i, 2), InColumn(s, i, 3)))
  }

  // ----- the transformations are invertible -----

  lemma XorTwice(a: Block, b: Block)
    ensures Xor(Xor(a, b), b) == a
  {
    hide Add;
    forall i | 0 <= i < 16
      ensures Xor(Xor(a, b), b)[i] == a[i]
    {
      AddTwice(b[i], a[i]);
    }
  }

  lemma SubInverse(s: Block)
    ensures InvSubBytes(SubBytes(s)) == s
    ensures SubBytes(InvSubBytes(s)) == s
  {
    hide SboxValue, RsboxValue;
    forall i | 0 <= i < 16
      ensures RsboxValue(SboxValue(s[i])) == s[i] && SboxValue(RsboxValue(s[i])) == s[i]
    {
      TablesInverse(s[i]);
    }
  }

  lemma ShiftedCell(s: Block, r: nat, c: nat)
    requires r < 4
    ensures Cell(ShiftRows(s), r, c) == Cell(s, r, c + r)
    ensures Cell(InvShiftRows(s), r, c) == Cell(s, r, c + 3 * r)
  {
    CellShift(s, r, c, r);
    CellShift(s, r, c, 3 * r);
    hide Cell, ShiftRows, InvShiftRows;
    CellIs(ShiftRows(s), r, c);
    CellIs(InvShiftRows(s), r, c);
    CellPlace(r, c % 4);
    ShiftedAt(s, r + 4 * (c % 4));
  }

  lemma CellPlace(r: nat, c: nat)
    requires r < 4 && c < 4
    ensures r + 4 * c < 16 && (r + 4 * c) % 4 == r && (r + 4 * c) / 4 == c
  {
  }

  lemma ShiftedAt(s: Block, i: nat)
    requires i < 16
    ensures ShiftRows(s)[i] == Cell(s, i % 4, i / 4 + i % 4)
    ensures InvShiftRows(s)[i] == Cell(s, i % 4, i / 4 + 3 * (i % 4))
  {
    hide Cell;
  }

  lemma CellIs(s: Block, r: nat, c: nat)
    requires r < 4
    ensures Cell(s, r, c) == s[r + 4 * (c % 4)]
  {
  }

  lemma CellShift(s: Block, r: nat, c: nat, n: nat)
    requires r < 4
    ensures Cell(s, r, c % 4 + n) == Cell(s, r, c + n)
  {
    assert c + n == 4 * (c / 4) + (c % 4 + n);
    ModFour(c / 4, c % 4 + n);
    hide Cell;
    CellIs(s, r, c % 4 + n);
    CellIs(s, r, c + n);
  }

  lemma ModFour(q: nat, a: nat)
    ensures (4 * q + a) % 4 == a % 4
  {
  }

  lemma ByteIsCell(s: Block, i: nat)
    requires i < 16
    ensures s[i] == Cell(s, i % 4, i / 4)
    ensures Cell(s, i % 4, i / 4 + 4 * (i % 4)) == Cell(s, i % 4, i / 4)
  {
  }

  lemma ShiftInverse(s: Block)
    ensures InvShiftRows(ShiftRows(s)) == s
    ensures ShiftRows(InvShiftRows(s)) == s
  {
    hide *;
    forall i: nat | i < 16
      ensures InvShiftRows(ShiftRows(s))[i] == s[i] && ShiftRows(InvShiftRows(s))[i] == s[i]
    {
      var r, c := i % 4, i / 4;
      ByteIsCell(InvShiftRows(ShiftRows(s)), i);
      ByteIsCell(ShiftRows(InvShiftRows(s)), i);
      ShiftedCell(ShiftRows(s), r, c);
      ShiftedCell(InvShiftRows(s), r, c);
      ShiftedCell(s, r, c + r);
      ShiftedCell(s, r, c + 3 * r);
      ByteIsCell(s, i);
    }
  }

  lemma AddCommutes(a: bv8, b: bv8)
    ensures Add(a, b) == Add(b, a)
  {
  }

  lemma AddThrough(a: bv8, b: bv8, c: bv8)
    ensures Add(Add(a, b), Add(b, c)) == Add(a, c)
  {
  }

  lemma AddShared(a: bv8, b: bv8, c: bv8)
    ensures Add(Add(a, c), Add(b, c)) == Add(a, b)
  {
  }

  lemma AddTwice(a: bv8, b: bv8)
    ensures Add(a, Add(b, a)) == b
    ensures Add(Add(b, a), a) == b
  {
  }

  lemma AddAssociates(a: bv8, b: bv8, c: bv8)
    ensures Add(Add(a, b), c) == Add(a, Add(b, c))
  {
  }

  lemma AddMedial(p: bv8, q: bv8, r: bv8, t: bv8)
    ensures Add(Add(p, q), Add(r, t)) == Add(Add(p, r), Add(q, t))
  {
    hide Add;
    AddAssociates(p, q, Add(r, t));
    AddAssociates(q, r, t);
    AddCommutes(q, r);
    AddAssociates(r, q, t);
    AddAssociates(p, r, Add(q, t));
  }

  lemma AddMixed(sum: bv8, a: bv8, b: bv8, m: bv8, n: bv8)
    ensures Add(Add(Add(sum, a), m), Add(Add(sum, b), n)) == Add(Add(a, b), Add(m, n))
    ensures Add(Add(Add(n, sum), Add(Add(sum, a), m)), Add(m, n)) == a
  {
    hide Add;
    AddMedial(Add(sum, a), m, Add(sum, b), n);
    AddCommutes(sum, a);
    AddCommutes(sum, b);
    AddShared(a, b, sum);
    AddAssociates(sum, a, m);
    AddThrough(n, sum, Add(a, m));
    AddCommutes(n, Add(a, m));
    AddShared(Add(a, m), m, n);
    AddTwice(m, a);
  }

  lemma Mul2Add(a: bv8, b: bv8)
    ensures Mul2(Add(a, b)) == Add(Mul2(a), Mul2(b))
  {
    Mul2Xor(a, b);
  }

  /** Neighbours and opposites of a mixed column, added. */
  lemma MixDifferences(a0: bv8, a1: bv8, a2: bv8, a3: bv8)
    ensures Add(MixByte(a0, a1, a2, a3), MixByte(a1, a2, a3, a0)) == Add(Add(a0, a1), Mul2(Add(a0, a2)))
    ensures Add(MixByte(a0, a1, a2, a3), MixByte(a2, a3, a0, a1))
         == Add(Add(a0, a2), Mul2(Sum4(a0, a1, a2, a3)))
  {
    Sum4Rotates(a0, a1, a2, a3);
    hide Add, Mul2;
    var sum := Sum4(a0, a1, a2, a3);
    AddMixed(sum, a0, a1, Mul2(Add(a0, a1)), Mul2(Add(a1, a2)));
    Mul2Add(Add(a0, a1), Add(a1, a2));
    AddThrough(a0, a1, a2);
    AddMixed(sum, a0, a2, Mul2(Add(a0, a1)), Mul2(Add(a2, a3)));
    Mul2Add(Add(a0, a1), Add(a2, a3));
  }

  lemma Sum4Rotates(a0: bv8, a1: bv8, a2: bv8, a3: bv8)
    ensures Sum4(a1, a2, a3, a0) == Sum4(a2, a3, a0, a1) == Sum4(a0, a1, a2, a3)
  {
    hide Add;
    AddMedial(a1, a2, a3, a0);
    AddMedial(a1, a0, a3, a2);
    AddCommutes(a0, a1);
    AddCommutes(a0, a2);
    AddCommutes(a2, a3);
    AddCommutes(Add(a0, a1), Add(a2, a3));
  }

  lemma MixByteInverse(a0: bv8, a1: bv8, a2: bv8, a3: bv8)
    ensures
      InvMixByte(MixByte(a0, a1, a2, a3), MixByte(a1, a2, a3, a0),
                 MixByte(a2, a3, a0, a1), MixByte(a3, a0, a1, a2)) == a0
  {
    hide Add, Mul2;
    var b0, b1 := MixByte(a0, a1, a2, a3), MixByte(a1, a2, a3, a0);
    var b2, b3 := MixByte(a2, a3, a0, a1), MixByte(a3, a0, a1, a2);
    var sum := Sum4(a0, a1, a2, a3);
    var m := Mul2(Add(a0, a2));
    MixDifferences(a0, a1, a2, a3);
    MixDifferences(a2, a3, a0, a1);
    AddCommutes(a0, a2);
    AddShared(Add(a0, a1), Add(a2, a3), m);
    assert Sum4(b0, b1, b2, b3) == sum;
    AddTwice(Mul2(sum), Add(a0, a2));
    Mul2Add(Add(a0, a1), m);
    AddMixed(sum, a0, a0, Mul2(Add(a0, a1)), Mul2(m));
  }

  lemma ColumnWraps(s: Block, i: nat)
    requires i < 16
    ensures InColumn(s, i, 0) == s[i]
    ensures InColumn(s, i, 4) == InColumn(s, i, 0)
    ensures InColumn(s, i, 5) == InColumn(s, i, 1)
    ensures InColumn(s, i, 6) == InColumn(s, i, 2)
  {
    hide InColumn;
    InColumnIs(s, i, 0);
    assert i / 4 * 4 + i % 4 == i;
    OnceRound(s, i, 0);
    OnceRound(s, i, 1);
    OnceRound(s, i, 2);
  }

  lemma OnceRound(s: Block, i: nat, k: nat)
    requires i < 16
    ensures InColumn(s, i, k + 4) == InColumn(s, i, k)
  {
    hide InColumn;
    InColumnIs(s, i, k);
    InColumnIs(s, i, k + 4);
    assert i + (k + 4) == 4 * 1 + (i + k);
    ModFour(1, i + k);
  }

  lemma MixInColumn(s: Block, i: nat, k: nat)
    requires i < 16
    ensures
      InColumn(MixColumns(s), i, k) ==
      MixByte(InColumn(s, i, k), InColumn(s, i, k + 1), InColumn(s, i, k + 2), InColumn(s, i, k + 3))
  {
    hide MixByte, MixColumns, InColumn;
    var j := i / 4 * 4 + (i + k) % 4;
    InColumnIs(MixColumns(s), i, k);
    MixAt(s, j);
    SameColumn(s, i, k, 0);
    SameColumn(s, i, k, 1);
    SameColumn(s, i, k, 2);
    SameColumn(s, i, k, 3);
  }

  lemma InColumnIs(s: Block, i: nat, k: nat)
    requires i < 16
    ensures i / 4 * 4 + (i + k) % 4 < 16 && InColumn(s, i, k) == s[i / 4 * 4 + (i + k) % 4]
  {
  }

  lemma MixAt(s: Block, i: nat)
    requires i < 16
    ensures MixColumns(s)[i] == MixByte(InColumn(s, i, 0), InColumn(s, i, 1), InColumn(s, i, 2), InColumn(s, i, 3))
  {
    hide MixByte, InColumn;
  }

  lemma SameColumn(s: Block, i: nat, k: nat, m: nat)
    requires i < 16
    ensures InColumn(s, i / 4 * 4 + (i + k) % 4, m) == InColumn(s, i, k + m)
  {
    hide InColumn;
    var q, r := (i + k) / 4, (i + k) % 4;
    var j := i / 4 * 4 + r;
    assert i + k + m == 4 * q + (r + m);
    ModFour(q, r + m);
    ModFour(i / 4, r + m);
    assert j + m == 4 * (i / 4) + (r + m);
    CellPlace(r, i / 4);
    InColumnIs(s, j, m);
    InColumnIs(s, i, k + m);
  }

  lemma InvMixAt(s: Block, i: nat)
    requires i < 16
    ensures
      InvMixColumns(s)[i] ==
      InvMixByte(InColumn(s, i, 0), InColumn(s, i, 1), InColumn(s, i, 2), InColumn(s, i, 3))
  {
    hide InvMixByte;
  }

  lemma MixInverse(s: Block)
    ensures InvMixColumns(MixColumns(s)) == s
  {
    hide *;
    forall i: nat | i < 16
      ensures InvMixColumns(MixColumns(s))[i] == s[i]
    {
      InvMixAt(MixColumns(s), i);
      MixInColumn(s, i, 0);
      MixInColumn(s, i, 1);
      MixInColumn(s, i, 2);
      MixInColumn(s, i, 3);
      ColumnWraps(s, i);
      MixByteInverse(InColumn(s, i, 0), InColumn(s, i, 1), InColumn(s, i, 2), InColumn(s, i, 3));
    }
  }

  // ----- the key schedule -----

  /** The round constants, powers of {02}. */
  function Rcon(n: nat): bv8 {
    if n == 0 then 1 else Mul2(Rcon(n - 1))
  }

  /** The rotated, substituted and offset last word of a round key. */
  function KeyCore(w: bv8, rc: bv8, i: nat): bv8 {
    if i == 0 then Add(SboxValue(w), rc) else SboxValue(w)
  }

  function NextKeyByte(k: Block, rc: bv8, i: nat): bv8
    requires i < 16
  {
    Add(k[i], if i < 4 then KeyCore(k[12 + (i + 1) % 4], rc, i) else NextKeyByte(k, rc, i - 4))
  }

  /** The round key after `k`. */
  function NextKey(k: Block, rc: bv8): Block {
    seq(16, i requires 0 <= i < 16 => NextKeyByte(k, rc, i))
  }

  function PrevKeyByte(k: Block, rc: bv8, i: nat): bv8
    requires i < 16
    decreases if i >= 4 then 0 else 1
  {
    Add(k[i], if i >= 4 then k[i - 4] else KeyCore(PrevKeyByte(k, rc, 12 + (i + 1) % 4), rc, i))
  }

  /** The round key before `k`. */
  function PrevKey(k: Block, rc: bv8): Block {
    seq(16, i requires 0 <= i < 16 => PrevKeyByte(k, rc, i))
  }

  lemma PrevNextKeyByte(k: Block, rc: bv8, i: nat)
    requires i < 16
    ensures PrevKeyByte(NextKey(k, rc), rc, i) == k[i]
    decreases if i >= 4 then 0 else 1
  {
    hide Add, KeyCore;
    var n := NextKey(k, rc);
    if i >= 4 {
      AddTwice(NextKeyByte(k, rc, i - 4), k[i]);
    } else {
      var j := 12 + (i + 1) % 4;
      PrevNextKeyByte(k, rc, j);
      AddTwice(KeyCore(k[j], rc, i), k[i]);
    }
  }

  /** The schedule can be run backwards. */
  lemma PrevNextKey(k: Block, rc: bv8)
    ensures PrevKey(NextKey(k, rc), rc) == k
  {
    forall i | 0 <= i < 16
      ensures PrevKey(NextKey(k, rc), rc)[i] == k[i]
    {
      PrevNextKeyByte(k, rc, i);
    }
  }

  /** Round key number r of the key schedule. */
  function RoundKey(k: Block, r: nat): Block
    decreases r, k
  {
    if r == 0 then k else NextKey(RoundKey(k, r - 1), Rcon(r - 1))
  }

  // ----- the cipher -----

  /** The transformations of round r before its round key is added; the last round does not mix. */
  function Round(s: Block, r: nat): Block {
    var t := ShiftRows(SubBytes(s));
    if r == 10 then t else MixColumns(t)
  }

  function InvRound(s: Block, r: nat): Block {
    InvSubBytes(InvShiftRows(if r == 10 then s else InvMixColumns(s)))
  }

  lemma RoundInverse(s: Block, r: nat)
    ensures InvRound(Round(s, r), r) == s
  {
    hide SubBytes, InvSubBytes, ShiftRows, InvShiftRows, MixColumns, InvMixColumns;
    MixInverse(ShiftRows(SubBytes(s)));
    ShiftInverse(SubBytes(s));
    SubInverse(s);
  }

  /** The state after round key r has been added. */
  function StateAfter(k: Block, b: Block, r: nat): Block
    decreases r, k
  {
    Xor(if r == 0 then b else Round(StateAfter(k, b, r - 1), r), RoundKey(k, r))
  }

  function Cipher(k: Block, b: Block): Block {
    StateAfter(k, b, 10)
  }

  /** The state of the inverse cipher before round key r is added. */
  function InvStateBefore(k: Block, c: Block, r: nat): Block
    requires r <= 10
    decreases 10 - r, k
  {
    if r == 10 then c else InvRound(Xor(InvStateBefore(k, c, r + 1), RoundKey(k, r + 1)), r + 1)
  }

  function InvCipher(k: Block, c: Block): Block {
    Xor(InvStateBefore(k, c, 0), RoundKey(k, 0))
  }

  lemma {:induction false} InverseStates(k: Block, b: Block, r: nat)
    requires r <= 10
    ensures InvStateBefore(k, Cipher(k, b), r) == StateAfter(k, b, r)
    decreases 10 - r
  {
    hide Xor, RoundKey, Round, InvRound;
    if r < 10 {
      InverseStates(k, b, r + 1);
      var s := Round(StateAfter(k, b, r), r + 1);
      XorTwice(s, RoundKey(k, r + 1));
      RoundInverse(StateAfter(k, b, r), r + 1);
    }
  }

  /** Deciphering undoes enciphering, for every key and block. */
  lemma InvCipherOfCipher(k: Block, b: Block)
    ensures InvCipher(k, Cipher(k, b)) == b
  {
    hide Xor, RoundKey;
    InverseStates(k, b, 0);
    XorTwice(b, RoundKey(k, 0));
  }
}
