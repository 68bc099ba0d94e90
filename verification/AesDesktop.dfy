/** The desktop library's AES (library/AES/Aes.cpp): the key is expanded into 176
  bytes first, the S-boxes are tables, and the inverse MixColumns multiplies in
  GF(2^8). Proved to compute the same cipher as the device. */
module AesDesktop {
  import opened Bytes
  import opened SBox
  import opened Aes
  import opened AesDevice
  import opened Cbc

  /** The Rcon table, as far as a 128-bit key reads it. */
  function RconTable(i: nat): bv8
    requires i <= 10
  {
    [0x8d, 0x01, 0x02, 0x04, 0x08, 0x10, 0x20, 0x40, 0x80, 0x1b, 0x36][i]
  }

  lemma RconTableIsRcon(r: nat)
    requires 1 <= r <= 10
    ensures RconTable(r) == Rcon(r - 1)
  {
    assert Rcon(4) == 0x10;
    assert Rcon(8) == 0x1b;
    if r < 6 {
    } else {
    }
  }

  /** Byte n of the 176-byte expanded key. */
  function ExpandedByte(k: Block, n: nat): bv8 {
    RoundKey(k, n / 16)[n % 16]
  }

  lemma ExpandedByteAt(k: Block, r: nat, m: nat)
    requires m < 16
    ensures ExpandedByte(k, 16 * r + m) == RoundKey(k, r)[m]
  {
    hide RoundKey;
    assert (16 * r + m) / 16 == r && (16 * r + m) % 16 == m;
  }

  /** How the schedule derives a byte of a round key from the round key before it. */
  lemma RoundKeyByte(k: Block, r: nat, m: nat)
    requires 1 <= r <= 10 && m < 16
    ensures RoundKey(k, r)[m] == Add(RoundKey(k, r - 1)[m],
      if m >= 4 then RoundKey(k, r)[m - 4]
      else var w := SboxValue(RoundKey(k, r - 1)[12 + (m + 1) % 4]);
           if m == 0 then Add(w, RconTable(r)) else w)
  {
    hide SboxValue, Add, Rcon, RconTable;
    RconTableIsRcon(r);
  }

  /** The words of the schedule, in terms of the expanded bytes before them. */
  lemma ExpandedWord(k: Block, i: nat, j: nat)
    requires 4 <= i < 44 && j < 4
    ensures ExpandedByte(k, 4 * i + j) == Add(ExpandedByte(k, 4 * i - 16 + j),
      if i % 4 != 0 then ExpandedByte(k, 4 * i - 4 + j)
      else var w := SboxValue(ExpandedByte(k, 4 * i - 4 + (j + 1) % 4));
           if j == 0 then Add(w, RconTable(i / 4)) else w)
  {
    hide *;
    var r, m := i / 4, 4 * (i % 4) + j;
    RoundKeyByte(k, r, m);
    ExpandedByteAt(k, r, m);
    ExpandedByteAt(k, r - 1, m);
    if m >= 4 {
      ExpandedByteAt(k, r, m - 4);
    } else {
      ExpandedByteAt(k, r - 1, 12 + (j + 1) % 4);
    }
  }

  /** temp = x; x = y; y = z; z = w; w = temp */
  method Cycle(a: array<bv8>, x: nat, y: nat, z: nat, w: nat)
    requires x < a.Length && y < a.Length && z < a.Length && w < a.Length
    requires x != y && x != z && x != w && y != z && y != w && z != w
    modifies a
    ensures a[x] == old(a[y]) && a[y] == old(a[z]) && a[z] == old(a[w]) && a[w] == old(a[x])
    ensures forall p: nat | p < a.Length && p != x && p != y && p != z && p != w :: a[p] == old(a[p])
  {
    var temp := a[x];
    a[x] := a[y];
    a[y] := a[z];
    a[z] := a[w];
    a[w] := temp;
  }

  method Swap(a: array<bv8>, x: nat, y: nat)
    requires x < a.Length && y < a.Length && x != y
    modifies a
    ensures a[x] == old(a[y]) && a[y] == old(a[x])
    ensures forall p: nat | p < a.Length && p != x && p != y :: a[p] == old(a[p])
  {
    var temp := a[x];
    a[x] := a[y];
    a[y] := temp;
  }

  lemma SpliceBySixteen(before: seq<bv8>, after: seq<bv8>, off: nat, t: Block)
    requires |after| == |before| && off + 16 <= |before|
    requires forall j: nat | j < |before| && !(off <= j < off + 16) :: after[j] == before[j]
    requires after[off + 0] == t[0] && after[off + 1] == t[1] && after[off + 2] == t[2] && after[off + 3] == t[3]
    requires after[off + 4] == t[4] && after[off + 5] == t[5] && after[off + 6] == t[6] && after[off + 7] == t[7]
    requires after[off + 8] == t[8] && after[off + 9] == t[9] && after[off + 10] == t[10] && after[off + 11] == t[11]
    requires after[off + 12] == t[12] && after[off + 13] == t[13] && after[off + 14] == t[14] && after[off + 15] == t[15]
    ensures after == Splice(before, off, t)
  {
    forall j: nat | j < 16
      ensures after[off + j] == t[j]
    {
    }
    SpliceByBytes(before, after, off, t);
  }

  lemma ShiftRowsBytes(b: Block)
    ensures var t := ShiftRows(b);
      && t[0] == b[0] && t[1] == b[5] && t[2] == b[10] && t[3] == b[15]
      && t[4] == b[4] && t[5] == b[9] && t[6] == b[14] && t[7] == b[3]
      && t[8] == b[8] && t[9] == b[13] && t[10] == b[2] && t[11] == b[7]
      && t[12] == b[12] && t[13] == b[1] && t[14] == b[6] && t[15] == b[11]
  {
  }

  lemma InvShiftRowsBytes(b: Block)
    ensures var t := InvShiftRows(b);
      && t[0] == b[0] && t[1] == b[13] && t[2] == b[10] && t[3] == b[7]
      && t[4] == b[4] && t[5] == b[1] && t[6] == b[14] && t[7] == b[11]
      && t[8] == b[8] && t[9] == b[5] && t[10] == b[2] && t[11] == b[15]
      && t[12] == b[12] && t[13] == b[9] && t[14] == b[6] && t[15] == b[3]
  {
    InvShiftedColumns(b, 0);
    InvShiftedColumns(b, 1);
    InvShiftedColumns(b, 2);
    InvShiftedColumns(b, 3);
    hide InvShiftRows;
  }

  lemma InvShiftedColumns(b: Block, c: nat)
    requires c < 4
    ensures InvShiftRows(b)[4 * c] == b[4 * c]
    ensures InvShiftRows(b)[4 * c + 1] == b[if c == 0 then 13 else 4 * c - 3]
    ensures InvShiftRows(b)[4 * c + 2] == b[if c < 2 then 4 * c + 10 else 4 * c - 6]
    ensures InvShiftRows(b)[4 * c + 3] == b[if c == 3 then 3 else 4 * c + 7]
  {
  }

  class Library {
    const roundKey: array<bv8>

    constructor ()
      ensures fresh(roundKey) && roundKey.Length == 176
    {
      roundKey := new bv8[176](_ => 0);
    }

    /** KeyExpansion, the body of its second loop. */
    method ExpandWord(i: nat, ghost k: Block)
      requires roundKey.Length == 176 && 4 <= i < 44
      requires forall n: nat | n < 4 * i :: roundKey[n] == ExpandedByte(k, n)
      modifies roundKey
      ensures forall n: nat | n < 4 * i + 4 :: roundKey[n] == ExpandedByte(k, n)
    {
      hide *;
      var t0, t1, t2, t3 := NextWord(i, k);
      PutWord(roundKey, 4 * i, t0, t1, t2, t3);
    }

    /** The word it stores. */
    method NextWord(i: nat, ghost k: Block) returns (t0: bv8, t1: bv8, t2: bv8, t3: bv8)
      requires roundKey.Length == 176 && 4 <= i < 44
      requires forall n: nat | n < 4 * i :: roundKey[n] == ExpandedByte(k, n)
      ensures t0 == ExpandedByte(k, 4 * i) && t1 == ExpandedByte(k, 4 * i + 1)
      ensures t2 == ExpandedByte(k, 4 * i + 2) && t3 == ExpandedByte(k, 4 * i + 3)
    {
      hide *;
      var p, q := 4 * i - 4, 4 * i - 16;
      t0, t1, t2, t3 := roundKey[p], roundKey[p + 1], roundKey[p + 2], roundKey[p + 3];
      if i % 4 == 0 {
        t0, t1, t2, t3 := t1, t2, t3, t0;
        t0, t1, t2, t3 := SboxValue(t0), SboxValue(t1), SboxValue(t2), SboxValue(t3);
        t0 := Add(t0, RconTable(i / 4));
      }
      t0, t1 := Add(roundKey[q], t0), Add(roundKey[q + 1], t1);
      t2, t3 := Add(roundKey[q + 2], t2), Add(roundKey[q + 3], t3);
      assert t0 == ExpandedByte(k, 4 * i) by { ExpandedWord(k, i, 0); }
      assert t1 == ExpandedByte(k, 4 * i + 1) by { ExpandedWord(k, i, 1); }
      assert t2 == ExpandedByte(k, 4 * i + 2) by { ExpandedWord(k, i, 2); }
      assert t3 == ExpandedByte(k, 4 * i + 3) by { ExpandedWord(k, i, 3); }
    }

    /** KeyExpansion. */
    method KeyExpansion(key: array<bv8>)
      requires roundKey.Length == 176 && key.Length == 16 && key != roundKey
      modifies roundKey
      ensures Expanded(key[..])
    {
      hide ExpandedByte, RoundKey;
      ghost var k: Block := key[..];
      for i := 0 to 4
        invariant forall n: nat | n < 4 * i :: roundKey[n] == key[n]
      {
        PutWord(roundKey, 4 * i, key[4 * i], key[4 * i + 1], key[4 * i + 2], key[4 * i + 3]);
      }
      FirstRoundKey(k);
      for i := 4 to 44
        invariant forall n: nat | n < 4 * i :: roundKey[n] == ExpandedByte(k, n)
      {
        ExpandWord(i, k);
      }
      ExpandedByBytes(k, roundKey[..]);
    }

    /** AddRoundKey. */
    method AddRoundKey(state: array<bv8>, off: nat, round: nat, ghost k: Block)
      requires Expanded(k) && round <= 10
      requires state != roundKey && off + 16 <= state.Length
      modifies state
      ensures state[..] == Splice(old(state[..]), off, Xor(old(state[off..off + 16]), RoundKey(k, round)))
    {
      ghost var e: Block := roundKey[16 * round..16 * round + 16];
      assert e == RoundKey(k, round);
      hide *;
      var q := 16 * round;
      for i := 0 to 4
        invariant forall p: nat | p < state.Length ::
          state[p] == if off <= p < off + 4 * i then Add(old(state[p]), e[p - off]) else old(state[p])
      {
        AddRoundKeyWord(state, off, i, e, q);
      }
      XorByBytes(old(state[..]), state[..], off, e);
    }

    /** AddRoundKey, the body of its outer loop. */
    method AddRoundKeyWord(state: array<bv8>, off: nat, i: nat, ghost e: Block, q: nat)
      requires state != roundKey && off + 16 <= state.Length && i < 4
      requires q + 16 <= roundKey.Length && roundKey[q..q + 16] == e
      modifies state
      ensures forall p: nat | p < state.Length ::
        state[p] == if off + 4 * i <= p < off + 4 * i + 4 then Add(old(state[p]), e[p - off]) else old(state[p])
    {
      hide *;
      var p, r := off + 4 * i, q + 4 * i;
      assert roundKey[r] == e[4 * i] && roundKey[r + 1] == e[4 * i + 1];
      assert roundKey[r + 2] == e[4 * i + 2] && roundKey[r + 3] == e[4 * i + 3];
      AddCommutes4(roundKey[r], roundKey[r + 1], roundKey[r + 2], roundKey[r + 3], state[p..p + 4]);
      var _, _, _, _ := AddWord(state, p, roundKey[r], roundKey[r + 1], roundKey[r + 2], roundKey[r + 3]);
    }

    /** SubBytes and InvSubBytes: one row after the other. */
    method SubTable(state: array<bv8>, off: nat, inv: bool)
      requires off + 16 <= state.Length
      modifies state
      ensures state[..] == Splice(old(state[..]), off,
        if inv then InvSubBytes(old(state[off..off + 16])) else SubBytes(old(state[off..off + 16])))
    {
      hide SboxValue, RsboxValue, SubbedRows, SubBytes, InvSubBytes, Splice;
      ghost var s0 := state[..];
      NoRowSubbed(s0, off, inv);
      for i := 0 to 4
        invariant SubbedRows(old(state[..]), state[..], off, i, 0, inv)
      {
        for j := 0 to 4
          invariant SubbedRows(old(state[..]), state[..], off, i, j, inv)
        {
          var p := off + 4 * j + i;
          OneMoreSubbed(s0, state[..], off, i, j, inv);
          state[p] := if inv then RsboxValue(state[p]) else SboxValue(state[p]);
        }
        RowSubbed(s0, state[..], off, i, inv);
      }
      AllRowsSubbed(s0, state[..], off, inv);
    }

    /** ShiftRows. */
    method ShiftRowsByHand(state: array<bv8>, off: nat)
      requires off + 16 <= state.Length
      modifies state
      ensures state[..] == Splice(old(state[..]), off, ShiftRows(old(state[off..off + 16])))
    {
      hide *;
      ghost var b: Block := state[off..off + 16];
      Cycle(state, off + 1, off + 5, off + 9, off + 13);
      Swap(state, off + 2, off + 10);
      Swap(state, off + 6, off + 14);
      Cycle(state, off + 3, off + 15, off + 11, off + 7);
      ShiftRowsBytes(b);
      SpliceBySixteen(old(state[..]), state[..], off, ShiftRows(b));
    }

    /** InvShiftRows. */
    method InvShiftRowsByHand(state: array<bv8>, off: nat)
      requires off + 16 <= state.Length
      modifies state
      ensures state[..] == Splice(old(state[..]), off, InvShiftRows(old(state[off..off + 16])))
    {
      hide *;
      ghost var b: Block := state[off..off + 16];
      Cycle(state, off + 13, off + 9, off + 5, off + 1);
      Swap(state, off + 2, off + 10);
      Swap(state, off + 6, off + 14);
      Cycle(state, off + 3, off + 7, off + 11, off + 15);
      InvShiftRowsBytes(b);
      SpliceBySixteen(old(state[..]), state[..], off, InvShiftRows(b));
    }

    /** MixColumns. */
    method MixColumnsByHand(state: array<bv8>, off: nat)
      requires off + 16 <= state.Length
      modifies state
      ensures state[..] == Splice(old(state[..]), off, MixColumns(old(state[off..off + 16])))
    {
      hide *;
      ghost var s: Block := state[off..off + 16];
      for i := 0 to 4
        invariant forall j: nat | j < state.Length ::
          state[j] == if off <= j < off + 4 * i then Mixed(s, j - off, false) else old(state[j])
      {
        var p := off + 4 * i;
        var s0, s1, s2, s3 := state[p], state[p + 1], state[p + 2], state[p + 3];
        TmpMixedColumn(s, 4 * i, s0, s1, s2, s3);
        var t := s0;
        var tmp := Add(Add(Add(s0, s1), s2), s3);
        var tm := Xtime(Add(s0, s1));
        s0 := Add(s0, Add(tm, tmp));
        tm := Xtime(Add(s1, s2));
        s1 := Add(s1, Add(tm, tmp));
        tm := Xtime(Add(s2, s3));
        s2 := Add(s2, Add(tm, tmp));
        tm := Xtime(Add(s3, t));
        s3 := Add(s3, Add(tm, tmp));
        PutWord(state, p, s0, s1, s2, s3);
      }
      MixedByBytes(old(state[..]), state[..], off, false);
    }

    /** InvMixColumns. */
    method InvMixColumnsByHand(state: array<bv8>, off: nat)
      requires off + 16 <= state.Length
      modifies state
      ensures state[..] == Splice(old(state[..]), off, InvMixColumns(old(state[off..off + 16])))
    {
      hide *;
      ghost var s: Block := state[off..off + 16];
      for i := 0 to 4
        invariant forall j: nat | j < state.Length ::
          state[j] == if off <= j < off + 4 * i then Mixed(s, j - off, true) else old(state[j])
      {
        var p := off + 4 * i;
        var a, b, c, d := state[p], state[p + 1], state[p + 2], state[p + 3];
        MultipliedColumn(s, 4 * i, a, b, c, d);
        PutWord(state, p,
          Product(a, 0x0e, b, 0x0b, c, 0x0d, d, 0x09), Product(a, 0x09, b, 0x0e, c, 0x0b, d, 0x0d),
          Product(a, 0x0d, b, 0x09, c, 0x0e, d, 0x0b), Product(a, 0x0b, b, 0x0d, c, 0x09, d, 0x0e));
      }
      MixedByBytes(old(state[..]), state[..], off, true);
    }

    /** Cipher. */
    method Encipher(state: array<bv8>, off: nat, ghost k: Block)
      requires Expanded(k)
      requires state != roundKey && off + 16 <= state.Length
      modifies state
      ensures state[..] == Splice(old(state[..]), off, Cipher(k, old(state[off..off + 16])))
    {
      hide Splice, Xor, Round, SubBytes, ShiftRows, MixColumns, Cipher, StateAfter, RoundKey;
      ghost var s0, b := state[..], state[off..off + 16];
      ghost var t: Block := b;
      StartOfRounds(k, s0, off);
      CipherStep(k, b, 0);
      AddRoundKey(state, off, 0, k);
      t := Xor(t, RoundKey(k, 0));
      for round := 1 to 10
        invariant state[..] == Splice(s0, off, t)
        invariant t == StateAfter(k, b, round - 1)
      {
        t := SubAndShift(state, off, s0, t);
        MixColumnsByHand(state, off);
        SpliceAgain(s0, off, t, MixColumns(t));
        t := MixColumns(t);
        AddRoundKey(state, off, round, k);
        SpliceAgain(s0, off, t, Xor(t, RoundKey(k, round)));
        t := Xor(t, RoundKey(k, round));
        CipherStep(k, b, round);
      }
      t := SubAndShift(state, off, s0, t);
      AddRoundKey(state, off, 10, k);
      SpliceAgain(s0, off, t, Xor(t, RoundKey(k, 10)));
      CipherStep(k, b, 10);
    }

    /** SubBytes then ShiftRows; returns the block that results. */
    method SubAndShift(state: array<bv8>, off: nat, ghost s0: seq<bv8>, ghost t0: Block) returns (ghost t: Block)
      requires off + 16 <= state.Length && |s0| == state.Length
      requires state[..] == Splice(s0, off, t0)
      modifies state
      ensures t == ShiftRows(SubBytes(t0))
      ensures state[..] == Splice(s0, off, t)
    {
      hide *;
      SubTable(state, off, false);
      SpliceAgain(s0, off, t0, SubBytes(t0));
      ShiftRowsByHand(state, off);
      t := ShiftRows(SubBytes(t0));
      SpliceAgain(s0, off, SubBytes(t0), t);
    }

    /** InvCipher. */
    method Decipher(state: array<bv8>, off: nat, ghost k: Block)
      requires Expanded(k)
      requires state != roundKey && off + 16 <= state.Length
      modifies state
      ensures state[..] == Splice(old(state[..]), off, InvCipher(k, old(state[off..off + 16])))
    {
      hide Splice, Xor, InvSubBytes, InvShiftRows, InvMixColumns, InvCipher, InvStateBefore, RoundKey;
      ghost var s0, c := state[..], state[off..off + 16];
      ghost var t: Block := c;
      StartOfRounds(k, s0, off);
      InvCipherStep(k, c, 10);
      AddRoundKey(state, off, 10, k);
      t := Xor(t, RoundKey(k, 10));
      var round := 9;
      while round > 0
        invariant 0 <= round <= 9
        invariant state[..] == Splice(s0, off, t)
        invariant t ==
          if round == 9 then Xor(c, RoundKey(k, 10))
          else InvMixColumns(Xor(InvStateBefore(k, c, round + 1), RoundKey(k, round + 1)))
      {
        InvCipherStep(k, c, round + 1);
        t := InvShiftAndSub(state, off, s0, t);
        AddRoundKey(state, off, round, k);
        SpliceAgain(s0, off, t, Xor(t, RoundKey(k, round)));
        t := Xor(t, RoundKey(k, round));
        InvMixColumnsByHand(state, off);
        SpliceAgain(s0, off, t, InvMixColumns(t));
        t := InvMixColumns(t);
        round := round - 1;
      }
      InvCipherStep(k, c, 1);
      t := InvShiftAndSub(state, off, s0, t);
      AddRoundKey(state, off, 0, k);
      SpliceAgain(s0, off, t, Xor(t, RoundKey(k, 0)));
      InvCipherStep(k, c, 0);
    }

    /** InvShiftRows then InvSubBytes; returns the block that results. */
    method InvShiftAndSub(state: array<bv8>, off: nat, ghost s0: seq<bv8>, ghost t0: Block) returns (ghost t: Block)
      requires off + 16 <= state.Length && |s0| == state.Length
      requires state[..] == Splice(s0, off, t0)
      modifies state
      ensures t == InvSubBytes(InvShiftRows(t0))
      ensures state[..] == Splice(s0, off, t)
    {
      hide *;
      InvShiftRowsByHand(state, off);
      SpliceAgain(s0, off, t0, InvShiftRows(t0));
      SubTable(state, off, true);
      t := InvSubBytes(InvShiftRows(t0));
      SpliceAgain(s0, off, InvShiftRows(t0), t);
    }

    /** AES128_CBC_encrypt_buffer, one block: `iv` is the buffer Iv points into. */
    method EncryptBlock(output: array<bv8>, input: array<bv8>, i: nat, iv: array<bv8>, v: nat, ghost k: Block)
      requires Expanded(k)
      requires output != input && output != roundKey && input != roundKey && iv != input
      requires i + 16 <= output.Length && i + 16 <= input.Length && v + 16 <= iv.Length
      requires iv == output ==> v + 16 <= i
      modifies output, input
      ensures output[..] == Splice(old(output[..]), i,
        Cipher(k, Xor(old(input[i..i + 16]), old(iv[v..v + 16]))))
      ensures input[i + 16..] == old(input[i + 16..])
    {
      assert Expanded(k);
      hide Splice, Xor, Cipher, RoundKey;
      ghost var p: Block, o := Xor(input[i..i + 16], iv[v..v + 16]), output[..];
      MemXor(input, i, iv, v);
      SpliceTail(old(input[..]), i, p);
      BlockCopy(output, input, i);
      Encipher(output, i, k);
      SpliceAgain(o, i, p, Cipher(k, p));
    }

    /** The first block goes with the IV, the others with the output before them. */
    method EncryptNext(output: array<bv8>, input: array<bv8>, i: nat, iv: array<bv8>, ghost k: Block)
      requires Expanded(k)
      requires output != input && output != roundKey && input != roundKey && iv != input && iv != output
      requires i + 16 <= output.Length && i + 16 <= input.Length && iv.Length == 16 && (i == 0 || i >= 16)
      modifies output, input
      ensures output[..] == Splice(old(output[..]), i,
        Cipher(k, Xor(old(input[i..i + 16]), old(BlockBefore(output[..], i, iv[..])))))
      ensures input[i + 16..] == old(input[i + 16..])
    {
      hide *;
      BeforeIs(output[..], i, iv[..]);
      if i == 0 {
        assert iv[0..16] == iv[..];
        EncryptBlock(output, input, i, iv, 0, k);
      } else {
        EncryptBlock(output, input, i, output, i - 16, k);
      }
    }

    /** AES128_CBC_encrypt_buffer for whole blocks. The input is scratch space: it
      is combined with the IV in place. */
    method EncryptBuffer(output: array<bv8>, input: array<bv8>, key: array<bv8>, iv: array<bv8>)
      requires output.Length == input.Length && input.Length % 16 == 0 && input.Length >= 16
      requires key.Length == 16 && iv.Length == 16 && roundKey.Length == 176
      requires output != input && output != key && output != iv && input != key && input != iv
      requires roundKey != output && roundKey != input && roundKey != key && roundKey != iv
      modifies roundKey, output, input
      ensures output[..] == CbcEncrypt(key[..], iv[..], old(input[..]))
    {
      hide *;
      ghost var k, iv0: Block, data := key[..], iv[..], input[..];
      BlockCopy(output, input, 0);
      KeyExpansion(key);
      NoneEncrypted(output[..], data, k, iv0);
      var i := 0;
      while i < input.Length
        invariant 0 <= i <= input.Length && Encrypted(output[..], input[..], data, i, k, iv0)
        invariant Expanded(k) && iv[..] == iv0
      {
        ghost var o, d := output[..], input[..];
        OneToEncrypt(o, d, data, i, k, iv0);
        EncryptNext(output, input, i, iv, k);
        NextEncrypted(o, d, output[..], input[..], data, i, k, iv0);
        i := i + 16;
      }
      AllEncrypted(output[..], input[..], data, k, iv0);
    }

    /** AES128_CBC_decrypt_buffer, one block. */
    method DecryptBlock(output: array<bv8>, input: array<bv8>, i: nat, iv: array<bv8>, v: nat, ghost k: Block)
      requires Expanded(k)
      requires output != input && output != roundKey && input != roundKey && iv != output
      requires i + 16 <= output.Length && i + 16 <= input.Length && v + 16 <= iv.Length
      modifies output
      ensures output[..] == Splice(old(output[..]), i, Xor(InvCipher(k, input[i..i + 16]), iv[v..v + 16]))
    {
      assert Expanded(k);
      hide Splice, Xor, InvCipher, RoundKey;
      ghost var c: Block, o := input[i..i + 16], output[..];
      BlockCopy(output, input, i);
      Decipher(output, i, k);
      SpliceAgain(o, i, c, InvCipher(k, c));
      MemXor(output, i, iv, v);
      SpliceAgain(o, i, InvCipher(k, c), Xor(InvCipher(k, c), iv[v..v + 16]));
    }

    /** The first block goes with the IV, the others with the input before them. */
    method DecryptNext(output: array<bv8>, input: array<bv8>, i: nat, iv: array<bv8>, ghost k: Block)
      requires Expanded(k)
      requires output != input && output != roundKey && input != roundKey && iv != output
      requires i + 16 <= output.Length && i + 16 <= input.Length && iv.Length == 16 && (i == 0 || i >= 16)
      modifies output
      ensures output[..] == Splice(old(output[..]), i, Xor(InvCipher(k, input[i..i + 16]), BlockBefore(input[..], i, iv[..])))
    {
      hide *;
      BeforeIs(input[..], i, iv[..]);
      if i == 0 {
        assert iv[0..16] == iv[..];
        DecryptBlock(output, input, i, iv, 0, k);
      } else {
        DecryptBlock(output, input, i, input, i - 16, k);
      }
    }

    /** AES128_CBC_decrypt_buffer for whole blocks. */
    method DecryptBuffer(output: array<bv8>, input: array<bv8>, key: array<bv8>, iv: array<bv8>)
      requires output.Length == input.Length && input.Length % 16 == 0 && input.Length >= 16
      requires key.Length == 16 && iv.Length == 16 && roundKey.Length == 176
      requires output != input && output != key && output != iv && input != key && input != iv
      requires roundKey != output && roundKey != input && roundKey != key && roundKey != iv
      modifies roundKey, output
      ensures output[..] == CbcDecrypt(key[..], iv[..], input[..])
    {
      hide *;
      ghost var k, iv0: Block, data := key[..], iv[..], input[..];
      BlockCopy(output, input, 0);
      KeyExpansion(key);
      NoneDecrypted(output[..], data, k, iv0);
      var i := 0;
      while i < input.Length
        invariant 0 <= i <= input.Length && Decrypted(output[..], data, i, k, iv0)
        invariant Expanded(k) && iv[..] == iv0
      {
        ghost var o := output[..];
        OneToDecrypt(o, data, i, k, iv0);
        DecryptNext(output, input, i, iv, k);
        NextDecrypted(o, output[..], data, i, k, iv0);
        i := i + 16;
      }
      AllDecrypted(output[..], data, k, iv0);
    }

    /** The expanded key holds the eleven round keys of `k`. */
    ghost predicate Expanded(k: Block)
      reads roundKey
    {
      roundKey.Length == 176 &&
      forall r: nat | r <= 10 :: roundKey[16 * r..16 * r + 16] == RoundKey(k, r)
    }
  }

  ghost predicate SubbedRows(before: seq<bv8>, after: seq<bv8>, off: nat, i: nat, j: nat, inv: bool)
    requires |before| == |after|
  {
    forall p: nat | p < |after| ::
      after[p] == if !(off <= p < off + 16) || (p - off) % 4 > i || ((p - off) % 4 == i && (p - off) / 4 >= j)
                  then before[p] else if inv then RsboxValue(before[p]) else SboxValue(before[p])
  }

  lemma NoRowSubbed(s: seq<bv8>, off: nat, inv: bool)
    ensures SubbedRows(s, s, off, 0, 0, inv)
  {
    hide SboxValue, RsboxValue;
  }

  lemma OneMoreSubbed(before: seq<bv8>, after: seq<bv8>, off: nat, i: nat, j: nat, inv: bool)
    requires |before| == |after| && off + 16 <= |after| && i < 4 && j < 4 && SubbedRows(before, after, off, i, j, inv)
    ensures
      var p := off + 4 * j + i;
      SubbedRows(before, after[p := if inv then RsboxValue(after[p]) else SboxValue(after[p])], off, i, j + 1, inv)
  {
    hide SboxValue, RsboxValue;
  }

  lemma RowSubbed(before: seq<bv8>, after: seq<bv8>, off: nat, i: nat, inv: bool)
    requires |before| == |after| && i < 4 && SubbedRows(before, after, off, i, 4, inv)
    ensures SubbedRows(before, after, off, i + 1, 0, inv)
  {
    hide SboxValue, RsboxValue;
  }

  lemma AllRowsSubbed(before: seq<bv8>, after: seq<bv8>, off: nat, inv: bool)
    requires |before| == |after| && off + 16 <= |after| && SubbedRows(before, after, off, 4, 0, inv)
    ensures after == Splice(before, off, if inv then InvSubBytes(before[off..off + 16]) else SubBytes(before[off..off + 16]))
  {
    hide SboxValue, RsboxValue, Splice;
    var b: Block := before[off..off + 16];
    var t: Block := if inv then InvSubBytes(b) else SubBytes(b);
    forall p: nat | p < |after|
      ensures after[p] == Splice(before, off, t)[p]
    {
      SpliceAt(before, off, t, p);
      if off <= p < off + 16 {
        assert b[p - off] == before[p];
        assert t[p - off] == if inv then RsboxValue(b[p - off]) else SboxValue(b[p - off]);
      }
    }
  }

  /** BlockCopy, between the same places of two buffers. */
  method BlockCopy(output: array<bv8>, input: array<bv8>, off: nat)
    requires off + 16 <= output.Length && off + 16 <= input.Length && output != input
    modifies output
    ensures output[..] == Splice(old(output[..]), off, input[off..off + 16])
  {
    for j := 0 to 16
      invariant forall m: nat | m < output.Length ::
        output[m] == if off <= m < off + j then input[m] else old(output[m])
    {
      output[off + j] := input[off + j];
    }
    SpliceByBytes(old(output[..]), output[..], off, input[off..off + 16]);
  }

  lemma SpliceTail(s: seq<bv8>, off: nat, t: Block)
    requires off + 16 <= |s|
    ensures Splice(s, off, t)[off + 16..] == s[off + 16..]
  {
  }

  /** What block i is chained to. */
  ghost function BlockBefore(o: seq<bv8>, i: nat, iv: Block): Block
    requires i <= |o| && (i == 0 || i >= 16)
  {
    if i == 0 then iv else o[i - 16..i]
  }

  lemma BeforeIs(o: seq<bv8>, i: nat, iv: Block)
    requires i <= |o| && (i == 0 || i >= 16)
    ensures i == 0 ==> BlockBefore(o, i, iv) == iv
    ensures i > 0 ==> BlockBefore(o, i, iv) == o[i - 16..i]
  {
  }

  /** The first i bytes of the data are enciphered to `o`, and the others are still in `d`. */
  ghost predicate Encrypted(o: seq<bv8>, d: seq<bv8>, data: seq<bv8>, i: nat, k: Block, iv: Block) {
    && |o| == |d| == |data| && i <= |data| && i % 16 == 0 && |data| % 16 == 0 && d[i..] == data[i..]
    && CbcEncrypt(k, iv, data) == o[..i] + CbcEncrypt(k, BlockBefore(o, i, iv), data[i..])
  }

  lemma NoneEncrypted(o: seq<bv8>, data: seq<bv8>, k: Block, iv: Block)
    requires |o| == |data| && |data| % 16 == 0
    ensures Encrypted(o, data, data, 0, k, iv)
  {
    hide CbcEncrypt;
    assert data[0..] == data && o[..0] == [];
  }

  lemma OneToEncrypt(o: seq<bv8>, d: seq<bv8>, data: seq<bv8>, i: nat, k: Block, iv: Block)
    requires Encrypted(o, d, data, i, k, iv) && i < |data|
    ensures i + 16 <= |data| && (i == 0 || i >= 16)
  {
    hide CbcEncrypt;
  }

  lemma NextEncrypted(o: seq<bv8>, d: seq<bv8>, o': seq<bv8>, d': seq<bv8>, data: seq<bv8>, i: nat, k: Block, iv: Block)
    requires Encrypted(o, d, data, i, k, iv) && i + 16 <= |data| && (i == 0 || i >= 16) && |d'| == |d|
    requires o' == Splice(o, i, Cipher(k, Xor(d[i..i + 16], BlockBefore(o, i, iv)))) && d'[i + 16..] == d[i + 16..]
    ensures Encrypted(o', d', data, i + 16, k, iv)
  {
    hide CbcEncrypt, Cipher, Xor, Splice;
    var rest, prev := data[i..], BlockBefore(o, i, iv);
    var c: Block := Cipher(k, Xor(d[i..i + 16], prev));
    assert d[i..][..16] == d[i..i + 16] && d[i..][16..] == d[i + 16..];
    assert rest[16..] == data[i + 16..];
    EncryptContinues(k, prev, o[..i], rest, c);
    SpliceHead(o, i, c);
    LastBlock(o[..i], c, o', i);
  }

  lemma LastBlock(done: seq<bv8>, c: Block, o: seq<bv8>, i: nat)
    requires |done| == i && i + 16 <= |o| && o[..i + 16] == done + c
    ensures o[i..i + 16] == c
  {
    assert o[..i + 16][i..] == o[i..i + 16] && (done + c)[i..] == c;
  }

  lemma AllEncrypted(o: seq<bv8>, d: seq<bv8>, data: seq<bv8>, k: Block, iv: Block)
    requires Encrypted(o, d, data, |data|, k, iv)
    ensures o == CbcEncrypt(k, iv, data)
  {
    CbcEncryptEnd(k, BlockBefore(o, |data|, iv), data[|data|..]);
    assert o[..|data|] == o;
  }

  /** The first i bytes of the data are deciphered to `o`. */
  ghost predicate Decrypted(o: seq<bv8>, data: seq<bv8>, i: nat, k: Block, iv: Block) {
    && |o| == |data| && i <= |data| && i % 16 == 0 && |data| % 16 == 0
    && CbcDecrypt(k, iv, data) == o[..i] + CbcDecrypt(k, BlockBefore(data, i, iv), data[i..])
  }

  lemma NoneDecrypted(o: seq<bv8>, data: seq<bv8>, k: Block, iv: Block)
    requires |o| == |data| && |data| % 16 == 0
    ensures Decrypted(o, data, 0, k, iv)
  {
    hide CbcDecrypt;
    assert data[0..] == data && o[..0] == [];
  }

  lemma OneToDecrypt(o: seq<bv8>, data: seq<bv8>, i: nat, k: Block, iv: Block)
    requires Decrypted(o, data, i, k, iv) && i < |data|
    ensures i + 16 <= |data| && (i == 0 || i >= 16)
  {
    hide CbcDecrypt;
  }

  lemma NextDecrypted(o: seq<bv8>, o': seq<bv8>, data: seq<bv8>, i: nat, k: Block, iv: Block)
    requires Decrypted(o, data, i, k, iv) && i + 16 <= |data| && (i == 0 || i >= 16)
    requires o' == Splice(o, i, Xor(InvCipher(k, data[i..i + 16]), BlockBefore(data, i, iv)))
    ensures Decrypted(o', data, i + 16, k, iv)
  {
    hide CbcDecrypt, InvCipher, Xor, Splice;
    var rest, prev := data[i..], BlockBefore(data, i, iv);
    var p: Block := Xor(InvCipher(k, data[i..i + 16]), prev);
    assert rest[..16] == data[i..i + 16] && rest[16..] == data[i + 16..];
    DecryptContinues(k, prev, o[..i], rest, p);
    SpliceHead(o, i, p);
  }

  lemma AllDecrypted(o: seq<bv8>, data: seq<bv8>, k: Block, iv: Block)
    requires Decrypted(o, data, |data|, k, iv)
    ensures o == CbcDecrypt(k, iv, data)
  {
    CbcDecryptEnd(k, BlockBefore(data, |data|, iv), data[|data|..]);
    assert o[..|data|] == o;
  }

  lemma SpliceHead(s: seq<bv8>, off: nat, t: Block)
    requires off + 16 <= |s|
    ensures Splice(s, off, t)[..off + 16] == s[..off] + t
  {
  }

  lemma DecryptContinues(k: Block, iv: Block, done: seq<bv8>, rest: seq<bv8>, p: Block)
    requires |rest| >= 16
    requires p == Xor(InvCipher(k, rest[..16]), iv)
    ensures done + CbcDecrypt(k, iv, rest) == done + p + CbcDecrypt(k, rest[..16], rest[16..])
  {
    hide *;
    CbcDecryptStep(k, iv, rest);
  }

  lemma CbcDecryptEnd(k: Block, iv: Block, data: seq<bv8>)
    requires data == []
    ensures CbcDecrypt(k, iv, data) == []
  {
  }

  // ----- mixing columns -----

  lemma AddRegrouped(a: bv8, b: bv8, c: bv8, d: bv8, m: bv8)
    ensures Add(Add(Add(a, b), c), d) == Sum4(a, b, c, d)
    ensures Add(a, Add(m, b)) == Add(Add(b, a), m)
  {
  }

  lemma TmpMixedColumn(s: Block, i: nat, a0: bv8, a1: bv8, a2: bv8, a3: bv8)
    requires i < 16 && i % 4 == 0
    requires a0 == s[i] && a1 == s[i + 1] && a2 == s[i + 2] && a3 == s[i + 3]
    ensures
      var tmp := Add(Add(Add(a0, a1), a2), a3);
      && Mixed(s, i, false) == Add(a0, Add(Xtime(Add(a0, a1)), tmp))
      && Mixed(s, i + 1, false) == Add(a1, Add(Xtime(Add(a1, a2)), tmp))
      && Mixed(s, i + 2, false) == Add(a2, Add(Xtime(Add(a2, a3)), tmp))
      && Mixed(s, i + 3, false) == Add(a3, Add(Xtime(Add(a3, a0)), tmp))
  {
    hide *;
    var sum := Sum4(a0, a1, a2, a3);
    MixedColumn(s, i, false, a0, a1, a2, a3, sum, sum);
    AddRegrouped(a0, a1, a2, a3, 0);
    DoublingForms(Add(a0, a1));
    DoublingForms(Add(a1, a2));
    DoublingForms(Add(a2, a3));
    DoublingForms(Add(a3, a0));
    AddRegrouped(a0, sum, 0, 0, Mul2(Add(a0, a1)));
    AddRegrouped(a1, sum, 0, 0, Mul2(Add(a1, a2)));
    AddRegrouped(a2, sum, 0, 0, Mul2(Add(a2, a3)));
    AddRegrouped(a3, sum, 0, 0, Mul2(Add(a3, a0)));
  }

  /** Multiplication in GF(2^8) by a constant of at most five bits. */
  function Multiply(x: bv8, y: bv8): bv8 {
    ((y & 1) * x) ^
    (((y >> 1) & 1) * Xtime(x)) ^
    (((y >> 2) & 1) * Xtime(Xtime(x))) ^
    (((y >> 3) & 1) * Xtime(Xtime(Xtime(x)))) ^
    (((y >> 4) & 1) * Xtime(Xtime(Xtime(Xtime(x)))))
  }

  function Product(a: bv8, x: bv8, b: bv8, y: bv8, c: bv8, z: bv8, d: bv8, w: bv8): bv8 {
    Add(Add(Add(Multiply(a, x), Multiply(b, y)), Multiply(c, z)), Multiply(d, w))
  }

  lemma MultiplyConstants(x: bv8)
    ensures
      var x2 := Mul2(x); var x4 := Mul2(x2); var x8 := Mul2(x4);
      && Multiply(x, 0x09) == Add(x, x8)
      && Multiply(x, 0x0b) == Add(Add(x, x2), x8)
      && Multiply(x, 0x0d) == Add(Add(x, x4), x8)
      && Multiply(x, 0x0e) == Add(Add(x2, x4), x8)
  {
    DoublingForms(x);
    DoublingForms(Mul2(x));
    DoublingForms(Mul2(Mul2(x)));
    hide Xtime, Mul2;
  }

  lemma LowTerms(a: bv8, b: bv8, c: bv8, d: bv8, a2: bv8, b2: bv8, a4: bv8, c4: bv8, high: bv8)
    ensures
      Add(Add(Add(Add(high, Add(a4, c4)), Sum4(a, b, c, d)), a), Add(a2, b2)) ==
      Add(Sum4(Add(a2, a4), Add(b, b2), Add(c, c4), d), high)
  {
    hide Add;
    var u, v, w := Add(a4, c4), Add(a2, b2), Add(b, Add(c, d));
    var x, y := Add(a4, b), Add(Add(c, c4), d);
    AddAssociates(Add(high, u), Sum4(a, b, c, d), a);
    AddAssociates(a, b, Add(c, d));
    AddCommutes(a, w);
    AddTwice(a, w);
    AddAssociates(high, u, w);
    AddAssociates(high, Add(u, w), v);
    AddCommutes(high, Add(Add(u, w), v));
    AddMedial(a4, c4, b, Add(c, d));
    AddAssociates(c4, c, d);
    AddCommutes(c4, c);
    AddAssociates(x, y, v);
    AddCommutes(y, v);
    AddAssociates(x, v, y);
    AddMedial(a4, b, a2, b2);
    AddCommutes(a4, a2);
  }

  lemma ProductTerms(a: bv8, b: bv8, c: bv8, d: bv8, a2: bv8, b2: bv8, a4: bv8, c4: bv8,
                     a8: bv8, b8: bv8, c8: bv8, d8: bv8)
    ensures
      Add(Add(Add(Add(Sum4(a8, b8, c8, d8), Add(a4, c4)), Sum4(a, b, c, d)), a), Add(a2, b2)) ==
      Add(Add(Add(Add(Add(a2, a4), a8), Add(Add(b, b2), b8)), Add(Add(c, c4), c8)), Add(d, d8))
  {
    hide Add;
    var p, q, r := Add(a2, a4), Add(b, b2), Add(c, c4);
    LowTerms(a, b, c, d, a2, b2, a4, c4, Sum4(a8, b8, c8, d8));
    AddRegrouped(Add(p, a8), Add(q, b8), Add(r, c8), Add(d, d8), 0);
    AddMedial(p, a8, q, b8);
    AddMedial(r, c8, d, d8);
    AddMedial(Add(p, q), Add(a8, b8), Add(r, d), Add(c8, d8));
  }

  lemma Mul2Sum4(a: bv8, b: bv8, c: bv8, d: bv8)
    ensures Mul2(Sum4(a, b, c, d)) == Sum4(Mul2(a), Mul2(b), Mul2(c), Mul2(d))
  {
    hide Add, Mul2;
    Mul2Add(a, b);
    Mul2Add(c, d);
    Mul2Add(Add(a, b), Add(c, d));
  }

  /** The shared doublings of the device are the products of the desktop library. */
  lemma InvMixIsProduct(a: bv8, b: bv8, c: bv8, d: bv8)
    ensures InvMixByte(a, b, c, d) == Product(a, 0x0e, b, 0x0b, c, 0x0d, d, 0x09)
  {
    hide Add, Sum4, Mul2, Multiply;
    var a2, b2, c2, d2 := Mul2(a), Mul2(b), Mul2(c), Mul2(d);
    var a4, b4, c4, d4 := Mul2(a2), Mul2(b2), Mul2(c2), Mul2(d2);
    Mul2Sum4(a, b, c, d);
    Mul2Sum4(a2, b2, c2, d2);
    Mul2Sum4(a4, b4, c4, d4);
    Mul2Add(Sum4(a2, b2, c2, d2), Add(a, c));
    Mul2Add(a, c);
    Mul2Add(Sum4(a4, b4, c4, d4), Add(a2, c2));
    Mul2Add(a2, c2);
    Mul2Add(a, b);
    ProductTerms(a, b, c, d, a2, b2, a4, c4, Mul2(a4), Mul2(b4), Mul2(c4), Mul2(d4));
    MultiplyConstants(a);
    MultiplyConstants(b);
    MultiplyConstants(c);
    MultiplyConstants(d);
  }

  lemma ProductRotates(p: bv8, q: bv8, r: bv8, t: bv8)
    ensures Add(Add(Add(p, q), r), t) == Add(Add(Add(q, r), t), p)
  {
  }

  lemma ProductRotated(a: bv8, x: bv8, b: bv8, y: bv8, c: bv8, z: bv8, d: bv8, w: bv8)
    ensures Product(a, x, b, y, c, z, d, w) == Product(b, y, c, z, d, w, a, x)
  {
    hide Add, Multiply;
    ProductRotates(Multiply(a, x), Multiply(b, y), Multiply(c, z), Multiply(d, w));
  }

  lemma MultipliedColumn(s: Block, i: nat, a: bv8, b: bv8, c: bv8, d: bv8)
    requires i < 16 && i % 4 == 0
    requires a == s[i] && b == s[i + 1] && c == s[i + 2] && d == s[i + 3]
    ensures Mixed(s, i, true) == Product(a, 0x0e, b, 0x0b, c, 0x0d, d, 0x09)
    ensures Mixed(s, i + 1, true) == Product(a, 0x09, b, 0x0e, c, 0x0b, d, 0x0d)
    ensures Mixed(s, i + 2, true) == Product(a, 0x0d, b, 0x09, c, 0x0e, d, 0x0b)
    ensures Mixed(s, i + 3, true) == Product(a, 0x0b, b, 0x0d, c, 0x09, d, 0x0e)
  {
    hide *;
    MixedAt(s, i, 0, true);
    MixedAt(s, i, 1, true);
    MixedAt(s, i, 2, true);
    MixedAt(s, i, 3, true);
    InvMixIsProduct(a, b, c, d);
    InvMixIsProduct(b, c, d, a);
    InvMixIsProduct(c, d, a, b);
    InvMixIsProduct(d, a, b, c);
    ProductRotated(a, 0x09, b, 0x0e, c, 0x0b, d, 0x0d);
    ProductRotated(a, 0x0d, b, 0x09, c, 0x0e, d, 0x0b);
    ProductRotated(b, 0x09, c, 0x0e, d, 0x0b, a, 0x0d);
    ProductRotated(d, 0x0e, a, 0x0b, b, 0x0d, c, 0x09);
  }

  lemma FirstRoundKey(k: Block)
    ensures forall n: nat | n < 16 :: ExpandedByte(k, n) == k[n]
  {
  }

  lemma ExpandedByBytes(k: Block, e: seq<bv8>)
    requires |e| == 176
    requires forall n: nat | n < 176 :: e[n] == ExpandedByte(k, n)
    ensures forall r: nat | r <= 10 :: e[16 * r..16 * r + 16] == RoundKey(k, r)
  {
    hide RoundKey;
    forall r: nat | r <= 10
      ensures e[16 * r..16 * r + 16] == RoundKey(k, r)
    {
      forall i: nat | i < 16
        ensures e[16 * r..16 * r + 16][i] == RoundKey(k, r)[i]
      {
        assert (16 * r + i) / 16 == r && (16 * r + i) % 16 == i;
        assert e[16 * r + i] == ExpandedByte(k, 16 * r + i);
      }
    }
  }
}
