/** The device's AES (Code/src/Security/Aes.c): no expanded key is kept. Adding a
  round key turns the key buffer into the next round key, in place, and the
  buffer is wound back afterwards. Blocks are processed inside a larger buffer,
  so a block is an array and an offset. */
module AesDevice {
  import opened Bytes
  import opened SBox
  import opened Aes
  import opened Cbc

  /** How a loop that works through a block establishes its result. */
  lemma SpliceByBytes(before: seq<bv8>, after: seq<bv8>, off: nat, t: Block)
    requires |after| == |before| && off + 16 <= |before|
    requires forall j: nat | j < |before| ::
      after[j] == if off <= j < off + 16 then t[j - off] else before[j]
    ensures after == Splice(before, off, t)
  {
  }

  /** Winding the schedule back one step. */
  lemma RewindStep(k: Block, r: nat)
    ensures Div2(Rcon(r + 1)) == Rcon(r)
    ensures PrevKey(RoundKey(k, r + 1), Rcon(r)) == RoundKey(k, r)
  {
    hide NextKey, PrevKey, Mul2, Div2;
    DoublingForms(Rcon(r));
    PrevNextKey(RoundKey(k, r), Rcon(r));
  }

  /** Eleven doublings of 1 give the constant the inverse schedule starts from. */
  lemma Rcon11()
    ensures Rcon(11) == 0xd8
  {
    assert Rcon(4) == 0x10;
    assert Rcon(8) == 0x1b;
  }

  lemma NextKeyByteForm(k: Block, rc: bv8, i: nat, w: bv8)
    requires i < 16
    requires i >= 4 ==> w == NextKeyByte(k, rc, i - 4)
    requires i < 4 ==> w == if i == 0 then Add(SboxValue(k[13]), rc) else SboxValue(k[12 + (i + 1) % 4])
    ensures NextKeyByte(k, rc, i) == Add(w, k[i])
  {
    hide SboxValue, Add;
    AddCommutes(w, k[i]);
  }

  lemma PrevKeyByteForm(k: Block, rc: bv8, i: nat, w: bv8)
    requires i < 16
    requires i >= 4 ==> w == k[i - 4]
    requires i == 0 ==> w == Add(SboxValue(PrevKeyByte(k, rc, 13)), rc)
    requires 0 < i < 4 ==> w == SboxValue(PrevKeyByte(k, rc, 12 + (i + 1) % 4))
    ensures PrevKeyByte(k, rc, i) == Add(w, k[i])
  {
    hide SboxValue, Add;
    AddCommutes(w, k[i]);
  }

  lemma NextKeyByBytes(k: Block, rc: bv8, key: Block)
    requires forall j: nat | j < 16 :: key[j] == NextKeyByte(k, rc, j)
    ensures key == NextKey(k, rc)
  {
    hide NextKeyByte;
  }

  lemma PrevKeyByBytes(k: Block, rc: bv8, key: Block)
    requires forall j: nat | j < 16 :: key[j] == PrevKeyByte(k, rc, j)
    ensures key == PrevKey(k, rc)
  {
    hide PrevKeyByte;
  }

  lemma XorByBytes(before: seq<bv8>, after: seq<bv8>, off: nat, k: Block)
    requires |after| == |before| && off + 16 <= |before|
    requires forall j: nat | j < |before| ::
      after[j] == if off <= j < off + 16 then Add(before[j], k[j - off]) else before[j]
    ensures after == Splice(before, off, Xor(before[off..off + 16], k))
  {
    hide Add;
    SpliceByBytes(before, after, off, Xor(before[off..off + 16], k));
  }

  lemma AddCommutes4(a: bv8, b: bv8, c: bv8, d: bv8, s: seq<bv8>)
    requires |s| == 4
    ensures Add(a, s[0]) == Add(s[0], a) && Add(b, s[1]) == Add(s[1], b)
    ensures Add(c, s[2]) == Add(s[2], c) && Add(d, s[3]) == Add(s[3], d)
  {
    hide *;
    AddCommutes(a, s[0]);
    AddCommutes(b, s[1]);
    AddCommutes(c, s[2]);
    AddCommutes(d, s[3]);
  }

  /** Adds four bytes to those of a buffer, returning what the buffer held. */
  method AddWord(buf: array<bv8>, p: nat, a: bv8, b: bv8, c: bv8, d: bv8)
    returns (ta: bv8, tb: bv8, tc: bv8, td: bv8)
    requires p + 4 <= buf.Length
    modifies buf
    ensures ta == old(buf[p]) && tb == old(buf[p + 1]) && tc == old(buf[p + 2]) && td == old(buf[p + 3])
    ensures buf[p] == Add(a, ta) && buf[p + 1] == Add(b, tb)
    ensures buf[p + 2] == Add(c, tc) && buf[p + 3] == Add(d, td)
    ensures forall j: nat | j < buf.Length && !(p <= j < p + 4) :: buf[j] == old(buf[j])
  {
    hide *;
    ta, tb, tc, td := buf[p], buf[p + 1], buf[p + 2], buf[p + 3];
    buf[p], buf[p + 1] := Add(a, ta), Add(b, tb);
    buf[p + 2], buf[p + 3] := Add(c, tc), Add(d, td);
  }

  method PutWord(buf: array<bv8>, p: nat, a: bv8, b: bv8, c: bv8, d: bv8)
    requires p + 4 <= buf.Length
    modifies buf
    ensures buf[p] == a && buf[p + 1] == b && buf[p + 2] == c && buf[p + 3] == d
    ensures forall j: nat | j < buf.Length && !(p <= j < p + 4) :: buf[j] == old(buf[j])
  {
    buf[p], buf[p + 1], buf[p + 2], buf[p + 3] := a, b, c, d;
  }

  class Cipher128 {
    var rcon: bv8

    constructor ()
    {
      rcon := 0;
    }

    /** aesAddRoundKey, the key half of one turn of its loop: returns the old word. */
    method AdvanceWord(key: array<bv8>, i: nat, ghost k0: Block, ghost rc: bv8)
      returns (a: bv8, b: bv8, c: bv8, d: bv8)
      requires key.Length == 16 && i < 16 && i % 4 == 0
      requires forall j: nat | j < 16 :: key[j] == if j < i then NextKeyByte(k0, rc, j) else k0[j]
      requires rcon == if i == 0 then rc else Mul2(rc)
      modifies `rcon, key
      ensures forall j: nat | j < 16 :: key[j] == if j < i + 4 then NextKeyByte(k0, rc, j) else k0[j]
      ensures rcon == Mul2(rc)
      ensures a == k0[i] && b == k0[i + 1] && c == k0[i + 2] && d == k0[i + 3]
    {
      hide *;
      var p := (i + 12) % 16;
      a, b, c, d := key[p], key[p + 1], key[p + 2], key[p + 3];
      if i == 0 {
        var t := b;
        b := CalcSbox(c, false);
        c := CalcSbox(d, false);
        d := CalcSbox(a, false);
        a := CalcSbox(t, false);
        a := Add(a, rcon);
        rcon := Mul2(rcon);
      }
      NextKeyByteForm(k0, rc, i, a);
      NextKeyByteForm(k0, rc, i + 1, b);
      NextKeyByteForm(k0, rc, i + 2, c);
      NextKeyByteForm(k0, rc, i + 3, d);
      a, b, c, d := AddWord(key, i, a, b, c, d);
    }

    /** aesInvAddRoundKey, the key half of one turn of its loop: returns the new word. */
    method RewindWord(key: array<bv8>, i: nat, ghost k0: Block, ghost rc: bv8)
      returns (a: bv8, b: bv8, c: bv8, d: bv8)
      requires key.Length == 16 && i < 16 && i % 4 == 0
      requires forall j: nat | j < 16 :: key[j] == if j >= i + 4 then PrevKeyByte(k0, Div2(rc), j) else k0[j]
      requires rcon == rc
      modifies `rcon, key
      ensures forall j: nat | j < 16 :: key[j] == if j >= i then PrevKeyByte(k0, Div2(rc), j) else k0[j]
      ensures rcon == if i == 0 then Div2(rc) else rc
      ensures a == key[i] && b == key[i + 1] && c == key[i + 2] && d == key[i + 3]
    {
      hide *;
      var p := (i + 12) % 16;
      a, b, c, d := key[p], key[p + 1], key[p + 2], key[p + 3];
      if i == 0 {
        rcon := Div2(rcon);
        var t := a;
        a := CalcSbox(b, false);
        a := Add(a, rcon);
        b := CalcSbox(c, false);
        c := CalcSbox(d, false);
        d := CalcSbox(t, false);
      }
      PrevKeyByteForm(k0, Div2(rc), i, a);
      PrevKeyByteForm(k0, Div2(rc), i + 1, b);
      PrevKeyByteForm(k0, Div2(rc), i + 2, c);
      PrevKeyByteForm(k0, Div2(rc), i + 3, d);
      var _, _, _, _ := AddWord(key, i, a, b, c, d);
      a, b, c, d := key[i], key[i + 1], key[i + 2], key[i + 3];
    }

    /** aesAddRoundKey: adds the key to the block, unless there is none, and advances the key. */
    method AddRoundKey(state: array?<bv8>, off: nat, key: array<bv8>)
      requires key.Length == 16
      requires state != null ==> state != key && off + 16 <= state.Length
      modifies `rcon, key, state
      ensures rcon == Mul2(old(rcon))
      ensures key[..] == NextKey(old(key[..]), old(rcon))
      ensures state != null ==>
        state[..] == Splice(old(state[..]), off, Xor(old(state[off..off + 16]), old(key[..])))
    {
      hide *;
      ghost var k0, rc := key[..], rcon;
      var i := 0;
      while i < 16
        invariant 0 <= i <= 16 && i % 4 == 0
        invariant rcon == if i == 0 then rc else Mul2(rc)
        invariant forall j: nat | j < 16 :: key[j] == if j < i then NextKeyByte(k0, rc, j) else k0[j]
        invariant state != null ==> forall j: nat | j < state.Length ::
          state[j] == if off <= j < off + i then Add(old(state[j]), k0[j - off]) else old(state[j])
      {
        var a, b, c, d := AdvanceWord(key, i, k0, rc);
        if state != null {
          AddCommutes4(a, b, c, d, state[off + i..off + i + 4]);
          var _, _, _, _ := AddWord(state, off + i, a, b, c, d);
        }
        i := i + 4;
      }
      NextKeyByBytes(k0, rc, key[..]);
      if state != null { XorByBytes(old(state[..]), state[..], off, k0); }
    }

    /** aesInvAddRoundKey, the block half of one turn of its loop; the words from i + 4 on are done. */
    method AddKeyWord(state: array<bv8>, off: nat, i: nat, key: array<bv8>, a: bv8, b: bv8, c: bv8, d: bv8,
                      ghost s0: seq<bv8>)
      requires key.Length == 16 && state != key && off + 16 <= state.Length == |s0| && i <= 12
      requires a == key[i] && b == key[i + 1] && c == key[i + 2] && d == key[i + 3]
      requires forall j: nat | j < state.Length ::
        state[j] == if off + i + 4 <= j < off + 16 then Add(s0[j], key[j - off]) else s0[j]
      modifies state
      ensures forall j: nat | j < state.Length ::
        state[j] == if off + i <= j < off + 16 then Add(s0[j], key[j - off]) else s0[j]
    {
      hide *;
      AddCommutes4(a, b, c, d, state[off + i..off + i + 4]);
      var _, _, _, _ := AddWord(state, off + i, a, b, c, d);
    }

    /** aesInvAddRoundKey: winds the key back and adds it to the block, unless there is none. */
    method InvAddRoundKey(state: array?<bv8>, off: nat, key: array<bv8>)
      requires key.Length == 16
      requires state != null ==> state != key && off + 16 <= state.Length
      modifies `rcon, key, state
      ensures rcon == Div2(old(rcon))
      ensures key[..] == PrevKey(old(key[..]), Div2(old(rcon)))
      ensures state != null ==>
        state[..] == Splice(old(state[..]), off, Xor(old(state[off..off + 16]), key[..]))
    {
      hide *;
      ghost var k0, rc := key[..], rcon;
      var i := 16;
      while i > 0
        invariant 0 <= i <= 16 && i % 4 == 0
        invariant rcon == if i == 0 then Div2(rc) else rc
        invariant forall j: nat | j < 16 :: key[j] == if j >= i then PrevKeyByte(k0, Div2(rc), j) else k0[j]
        invariant state != null ==> forall j: nat | j < state.Length ::
          state[j] == if off + i <= j < off + 16 then Add(old(state[j]), key[j - off]) else old(state[j])
      {
        i := i - 4;
        var a, b, c, d := RewindWord(key, i, k0, rc);
        if state != null {
          AddKeyWord(state, off, i, key, a, b, c, d, old(state[..]));
        }
      }
      PrevKeyByBytes(k0, Div2(rc), key[..]);
      if state != null { XorByBytes(old(state[..]), state[..], off, key[..]); }
    }

    /** aesSubBytes and aesInvSubBytes. */
    method SubState(state: array<bv8>, off: nat, inv: bool)
      requires off + 16 <= state.Length
      modifies state
      ensures state[..] == Splice(old(state[..]), off,
        if inv then InvSubBytes(old(state[off..off + 16])) else SubBytes(old(state[off..off + 16])))
    {
      hide SboxValue, RsboxValue;
      for i := 0 to 16
        invariant forall j: nat | j < state.Length ::
          state[j] == if !(off <= j < off + i) then old(state[j])
                      else if inv then RsboxValue(old(state[j])) else SboxValue(old(state[j]))
      {
        state[off + i] := CalcSbox(state[off + i], inv);
      }
      ghost var b: Block := old(state[off..off + 16]);
      ghost var t: Block := if inv then InvSubBytes(b) else SubBytes(b);
      forall i: nat | i < 16
        ensures state[off + i] == t[i]
      {
        assert b[i] == old(state[off + i]);
      }
      SpliceByBytes(old(state[..]), state[..], off, t);
    }

    /** The swap in the inner loop of aesShiftRows_B: entries m and m + 1 of row j. */
    method SwapInRow(state: array<bv8>, off: nat, j: nat, p: nat, ghost m: nat)
      requires off + 16 <= state.Length && j < 4 && m < 3 && p == off + j + 4 * m
      modifies state
      ensures
        var w := old([state[off + j], state[off + j + 4], state[off + j + 8], state[off + j + 12]]);
        [state[off + j], state[off + j + 4], state[off + j + 8], state[off + j + 12]] == w[m := w[m + 1]][m + 1 := w[m]]
      ensures forall q: nat | q < state.Length && !(off <= q < off + 16 && (q - off) % 4 == j) ::
        state[q] == old(state[q])
    {
      state[p], state[p + 4] := state[p + 4], state[p];
    }

    /** aesShiftRows_B, its innermost loop: rotates row j by one column. */
    method RotateRow(state: array<bv8>, off: nat, j: nat, inv: bool)
      requires off + 16 <= state.Length && j < 4
      modifies state
      ensures state[..] == Splice(old(state[..]), off, RowTurned(old(state[off..off + 16]), j, inv))
    {
      hide *;
      var p: int := off + j + if inv then 8 else 0;
      var k := j;
      ghost var n := 0;  // swaps done
      ghost var row := Row(state[off..off + 16], j);
      SwappedStart(row, inv);
      assert row == [state[off + j], state[off + j + 4], state[off + j + 8], state[off + j + 12]] by {
        RowIs(state[..], off, j);
      }
      while k < 12
        invariant k == j + 4 * n && n <= 3
        invariant p == off + if inv then j + 8 - 4 * n else j + 4 * n
        invariant forall q: nat | q < state.Length && !(off <= q < off + 16 && (q - off) % 4 == j) ::
          state[q] == old(state[q])
        invariant [state[off + j], state[off + j + 4], state[off + j + 8], state[off + j + 12]] == Swapped(row, n, inv)
      {
        SwapInRow(state, off, j, p, if inv then 2 - n else n);
        p := if inv then p - 4 else p + 4;
        SwappedStep(row, n, inv);
        k, n := k + 4, n + 1;
      }
      RowTurnedByRow(old(state[..]), state[..], off, j, inv);
    }

    /** aesShiftRows_B: rotates row j, one column at a time, j times. */
    method ShiftState(state: array<bv8>, off: nat, inv: bool)
      requires off + 16 <= state.Length
      modifies state
      ensures state[..] == Splice(old(state[..]), off,
        if inv then InvShiftRows(old(state[off..off + 16])) else ShiftRows(old(state[off..off + 16])))
    {
      ghost var s0, b := state[..], state[off..off + 16];
      assert state[..] == Splice(s0, off, b);
      for i := 1 to 4
        invariant state[..] == Splice(s0, off, RowsTurned(b, i, i, inv))
      {
        for j := i to 4
          invariant state[..] == Splice(s0, off, RowsTurned(b, i, j, inv))
        {
          RotateRow(state, off, j, inv);
          SpliceAgain(s0, off, RowsTurned(b, i, j, inv), RowsTurned(b, i, j + 1, inv));
        }
      }
      RowsTurnedShift(b, inv);
    }

    /** aesMixColumns_B. */
    method MixState(state: array<bv8>, off: nat, inv: bool)
      requires off + 16 <= state.Length
      modifies state
      ensures state[..] == Splice(old(state[..]), off,
        if inv then InvMixColumns(old(state[off..off + 16])) else MixColumns(old(state[off..off + 16])))
    {
      hide *;
      ghost var s: Block := state[off..off + 16];
      var i := 0;
      while i < 16
        invariant 0 <= i <= 16 && i % 4 == 0
        invariant forall j: nat | j < state.Length ::
          state[j] == if off <= j < off + i then Mixed(s, j - off, inv) else old(state[j])
      {
        var a0, a1, a2, a3 := state[off + i], state[off + i + 1], state[off + i + 2], state[off + i + 3];
        var sum := Sum4(a0, a1, a2, a3);
        var d, e := sum, sum;
        if inv {
          var c := Mul2(sum);
          d := Add(Mul2(Mul2(Add(c, Add(a0, a2)))), sum);
          e := Add(Mul2(Mul2(Add(c, Add(a1, a3)))), sum);
        }
        MixedColumn(s, i, inv, a0, a1, a2, a3, d, e);
        PutWord(state, off + i,
          Add(Add(d, a0), Mul2(Add(a0, a1))), Add(Add(e, a1), Mul2(Add(a1, a2))),
          Add(Add(d, a2), Mul2(Add(a2, a3))), Add(Add(e, a3), Mul2(Add(a3, a0))));
        i := i + 4;
      }
      MixedByBytes(old(state[..]), state[..], off, inv);
    }

    /** aesCipher: enciphers the block and leaves the key eleven steps ahead. */
    method Encipher(key: array<bv8>, state: array<bv8>, off: nat)
      requires key.Length == 16 && key != state && off + 16 <= state.Length
      modifies `rcon, key, state
      ensures state[..] == Splice(old(state[..]), off, Cipher(old(key[..]), old(state[off..off + 16])))
      ensures key[..] == RoundKey(old(key[..]), 11)
    {
      hide *;
      ghost var s0, k, b := state[..], key[..], state[off..off + 16];
      ghost var t: Block := b;
      rcon := 1;
      StartOfRounds(k, s0, off);
      CipherStep(k, b, 10);
      for r := 0 to 11
        invariant rcon == Rcon(r)
        invariant key[..] == RoundKey(k, r)
        invariant state[..] == Splice(s0, off, t)
        invariant t == if r == 0 then b else StateAfter(k, b, r - 1)
      {
        if r != 0 {
          SubState(state, off, false);
          SpliceAgain(s0, off, t, SubBytes(t));
          t := SubBytes(t);
          ShiftState(state, off, false);
          SpliceAgain(s0, off, t, ShiftRows(t));
          t := ShiftRows(t);
          if r != 10 {
            MixState(state, off, false);
            SpliceAgain(s0, off, t, MixColumns(t));
            t := MixColumns(t);
          }
        }
        AddRoundKey(state, off, key);
        SpliceAgain(s0, off, t, Xor(t, RoundKey(k, r)));
        t := Xor(t, RoundKey(k, r));
        CipherStep(k, b, r);
      }
    }

    /** aesInvCipher: deciphers the block with a key eleven steps ahead, which it winds back. */
    method Decipher(key: array<bv8>, state: array<bv8>, off: nat, ghost k: Block)
      requires key.Length == 16 && key != state && off + 16 <= state.Length
      requires key[..] == RoundKey(k, 11)
      modifies `rcon, key, state
      ensures state[..] == Splice(old(state[..]), off, InvCipher(k, old(state[off..off + 16])))
      ensures key[..] == k
    {
      hide *;
      ghost var s0, c := state[..], state[off..off + 16];
      ghost var t: Block := c;
      rcon := 0xd8;
      StartOfRounds(k, s0, off);
      InvCipherStep(k, c, 10);
      var r := 11;
      while r > 0
        invariant 0 <= r <= 11
        invariant rcon == Rcon(r)
        invariant key[..] == RoundKey(k, r)
        invariant state[..] == Splice(s0, off, t)
        invariant t == if r == 0 then InvCipher(k, c) else InvStateBefore(k, c, r - 1)
      {
        r := r - 1;
        RewindStep(k, r);
        InvCipherStep(k, c, r);
        InvAddRoundKey(state, off, key);
        SpliceAgain(s0, off, t, Xor(t, RoundKey(k, r)));
        t := Xor(t, RoundKey(k, r));
        if r != 0 {
          if r != 10 {
            MixState(state, off, true);
            SpliceAgain(s0, off, t, InvMixColumns(t));
            t := InvMixColumns(t);
          }
          ShiftState(state, off, true);
          SpliceAgain(s0, off, t, InvShiftRows(t));
          t := InvShiftRows(t);
          SubState(state, off, true);
          SpliceAgain(s0, off, t, InvSubBytes(t));
          t := InvSubBytes(t);
        }
      }
    }

    /** aesKeyRewind: takes a key eleven steps back. */
    method KeyRewind(key: array<bv8>, ghost k: Block)
      requires key.Length == 16
      requires key[..] == RoundKey(k, 11)
      modifies `rcon, key
      ensures key[..] == k
    {
      hide *;
      rcon := 0xd8;
      StartOfRounds(k, k, 0);
      for i := 0 to 11
        invariant rcon == Rcon(11 - i)
        invariant key[..] == RoundKey(k, 11 - i)
      {
        RewindStep(k, 10 - i);
        InvAddRoundKey(null, 0, key);
      }
    }

    /** aesKeyPatch: takes a key eleven steps ahead. */
    method KeyPatch(key: array<bv8>)
      requires key.Length == 16
      modifies `rcon, key
      ensures key[..] == RoundKey(old(key[..]), 11)
    {
      hide *;
      ghost var k := key[..];
      rcon := 1;
      StartOfRounds(k, k, 0);
      for r := 0 to 11
        invariant rcon == Rcon(r)
        invariant key[..] == RoundKey(k, r)
      {
        AddRoundKey(null, 0, key);
        RoundKeyStep(k, r);
      }
    }

    /** One block of AES128_CBC_encrypt_buffer. */
    method EncryptBlock(input: array<bv8>, i: nat, xo: array<bv8>, x: nat, key: array<bv8>)
      requires i + 16 <= input.Length && x + 16 <= xo.Length && key.Length == 16
      requires input != key && xo != key && (input == xo ==> x + 16 <= i)
      modifies `rcon, input, key
      ensures input[..] == Splice(old(input[..]), i,
        Cipher(old(key[..]), Xor(old(input[i..i + 16]), old(xo[x..x + 16]))))
      ensures key[..] == old(key[..])
    {
      hide *;
      ghost var k: Block, s, p: Block := key[..], input[..], Xor(input[i..i + 16], xo[x..x + 16]);
      MemXor(input, i, xo, x);
      Encipher(key, input, i);
      SpliceAgain(s, i, p, Cipher(k, p));
      KeyRewind(key, k);
    }

    /** One block of AES128_CBC_encrypt_buffer: the first is chained to the IV, the others to the block before. */
    method EncryptNext(input: array<bv8>, i: nat, iv: array<bv8>, key: array<bv8>, ghost prev: Block)
      requires i + 16 <= input.Length && key.Length == 16 && iv.Length == 16 && (i == 0 || i >= 16)
      requires input != key && input != iv && iv != key
      requires prev == if i == 0 then iv[..] else input[i - 16..i]
      modifies `rcon, input, key
      ensures input[..] == Splice(old(input[..]), i, Cipher(old(key[..]), Xor(old(input[i..i + 16]), prev)))
      ensures key[..] == old(key[..])
    {
      hide *;
      if i == 0 {
        assert iv[0..16] == iv[..];
        EncryptBlock(input, i, iv, 0, key);
      } else {
        EncryptBlock(input, i, input, i - 16, key);
      }
    }

    /** AES128_CBC_encrypt_buffer: chains through the ciphertext already in the buffer. */
    method EncryptBuffer(input: array<bv8>, sz: nat, key: array<bv8>, iv: array<bv8>)
      requires sz % 16 == 0 && sz <= 240 && sz <= input.Length
      requires key.Length == 16 && iv.Length == 16
      requires input != key && input != iv && iv != key
      modifies `rcon, input, key
      ensures input[..] == CbcEncrypt(old(key[..]), iv[..], old(input[..sz])) + old(input[sz..])
      ensures key[..] == old(key[..])
    {
      hide *;
      ghost var k, iv0: Block := key[..], iv[..];
      ghost var done, rest, tail: seq<bv8> := [], input[..sz], input[sz..];
      ghost var n := sz / 16;  // blocks to go
      ghost var prev: Block := iv0;
      var i := 0;
      while i < sz
        invariant 0 <= i <= sz && |done| == i && |rest| == sz - i == 16 * n
        invariant key[..] == k && iv[..] == iv0
        invariant input[..] == done + rest + tail
        invariant i == 0 ==> prev == iv0
        invariant i > 0 ==> prev == done[i - 16..]
        invariant CbcEncrypt(k, iv0, old(input[..sz])) == done + CbcEncrypt(k, prev, rest)
      {
        ghost var c: Block := Cipher(k, Xor(rest[..16], prev));
        EncryptContinues(k, prev, done, rest, c);
        assert input[i..i + 16] == rest[..16];
        assert i > 0 ==> input[i - 16..i] == done[i - 16..];
        EncryptNext(input, i, iv, key, prev);
        SpliceMiddle(done, rest, tail, c);
        done, rest, prev, i := done + c, rest[16..], c, i + 16;
        n := n - 1;
      }
      CbcEncryptEnd(k, prev, rest);
    }

    /** One block of AES128_CBC_decrypt_buffer: saved, then deciphered and combined with `xo`. */
    method DecryptBlock(input: array<bv8>, i: nat, save: array<bv8>, xo: array<bv8>, key: array<bv8>)
      requires i + 16 <= input.Length && xo.Length == 16 && save.Length == 16 && key.Length == 16
      requires input != key && input != xo && input != save && key != xo && key != save && xo != save
      modifies `rcon, input, key, save
      ensures input[..] == Splice(old(input[..]), i,
        Xor(InvCipher(old(key[..]), old(input[i..i + 16])), old(xo[..])))
      ensures save[..] == old(input[i..i + 16])
      ensures key[..] == old(key[..])
    {
      hide *;
      CopyBlock(input, i, save);
      ghost var k, c: Block, s := key[..], input[i..i + 16], input[..];
      KeyPatch(key);
      Decipher(key, input, i, k);
      assert xo[0..16] == xo[..];
      MemXor(input, i, xo, 0);
      SpliceAgain(s, i, InvCipher(k, c), Xor(InvCipher(k, c), xo[..]));
    }

    /** AES128_CBC_decrypt_buffer: saves each ciphertext block, by turns in a
      temporary buffer and in the IV, and returns at the first block with a zero. */
    method DecryptBuffer(input: array<bv8>, sz: nat, key: array<bv8>, iv: array<bv8>)
      requires sz % 16 == 0 && sz <= 240 && sz <= input.Length
      requires key.Length == 16 && iv.Length == 16
      requires input != key && input != iv && iv != key
      modifies `rcon, input, key, iv
      ensures input[..] == CbcDecryptText(old(key[..]), old(iv[..]), old(input[..sz])) + old(input[sz..])
      ensures key[..] == old(key[..])
    {
      hide *;
      ghost var k, prev: Block := key[..], iv[..];
      ghost var done, rest, tail: seq<bv8> := [], input[..sz], input[sz..];
      ghost var n := sz / 16;  // blocks to go
      var tempCipher := new bv8[16](_ => 0);
      var i, pos, xorWith := 0, 0, iv;
      while i < sz
        invariant 0 <= i <= sz && |done| == i && |rest| == sz - i == 16 * n
        invariant 0 <= pos <= 1 && xorWith == if pos == 1 then tempCipher else iv
        invariant key[..] == k && xorWith[..] == prev
        invariant input[..] == done + rest + tail
        invariant CbcDecryptText(k, old(iv[..]), old(input[..sz])) == done + CbcDecryptText(k, prev, rest)
      {
        assert input[i..i + 16] == rest[..16];
        ghost var p: Block := Xor(InvCipher(k, rest[..16]), prev);
        SpliceMiddle(done, rest, tail, p);
        if pos == 0 {
          DecryptBlock(input, i, tempCipher, xorWith, key);
          pos := 1;
        } else {
          DecryptBlock(input, i, iv, xorWith, key);
          pos := 0;
        }
        assert input[i..i + 16] == p;
        var over := HasZero(input, i);
        TextContinues(k, prev, done, rest, p);
        if over { return; }
        xorWith := if pos == 1 then tempCipher else iv;
        done, rest, prev, i := done + p, rest[16..], rest[..16], i + 16;
        n := n - 1;
      }
      CbcDecryptTextEnd(k, prev, rest);
    }
  }

  method HasZero(input: array<bv8>, off: nat) returns (zero: bool)
    requires off + 16 <= input.Length
    ensures zero <==> 0 in input[off..off + 16]
  {
    for j := 0 to 16
      invariant 0 !in input[off..off + j]
    {
      assert input[off..off + j + 1] == input[off..off + j] + [input[off + j]];
      if input[off + j] == 0 {
        assert input[off..off + 16][j] == 0;
        return true;
      }
    }
    return false;
  }

  method CopyBlock(from: array<bv8>, off: nat, to: array<bv8>)
    requires off + 16 <= from.Length && to.Length == 16 && from != to
    modifies to
    ensures to[..] == from[off..off + 16]
  {
    for j := 0 to 16
      invariant forall m: nat | m < j :: to[m] == from[off + m]
    {
      to[j] := from[off + j];
    }
  }

  lemma TextContinues(k: Block, iv: Block, done: seq<bv8>, rest: seq<bv8>, p: Block)
    requires |rest| >= 16
    requires p == Xor(InvCipher(k, rest[..16]), iv)
    ensures 0 in p ==> done + CbcDecryptText(k, iv, rest) == done + p + rest[16..]
    ensures 0 !in p ==>
      done + CbcDecryptText(k, iv, rest) == done + p + CbcDecryptText(k, rest[..16], rest[16..])
  {
    hide *;
    CbcDecryptTextStep(k, iv, rest);
  }

  lemma CbcDecryptTextEnd(k: Block, iv: Block, data: seq<bv8>)
    requires data == []
    ensures CbcDecryptText(k, iv, data) == []
  {
  }

  lemma SpliceMiddle(done: seq<bv8>, rest: seq<bv8>, tail: seq<bv8>, c: Block)
    requires |rest| >= 16
    ensures Splice(done + rest + tail, |done|, c) == done + c + rest[16..] + tail
    ensures (done + rest + tail)[|done|..|done| + 16] == rest[..16]
  {
  }

  lemma EncryptContinues(k: Block, iv: Block, done: seq<bv8>, rest: seq<bv8>, c: Block)
    requires |rest| >= 16
    requires c == Cipher(k, Xor(rest[..16], iv))
    ensures done + CbcEncrypt(k, iv, rest) == done + c + CbcEncrypt(k, c, rest[16..])
  {
    hide *;
    CbcEncryptStep(k, iv, rest);
  }

  lemma CbcEncryptEnd(k: Block, iv: Block, data: seq<bv8>)
    requires data == []
    ensures CbcEncrypt(k, iv, data) == []
  {
  }

  /** mem_xor */
  method MemXor(out: array<bv8>, o: nat, xo: array<bv8>, x: nat)
    requires o + 16 <= out.Length && x + 16 <= xo.Length
    requires out == xo ==> x + 16 <= o
    modifies out
    ensures out[..] == Splice(old(out[..]), o, Xor(old(out[o..o + 16]), old(xo[x..x + 16])))
  {
    hide *;
    ghost var k: Block := xo[x..x + 16];
    for i := 0 to 16
      invariant forall j: nat | j < out.Length ::
        out[j] == if o <= j < o + i then Add(old(out[j]), k[j - o]) else old(out[j])
    {
      assert xo[x + i] == k[i];
      out[o + i] := Add(out[o + i], xo[x + i]);
    }
    XorByBytes(old(out[..]), out[..], o, k);
  }

  lemma StartOfRounds(k: Block, s: seq<bv8>, off: nat)
    requires off + 16 <= |s|
    ensures Rcon(0) == 1
    ensures Rcon(11) == 0xd8
    ensures RoundKey(k, 0) == k
    ensures Splice(s, off, s[off..off + 16]) == s
  {
    Rcon11();
  }

  lemma RoundKeyStep(k: Block, r: nat)
    ensures Rcon(r + 1) == Mul2(Rcon(r))
    ensures RoundKey(k, r + 1) == NextKey(RoundKey(k, r), Rcon(r))
  {
    hide NextKey, Mul2;
  }

  lemma CipherStep(k: Block, b: Block, r: nat)
    ensures Rcon(r + 1) == Mul2(Rcon(r))
    ensures RoundKey(k, r + 1) == NextKey(RoundKey(k, r), Rcon(r))
    ensures
      StateAfter(k, b, r) == Xor(if r == 0 then b else Round(StateAfter(k, b, r - 1), r), RoundKey(k, r))
    ensures r > 0 ==> var t := ShiftRows(SubBytes(StateAfter(k, b, r - 1)));
      Round(StateAfter(k, b, r - 1), r) == if r == 10 then t else MixColumns(t)
    ensures r == 10 ==> StateAfter(k, b, r) == Cipher(k, b)
  {
    hide NextKey, Mul2, Xor, SubBytes, ShiftRows, MixColumns;
  }

  lemma InvCipherStep(k: Block, c: Block, r: nat)
    requires r <= 10
    ensures r == 10 ==> InvStateBefore(k, c, r) == c
    ensures r == 0 ==> InvCipher(k, c) == Xor(InvStateBefore(k, c, 0), RoundKey(k, 0))
    ensures r > 0 ==> var t := Xor(InvStateBefore(k, c, r), RoundKey(k, r));
      InvStateBefore(k, c, r - 1) == InvSubBytes(InvShiftRows(if r == 10 then t else InvMixColumns(t)))
  {
    hide RoundKey, Xor, InvSubBytes, InvShiftRows, InvMixColumns;
  }

  /** A byte of a mixed block. */
  function Mixed(s: Block, i: nat, inv: bool): bv8
    requires i < 16
  {
    if inv then InvMixColumns(s)[i] else MixColumns(s)[i]
  }

  lemma MixedByBytes(before: seq<bv8>, after: seq<bv8>, off: nat, inv: bool)
    requires |after| == |before| && off + 16 <= |before|
    requires forall j: nat | j < |before| ::
      after[j] == if off <= j < off + 16 then Mixed(before[off..off + 16], j - off, inv) else before[j]
    ensures after == Splice(before, off,
      if inv then InvMixColumns(before[off..off + 16]) else MixColumns(before[off..off + 16]))
  {
    hide InvMixColumns, MixColumns;
    var b := before[off..off + 16];
    SpliceByBytes(before, after, off, if inv then InvMixColumns(b) else MixColumns(b));
  }

  lemma MixedColumn(s: Block, i: nat, inv: bool, a0: bv8, a1: bv8, a2: bv8, a3: bv8, d: bv8, e: bv8)
    requires i < 16 && i % 4 == 0
    requires a0 == s[i] && a1 == s[i + 1] && a2 == s[i + 2] && a3 == s[i + 3]
    requires !inv ==> d == e == Sum4(a0, a1, a2, a3)
    requires inv ==> var sum := Sum4(a0, a1, a2, a3);
      && d == Add(Mul2(Mul2(Add(Mul2(sum), Add(a0, a2)))), sum)
      && e == Add(Mul2(Mul2(Add(Mul2(sum), Add(a1, a3)))), sum)
    ensures Mixed(s, i, inv) == Add(Add(d, a0), Mul2(Add(a0, a1)))
    ensures Mixed(s, i + 1, inv) == Add(Add(e, a1), Mul2(Add(a1, a2)))
    ensures Mixed(s, i + 2, inv) == Add(Add(d, a2), Mul2(Add(a2, a3)))
    ensures Mixed(s, i + 3, inv) == Add(Add(e, a3), Mul2(Add(a3, a0)))
  {
    hide Add, Sum4, Mul2, Mixed;
    MixedAt(s, i, 0, inv);
    MixedAt(s, i, 1, inv);
    MixedAt(s, i, 2, inv);
    MixedAt(s, i, 3, inv);
    Sum4Rotates(a0, a1, a2, a3);
    Sum4Rotates(a1, a2, a3, a0);
    AddCommutes(a0, a2);
    AddCommutes(a1, a3);
  }

  lemma MixedAt(s: Block, i: nat, k: nat, inv: bool)
    requires i < 16 && i % 4 == 0 && k < 4
    ensures Mixed(s, i + k, inv) ==
      var a0, a1, a2, a3 := s[i + k], s[i + (k + 1) % 4], s[i + (k + 2) % 4], s[i + (k + 3) % 4];
      if inv then InvMixByte(a0, a1, a2, a3) else MixByte(a0, a1, a2, a3)
  {
    hide InColumn, InvMixByte, MixByte;
    InWholeColumn(s, i, k, 0);
    InWholeColumn(s, i, k, 1);
    InWholeColumn(s, i, k, 2);
    InWholeColumn(s, i, k, 3);
  }

  lemma InWholeColumn(s: Block, i: nat, k: nat, m: nat)
    requires i < 16 && i % 4 == 0 && k < 4
    ensures InColumn(s, i + k, m) == s[i + (k + m) % 4]
  {
  }

  function Row(b: Block, j: nat): (v: seq<bv8>)
    requires j < 4
    ensures |v| == 4
  {
    [b[j], b[j + 4], b[j + 8], b[j + 12]]
  }

  /** A row after the first n of the three swaps that rotate it. */
  function Swapped(v: seq<bv8>, n: nat, inv: bool): (w: seq<bv8>)
    requires |v| == 4 && n <= 3
    ensures |w| == 4
  {
    if n == 0 then v
    else if n == 1 then if inv then [v[0], v[1], v[3], v[2]] else [v[1], v[0], v[2], v[3]]
    else if n == 2 then if inv then [v[0], v[3], v[1], v[2]] else [v[1], v[2], v[0], v[3]]
    else if inv then [v[3], v[0], v[1], v[2]] else [v[1], v[2], v[3], v[0]]
  }

  /** Row j of a block turned left, or right, by one column. */
  function RowTurned(b: Block, j: nat, inv: bool): Block {
    seq(16, p requires 0 <= p < 16 => if p % 4 == j then b[(p + if inv then 12 else 4) % 16] else b[p])
  }

  lemma RowIs(s: seq<bv8>, off: nat, j: nat)
    requires off + 16 <= |s| && j < 4
    ensures Row(s[off..off + 16], j) == [s[off + j], s[off + j + 4], s[off + j + 8], s[off + j + 12]]
  {
  }

  lemma SwappedStart(v: seq<bv8>, inv: bool)
    requires |v| == 4
    ensures Swapped(v, 0, inv) == v
  {
  }

  lemma SwappedStep(v: seq<bv8>, n: nat, inv: bool)
    requires |v| == 4 && n < 3
    ensures
      var w, p := Swapped(v, n, inv), if inv then 2 - n else n;
      Swapped(v, n + 1, inv) == w[p := w[p + 1]][p + 1 := w[p]]
  {
  }

  lemma RowTurnedByRow(before: seq<bv8>, after: seq<bv8>, off: nat, j: nat, inv: bool)
    requires |after| == |before| && off + 16 <= |before| && j < 4
    requires forall q: nat | q < |before| && !(off <= q < off + 16 && (q - off) % 4 == j) :: after[q] == before[q]
    requires [after[off + j], after[off + j + 4], after[off + j + 8], after[off + j + 12]]
          == Swapped(Row(before[off..off + 16], j), 3, inv)
    ensures after == Splice(before, off, RowTurned(before[off..off + 16], j, inv))
  {
    var b: Block := before[off..off + 16];
    var t := RowTurned(b, j, inv);
    assert t[j] == after[off + j] && t[j + 4] == after[off + j + 4];
    assert t[j + 8] == after[off + j + 8] && t[j + 12] == after[off + j + 12];
    hide Row, Swapped, RowTurned;
    forall p: nat | p < 16
      ensures after[off + p] == t[p]
    {
      if p % 4 == j {
        assert p == j || p == j + 4 || p == j + 8 || p == j + 12;
      } else {
        RowTurnedElsewhere(b, j, inv, p);
      }
    }
    SpliceByBytes(before, after, off, t);
  }

  lemma RowTurnedElsewhere(b: Block, j: nat, inv: bool, p: nat)
    requires p < 16 && p % 4 != j
    ensures RowTurned(b, j, inv)[p] == b[p]
  {
  }

  /** The block when the two outer loops of aesShiftRows_B stand at (i, j). */
  function RowsTurned(b: Block, i: nat, j: nat, inv: bool): Block
    requires 1 <= i <= j <= 4
    decreases i, j
  {
    if i < j then RowTurned(RowsTurned(b, i, j - 1, inv), j - 1, inv)
    else if i == 1 then b
    else RowsTurned(b, i - 1, 4, inv)
  }

  /** How often row r has been rotated by then. */
  function Turns(r: nat, i: nat, j: nat): nat
    requires i > 0
  {
    if r < i then r else if r < j then i else i - 1
  }

  lemma RowTurnedCell(b: Block, j: nat, inv: bool, r: nat, c: nat)
    requires r < 4
    ensures Cell(RowTurned(b, j, inv), r, c) == Cell(b, r, if r != j then c else c + if inv then 3 else 1)
  {
    var step := if inv then 3 else 1;
    hide Cell, RowTurned;
    CellPlace(r, c % 4);
    RowTurnedAt(b, j, inv, r + 4 * (c % 4));
    ColumnTurned(r, c % 4, step);
    assert c + step == 4 * (c / 4) + (c % 4 + step);
    ModFour(c / 4, c % 4 + step);
    CellIs(RowTurned(b, j, inv), r, c);
    CellIs(b, r, c);
    CellIs(b, r, c + step);
  }

  lemma RowTurnedAt(b: Block, j: nat, inv: bool, p: nat)
    requires p < 16
    ensures RowTurned(b, j, inv)[p] == if p % 4 == j then b[(p + if inv then 12 else 4) % 16] else b[p]
  {
  }

  lemma ColumnTurned(r: nat, c: nat, step: nat)
    requires r < 4 && c < 4 && step < 4
    ensures (r + 4 * c + 4 * step) % 16 == r + 4 * ((c + step) % 4)
  {
  }

  lemma {:induction false} RowsTurnedCell(b: Block, i: nat, j: nat, inv: bool, r: nat, c: nat)
    requires 1 <= i <= j <= 4 && r < 4
    ensures Cell(RowsTurned(b, i, j, inv), r, c)
         == Cell(b, r, c + if inv then 3 * Turns(r, i, j) else Turns(r, i, j))
    decreases i, j
  {
    hide Cell, RowTurned;
    if i < j {
      var before := RowsTurned(b, i, j - 1, inv);
      RowTurnedCell(before, j - 1, inv, r, c);
      RowsTurnedCell(b, i, j - 1, inv, r, if r != j - 1 then c else c + if inv then 3 else 1);
    } else if i > 1 {
      RowsTurnedCell(b, i - 1, 4, inv, r, c);
    }
  }

  lemma RowsTurnedShift(b: Block, inv: bool)
    ensures RowsTurned(b, 4, 4, inv) == if inv then InvShiftRows(b) else ShiftRows(b)
  {
    hide RowsTurned, ShiftRows, InvShiftRows, Cell;
    var t := RowsTurned(b, 4, 4, inv);
    forall p: nat | p < 16
      ensures t[p] == (if inv then InvShiftRows(b) else ShiftRows(b))[p]
    {
      RowsTurnedCell(b, 4, 4, inv, p % 4, p / 4);
      ShiftedCell(b, p % 4, p / 4);
      ByteIsCell(t, p);
      ByteIsCell(if inv then InvShiftRows(b) else ShiftRows(b), p);
    }
  }
}
