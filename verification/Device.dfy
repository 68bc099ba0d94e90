/** The device: its FRAM, EEPROM, card and master key, and the access functions of
  Fram.c and Password.c. Every persistent write is also recorded in a ghost log,
  so that what a method says about its log is a statement about every power cut. */
module Device {
  import opened Bytes
  import opened Aes
  import opened Cbc
  import opened Memory
  import opened Crash
  import opened Random
  import AesDevice

  // ----- what a block holds -----

  /** The text enciphered at `off` of a block, with the IV at `ivOff`, as the device reads it. */
  function TextIn(b: seq<bv8>, ivOff: nat, off: nat, len: nat, k: Block): (text: seq<bv8>)
    requires ivOff + 16 <= |b| && off + len <= |b|
    ensures |text| == len
  {
    Strip(CbcDecryptText(k, b[ivOff..ivOff + 16], b[off..off + len]))
  }

  /** A block with a text enciphered into it. */
  function WithText(b: seq<bv8>, ivOff: nat, off: nat, text: seq<bv8>, k: Block, iv: Block): (r: seq<bv8>)
    requires ivOff + 16 <= off && off + |text| <= |b|
    ensures |r| == |b|
  {
    Splice(Splice(b, ivOff, iv), off, CbcEncrypt(k, iv, text))
  }

  /** Reading gives back exactly the text that was written: all of it if it is
    printable bytes followed by zeros, else that with the rest zeroed. */
  lemma CredentialRoundTrip(b: seq<bv8>, ivOff: nat, off: nat, text: seq<bv8>, k: Block, iv: Block)
    requires ivOff + 16 <= off && off + |text| <= |b|
    ensures TextIn(WithText(b, ivOff, off, text, k, iv), ivOff, off, |text|, k) == Strip(text)
    ensures TextIn(WithText(b, ivOff, off, text, k, iv), ivOff, off, |text|, k) == text <==> IsText(text)
  {
    hide Cipher, InvCipher, Xor, CbcEncrypt, CbcDecrypt, CbcDecryptText, Strip, IsText;
    SpliceElsewhere(Splice(b, ivOff, iv), off, CbcEncrypt(k, iv, text), ivOff, ivOff + 16);
    StripDecryptText(k, iv, CbcEncrypt(k, iv, text));
    CbcRoundTrip(k, iv, text);
    StripIsText(text);
  }

  /** A field keeps its text as long as its own bytes stay. */
  lemma OtherTextKept(b: seq<bv8>, ivOff: nat, off: nat, text: seq<bv8>, k: Block, iv: Block,
                      ivOff': nat, off': nat, len: nat, k': Block)
    requires ivOff + 16 <= off && off + |text| <= |b|
    requires ivOff' + 16 <= off' && off' + len <= |b|
    requires off + |text| <= ivOff' || (off' + len <= ivOff)
    ensures TextIn(WithText(b, ivOff, off, text, k, iv), ivOff', off', len, k') == TextIn(b, ivOff', off', len, k')
  {
    hide Cipher, InvCipher, Xor, CbcEncrypt, CbcDecryptText, Strip, Splice;
    var b1, e := Splice(b, ivOff, iv), CbcEncrypt(k, iv, text);
    SpliceElsewhere(b, ivOff, iv, ivOff', ivOff' + 16);
    SpliceElsewhere(b, ivOff, iv, off', off' + len);
    SpliceElsewhere(b1, off, e, ivOff', ivOff' + 16);
    SpliceElsewhere(b1, off, e, off', off' + len);
  }

  lemma WithTextKeepsFront(b: seq<bv8>, ivOff: nat, off: nat, text: seq<bv8>, k: Block, iv: Block, n: nat)
    requires n <= ivOff && ivOff + 16 <= off && off + |text| <= |b|
    ensures WithText(b, ivOff, off, text, k, iv)[..n] == b[..n]
  {
    hide Splice, CbcEncrypt;
    SpliceElsewhere(b, ivOff, iv, 0, n);
    SpliceElsewhere(Splice(b, ivOff, iv), off, CbcEncrypt(k, iv, text), 0, n);
  }

  /** The password of a credential under a key. */
  function DataOf(m: Image, id: nat, k: Block): (text: seq<bv8>)
    requires id < CAPACITY
    ensures |text| == 32
  {
    TextIn(BlockOf(m, id), PWD_OFFSET_PWD_IV, PWD_OFFSET_PWD_DATA, 32, k)
  }

  /** The user name of a credential under a key. */
  function UsrOf(m: Image, id: nat, k: Block): (text: seq<bv8>)
    requires id < CAPACITY
    ensures |text| == 64
  {
    TextIn(BlockOf(m, id), PWD_OFFSET_USR_IV, PWD_OFFSET_USR_NAME, 64, k)
  }

  /** The writes of encrypt_and_write: those of drawing the IV, the IV, and the text. */
  function TextWrites(addrIv: nat, addrAes: nat, text: seq<bv8>, k: Block, iv: Draw): seq<Write> {
    DrawWrites(iv) + FramWrites(addrIv, DrawBytes(iv)) + FramWrites(addrAes, CbcEncrypt(k, DrawBytes(iv), text))
  }

  /** Credentials lie outside the entropy pool. */
  lemma PoolApart(m: Image, pool: seq<bv8>, id: nat)
    requires |pool| == SIZE_ENTROPY_POOL && id < CAPACITY
    ensures BlockOf(WithPool(m, pool), id) == BlockOf(m, id)
  {
    hide Splice;
    SpliceElsewhere(m, OFFSET_ENTROPY_POOL, pool, PwdAddr(id, 0), PwdAddr(id, SIZE_OF_PWD_BLOCK));
  }

  /** Only the pool has changed. */
  lemma PoolChanged(s: Store, t: Store)
    requires SameOutside(s, t, 0, 0)
    ensures t.fram == WithPool(s.fram, PoolOf(t.fram))
  {
  }

  /** What the watchdog timer has gathered when it is asked: 32 bits. */
  type Dword = s: seq<bv8> | |s| == 4 witness [0, 0, 0, 0]

  /** How many such numbers have been taken, and how often the next one has been asked for in vain. */
  datatype Ticks = Ticks(numbers: nat, asked: nat)

  type PoolSize = n: nat | n <= SIZE_ENTROPY_POOL

  class Wallet {
    const fram: array<bv8>
    const eeprom: array<bv8>
    const key: array<bv8>
    var card: Block
    var temp: Block
    var numPwd: nat   // NUM_PWD
    var current: nat  // CURRENT_PASSWORD_ID
    var poolSize: PoolSize  // entropy_pool_size
    const timer: nat -> Dword  // what the timer delivers, number after number
    const waits: nat -> nat  // how often each number is asked for in vain
    var ticks: Ticks
    ghost var log: seq<Write>

    ghost predicate Valid() {
      && fram.Length == FRAM_BYTE_SIZE && eeprom.Length == 32 && key.Length == 16
      && fram != eeprom && fram != key && eeprom != key
    }

    ghost function Persistent(): Store
      reads this, fram, eeprom
      requires Valid()
    {
      Store(fram[..], card, temp, eeprom[..])
    }

    /** The memories have come from `s`, and the log from `l`, by exactly the writes `ws`. */
    ghost predicate Since(s: Store, l: seq<Write>, ws: seq<Write>)
      reads this, fram, eeprom
      requires Valid()
    {
      log == l + ws && Persistent() == ApplyAll(s, ws)
    }

    lemma SinceBoth(s: Store, l: seq<Write>, a: seq<Write>, b: seq<Write>)
      requires Valid() && Since(ApplyAll(s, a), l + a, b)
      ensures Since(s, l, a + b)
    {
      ApplyAppend(s, a, b);
      assert l + (a + b) == l + a + b;
    }

    /** fram_read_bytes */
    method FramReadBytes(addr: nat, buffer: array<bv8>, size: nat)
      requires Valid() && buffer != fram && size <= buffer.Length && addr + size <= FRAM_BYTE_SIZE
      modifies buffer
      ensures buffer[..] == fram[addr..addr + size] + old(buffer[size..])
    {
      for i := 0 to size
        invariant forall j: nat | j < buffer.Length ::
          buffer[j] == if j < i then fram[addr + j] else old(buffer[j])
      {
        buffer[i] := fram[addr + i];
      }
    }

    /** fram_write_byte */
    method FramWriteByte(addr: nat, b: bv8)
      requires Valid() && addr < FRAM_BYTE_SIZE
      modifies fram, `log
      ensures fram[..] == old(fram[..])[addr := b]
      ensures Since(old(Persistent()), old(log), [ToFram(addr, b)])
    {
      fram[addr] := b;
      log := log + [ToFram(addr, b)];
      ApplyOne(old(Persistent()), ToFram(addr, b));
    }

    /** fram_write_bytes */
    method FramWriteBytes(addr: nat, buffer: array<bv8>, size: nat)
      requires Valid() && buffer != fram && size <= buffer.Length && addr + size <= FRAM_BYTE_SIZE
      modifies fram, `log
      ensures fram[..] == Splice(old(fram[..]), addr, buffer[..size])
      ensures Since(old(Persistent()), old(log), FramWrites(addr, buffer[..size]))
    {
      hide Splice, ApplyAll, FramWrites;
      ghost var m, b := fram[..], buffer[..size];
      SpliceStart(m, addr, b);
      for i := 0 to size
        invariant fram[..] == Splice(m, addr, b[..i])
        invariant log == old(log) + FramWrites(addr, b[..i])
      {
        SpliceGrows(m, addr, b, i);
        FramWritesGrow(addr, b, i);
        FramWriteByte(addr + i, buffer[i]);
      }
      assert b[..size] == b;
      ApplyFramWrites(old(Persistent()), addr, b);
    }

    /** fram_set */
    method FramSet(addr: nat, val: bv8, num: nat)
      requires Valid() && addr + num <= FRAM_BYTE_SIZE
      modifies fram, `log
      ensures fram[..] == Splice(old(fram[..]), addr, seq(num, _ => val))
      ensures Since(old(Persistent()), old(log), FramWrites(addr, seq(num, _ => val)))
    {
      hide Splice, ApplyAll, FramWrites;
      ghost var m, vals := fram[..], seq(num, _ => val);
      SpliceStart(m, addr, vals);
      for i := 0 to num
        invariant fram[..] == Splice(m, addr, vals[..i])
        invariant log == old(log) + FramWrites(addr, vals[..i])
      {
        SpliceGrows(m, addr, vals, i);
        FramWritesGrow(addr, vals, i);
        FramWriteByte(addr + i, val);
      }
      assert vals[..num] == vals;
      ApplyFramWrites(old(Persistent()), addr, vals);
    }

    /** eeprom_update_byte: a byte that is there already is not written again, which
      changes nothing, so the write is logged either way. */
    method EepromUpdateByte(addr: nat, b: bv8)
      requires Valid() && addr < 32
      modifies eeprom, `log
      ensures eeprom[..] == old(eeprom[..])[addr := b]
      ensures Since(old(Persistent()), old(log), [ToEeprom(addr, b)])
    {
      if eeprom[addr] != b {
        eeprom[addr] := b;
      }
      log := log + [ToEeprom(addr, b)];
      ApplyOne(old(Persistent()), ToEeprom(addr, b));
    }

    /** user_write_key_to_card for the key sector, on a card that accepts the write. */
    method WriteKeyToCard(k: array<bv8>)
      requires Valid() && k.Length == 16
      modifies `card, `log
      ensures card == k[..]
      ensures Since(old(Persistent()), old(log), [ToCard(k[..])])
    {
      card := k[..];
      log := log + [ToCard(k[..])];
      ApplyOne(old(Persistent()), ToCard(k[..]));
    }

    /** user_write_key_to_card for the sector of the key to come. */
    method WriteTempKeyToCard(k: array<bv8>)
      requires Valid() && k.Length == 16
      modifies `temp, `log
      ensures temp == k[..]
      ensures Since(old(Persistent()), old(log), [ToCardTemp(k[..])])
    {
      temp := k[..];
      log := log + [ToCardTemp(k[..])];
      ApplyOne(old(Persistent()), ToCardTemp(k[..]));
    }

    /** password_read_id */
    method ReadId(addr: nat) returns (id: nat)
      requires Valid() && addr + 2 <= FRAM_BYTE_SIZE
      ensures id < 65536 && IdBytes(id) == fram[addr..addr + 2]
      ensures id == GetId(fram[..], addr) == ToNat(fram[addr]) + 256 * ToNat(fram[addr + 1])
    {
      hide IdBytes, ToNat;
      var b := new bv8[2](_ => 0);
      FramReadBytes(addr, b, 2);
      assert b[..] == fram[addr..addr + 2];
      assert b[0] == b[..][0] && b[1] == b[..][1];
      IdBytesRoundTrip(b[0], b[1]);
      id := IdOf(b[0], b[1]);
    }

    /** password_write_id: an id wraps around at 65536. */
    method WriteId(addr: nat, id: nat)
      requires Valid() && addr + 2 <= FRAM_BYTE_SIZE
      modifies fram, `log
      ensures fram[..] == Splice(old(fram[..]), addr, IdBytes(id))
      ensures ToNat(fram[addr]) == id % 256 && ToNat(fram[addr + 1]) == id / 256 % 256
      ensures Since(old(Persistent()), old(log), FramWrites(addr, IdBytes(id)))
    {
      hide ToNat, ToByte;
      var b := new bv8[2](i requires 0 <= i < 2 => IdBytes(id)[i]);
      assert b[..2] == IdBytes(id);
      FramWriteBytes(addr, b, 2);
      IdBytesAre(id);
      assert fram[..][addr..addr + 2][0] == fram[addr] && fram[..][addr..addr + 2][1] == fram[addr + 1];
    }

    /** read_and_decrypt */
    method ReadAndDecrypt(addrIv: nat, addrAes: nat, len: nat, k: array<bv8>) returns (output: array<bv8>)
      requires Valid() && k.Length == 16 && k != fram
      requires len % 16 == 0 && len <= 240
      requires addrIv + 16 <= FRAM_BYTE_SIZE && addrAes + len <= FRAM_BYTE_SIZE
      modifies k
      ensures fresh(output) && k[..] == old(k[..])
      ensures output[..] == Strip(CbcDecryptText(k[..], fram[addrIv..addrIv + 16], fram[addrAes..addrAes + len]))
      ensures
        var plain, text := CbcDecrypt(k[..], fram[addrIv..addrIv + 16], fram[addrAes..addrAes + len]), output[..];
        |text| == len && exists n: nat ::
          && n <= len && text[..n] == plain[..n] && (forall i: nat | i < n :: ToNat(plain[i]) >= 32)
          && (n < len ==> ToNat(plain[n]) < 32) && (forall i: nat | n <= i < len :: text[i] == 0)
    {
      hide CbcDecryptText, CbcDecrypt, Strip, ToNat;
      output := new bv8[len](_ => 0);
      var iv := new bv8[16](_ => 0);
      var aes := new AesDevice.Cipher128();
      FramReadBytes(addrIv, iv, 16);
      FramReadBytes(addrAes, output, len);
      assert iv[..] == fram[addrIv..addrIv + 16];
      assert output[..len] == fram[addrAes..addrAes + len];
      aes.DecryptBuffer(output, len, k, iv);
      assert output[..] == CbcDecryptText(k[..], fram[addrIv..addrIv + 16], fram[addrAes..addrAes + len]);
      StripPadding(output);
      StripDecryptText(k[..], fram[addrIv..addrIv + 16], fram[addrAes..addrAes + len]);
      StrippedIs(CbcDecrypt(k[..], fram[addrIv..addrIv + 16], fram[addrAes..addrAes + len]));
    }

    // ----- random bytes -----

    /** random_transfer: the timer has gathered a random number. */
    predicate Gathered()
      reads `ticks
    {
      ticks.asked >= waits(ticks.numbers)
    }

    /** random_save_entropy */
    method RandomSaveEntropy() returns (ghost pool: seq<PoolWrite>)
      requires Valid()
      modifies fram, `log, `poolSize, `ticks
      ensures Since(old(Persistent()), old(log), PoolWrites(pool))
      ensures !old(Gathered()) ==> ticks == old(ticks).(asked := old(ticks.asked) + 1)
      ensures old(Gathered()) && old(poolSize) > SIZE_ENTROPY_POOL - 4 ==> ticks == old(ticks)
      ensures !old(Gathered()) || old(poolSize) > SIZE_ENTROPY_POOL - 4 ==> pool == [] && poolSize == old(poolSize)
      ensures old(Gathered()) && old(poolSize) <= SIZE_ENTROPY_POOL - 4 ==>
        && poolSize == old(poolSize) + 4 && ticks == Ticks(old(ticks.numbers) + 1, 0)
        && fram[..] == Splice(old(fram[..]), OFFSET_ENTROPY_POOL + old(poolSize), timer(old(ticks.numbers)))
    {
      hide Splice;
      pool := [];
      assert PoolWrites(pool) == [];
      if !Gathered() {
        ticks := ticks.(asked := ticks.asked + 1);
        return;
      }
      if poolSize > SIZE_ENTROPY_POOL - 4 {
        return;
      }
      var at, dword := poolSize, timer(ticks.numbers);
      var b := new bv8[4](i requires 0 <= i < 4 => dword[i]);
      assert b[..4] == dword;
      FramWriteBytes(OFFSET_ENTROPY_POOL + at, b, 4);
      poolSize := at + 4;
      ticks := Ticks(ticks.numbers + 1, 0);
      pool := seq(4, i requires 0 <= i < 4 => PoolWrite(at + i, dword[i]));
      assert PoolWrites(pool) == FramWrites(OFFSET_ENTROPY_POOL + at, dword);
    }

    /** The loop of random_request_byte that waits for an empty pool to be filled. */
    method WaitForEntropy() returns (ghost pool: seq<PoolWrite>)
      requires Valid()
      modifies fram, `log, `poolSize, `ticks
      ensures Since(old(Persistent()), old(log), PoolWrites(pool))
      ensures old(poolSize) > 0 ==> pool == [] && poolSize == old(poolSize)
      ensures old(poolSize) == 0 ==>
        poolSize == 4 && fram[..] == Splice(old(fram[..]), OFFSET_ENTROPY_POOL, timer(old(ticks.numbers)))
    {
      hide Splice, ApplyAll, PoolWrites;
      ghost var s, l := Persistent(), log;
      pool := [];
      NothingPooled(s);
      while poolSize == 0
        invariant Since(s, l, PoolWrites(pool))
        invariant poolSize == old(poolSize) ==> pool == [] && (poolSize == 0 ==> ticks.numbers == old(ticks.numbers))
        invariant poolSize != old(poolSize) ==>
          && old(poolSize) == 0 && poolSize == 4
          && fram[..] == Splice(old(fram[..]), OFFSET_ENTROPY_POOL, timer(old(ticks.numbers)))
        decreases if poolSize == 0 then 1 else 0, waits(ticks.numbers) - ticks.asked
      {
        pool := RandomSaveEntropy();
      }
    }

    /** random_request_byte: the last byte of the pool, which is cleared; an empty pool is
      filled first. */
    method RandomRequestByte() returns (random: bv8, ghost drawn: Drawn)
      requires Valid()
      modifies fram, `log, `poolSize, `ticks
      ensures drawn.byte == random && Since(old(Persistent()), old(log), PoolWrites(drawn.pool))
      ensures random ==
        if old(poolSize) == 0 then timer(old(ticks.numbers))[3] else old(fram[OFFSET_ENTROPY_POOL + poolSize - 1])
      ensures poolSize == (if old(poolSize) == 0 then 4 else old(poolSize)) - 1
      ensures fram[OFFSET_ENTROPY_POOL + poolSize] == 0
    {
      hide ApplyAll, PoolWrites, Splice;
      ghost var s, l, dword := Persistent(), log, timer(ticks.numbers);
      ghost var pool := WaitForEntropy();
      SpliceAt(s.fram, OFFSET_ENTROPY_POOL, dword, OFFSET_ENTROPY_POOL + 3);
      assert old(poolSize) == 0 ==> fram[OFFSET_ENTROPY_POOL + 3] == fram[..][OFFSET_ENTROPY_POOL + 3];
      NothingPooled(s);
      random := fram[OFFSET_ENTROPY_POOL + poolSize - 1];
      FramWriteByte(OFFSET_ENTROPY_POOL + poolSize - 1, 0);
      poolSize := poolSize - 1;
      ghost var cleared := [PoolWrite(poolSize, 0)];
      PooledOne(cleared[0]);
      PooledBoth(pool, cleared);
      SinceBoth(s, l, PoolWrites(pool), PoolWrites(cleared));
      drawn := Drawn(random, pool + cleared);
    }

    /** The loop that draws an IV or a key. */
    method DrawBlock() returns (bytes: array<bv8>, ghost d: Draw)
      requires Valid()
      modifies fram, `log, `poolSize, `ticks
      ensures fresh(bytes) && bytes.Length == 16 && bytes[..] == DrawBytes(d)
      ensures Since(old(Persistent()), old(log), DrawWrites(d))
      ensures fram[..] == WithPool(old(fram[..]), PoolOf(fram[..]))
    {
      hide ApplyAll, PoolWrites, DrawWrites, WithPool, PoolOf;
      ghost var s, l := Persistent(), log;
      NothingDrawn(s);
      bytes := new bv8[16](_ => 0);
      ghost var drawn: seq<Drawn> := [];
      for i := 0 to 16
        invariant |drawn| == i && bytes[..i] == DrawBytes(drawn)
        invariant Since(s, l, DrawWrites(drawn))
      {
        ghost var r;
        bytes[i], r := RandomRequestByte();
        DrawOneMore(drawn, r);
        SinceBoth(s, l, DrawWrites(drawn), PoolWrites(r.pool));
        drawn := drawn + [r];
      }
      d := drawn;
      assert bytes[..16] == bytes[..];
      OnlyPool(s, d);
      PoolChanged(s, Persistent());
    }

    /** encrypt_and_write, with its random IV. The buffer is left enciphered. */
    method EncryptAndWrite(input: array<bv8>, addrIv: nat, addrAes: nat, len: nat, k: array<bv8>) returns (ghost d: Draw)
      requires Valid() && k.Length == 16 && input.Length == len
      requires k !in {fram, eeprom} && input !in {fram, eeprom} && input != k
      requires len % 16 == 0 && len <= 240
      requires OFFSET_MEMORY_MAP <= addrIv && addrIv + 16 <= addrAes && addrAes + len <= FRAM_BYTE_SIZE
      modifies input, k, fram, `log, `poolSize, `ticks
      ensures k[..] == old(k[..])
      ensures fram[..] ==
        WithText(WithPool(old(fram[..]), PoolOf(fram[..])), addrIv, addrAes, old(input[..]), k[..], DrawBytes(d))
      ensures Since(old(Persistent()), old(log), TextWrites(addrIv, addrAes, old(input[..]), k[..], d))
      ensures log == old(log) + DrawWrites(d) + FramWrites(addrIv, DrawBytes(d))
        + FramWrites(addrAes, CbcEncrypt(k[..], DrawBytes(d), old(input[..])))
    {
      hide CbcEncrypt, FramWrites, ApplyAll, Splice, DrawWrites, WithPool, PoolOf;
      ghost var s, l, text := Persistent(), log, input[..];
      var iv;
      iv, d := DrawBlock();
      ghost var pooled := fram[..];
      var aes := new AesDevice.Cipher128();
      assert input[..len] == input[..];
      aes.EncryptBuffer(input, len, k, iv);
      assert input[..] == CbcEncrypt(old(k[..]), iv[..], text);
      assert iv[..16] == iv[..] && input[..len] == input[..];
      FramWriteBytes(addrIv, iv, 16);
      SinceBoth(s, l, DrawWrites(d), FramWrites(addrIv, iv[..]));
      FramWriteBytes(addrAes, input, len);
      SinceBoth(s, l, DrawWrites(d) + FramWrites(addrIv, iv[..]), FramWrites(addrAes, CbcEncrypt(k[..], iv[..], text)));
      PoolAfterText(pooled, fram[..], addrIv, addrAes, text, k[..], iv[..]);
    }

    /** password_read_data */
    method ReadData(id: nat, k: array<bv8>) returns (dst: array<bv8>)
      requires Valid() && k.Length == 16 && k != fram && id < CAPACITY
      modifies k
      ensures fresh(dst) && k[..] == old(k[..])
      ensures dst.Length == 32 && dst[..] == DataOf(fram[..], id, k[..])
    {
      hide Strip, CbcDecryptText, CbcDecrypt, DataOf, BlockOf, ToNat;
      dst := ReadAndDecrypt(PwdAddr(id, PWD_OFFSET_PWD_IV), PwdAddr(id, PWD_OFFSET_PWD_DATA), 32, k);
      DataOfIs(fram[..], id, k[..]);
    }

    /** password_read_usr_name */
    method ReadUsrName(id: nat, k: array<bv8>) returns (dst: array<bv8>)
      requires Valid() && k.Length == 16 && k != fram && id < CAPACITY
      modifies k
      ensures fresh(dst) && k[..] == old(k[..])
      ensures dst.Length == 64 && dst[..] == UsrOf(fram[..], id, k[..])
    {
      hide Strip, CbcDecryptText, CbcDecrypt, UsrOf, BlockOf, ToNat;
      dst := ReadAndDecrypt(PwdAddr(id, PWD_OFFSET_USR_IV), PwdAddr(id, PWD_OFFSET_USR_NAME), 64, k);
      UsrOfIs(fram[..], id, k[..]);
    }

    /** password_set_data */
    method SetData(id: nat, pwd: array<bv8>, k: array<bv8>) returns (ghost d: Draw)
      requires Valid() && k.Length == 16 && pwd.Length == 32 && id < CAPACITY
      requires k !in {fram, eeprom} && pwd !in {fram, eeprom} && pwd != k
      modifies pwd, k, fram, `log, `poolSize, `ticks
      ensures k[..] == old(k[..])
      ensures fram[..] == WithDataText(WithPool(old(fram[..]), PoolOf(fram[..])), id, old(pwd[..]), k[..], DrawBytes(d))
      ensures Since(old(Persistent()), old(log), DataWrites(id, old(pwd[..]), k[..], d))
    {
      hide CbcEncrypt, ApplyAll, Splice, WithPool, PoolOf, WithText;
      d := EncryptAndWrite(pwd, PwdAddr(id, PWD_OFFSET_PWD_IV), PwdAddr(id, PWD_OFFSET_PWD_DATA), 32, k);
    }

    /** password_set_usr_name */
    method SetUsrName(id: nat, usr: array<bv8>, k: array<bv8>) returns (ghost d: Draw)
      requires Valid() && k.Length == 16 && usr.Length == 64 && id < CAPACITY
      requires k !in {fram, eeprom} && usr !in {fram, eeprom} && usr != k
      modifies usr, k, fram, `log, `poolSize, `ticks
      ensures k[..] == old(k[..])
      ensures fram[..] == WithUsrText(WithPool(old(fram[..]), PoolOf(fram[..])), id, old(usr[..]), k[..], DrawBytes(d))
      ensures Since(old(Persistent()), old(log), UsrWrites(id, old(usr[..]), k[..], d))
    {
      hide CbcEncrypt, ApplyAll, Splice, WithPool, PoolOf, WithText;
      d := EncryptAndWrite(usr, PwdAddr(id, PWD_OFFSET_USR_IV), PwdAddr(id, PWD_OFFSET_USR_NAME), 64, k);
    }
  }

  /** The loop of read_and_decrypt that removes the padding. */
  method StripPadding(output: array<bv8>)
    modifies output
    ensures output[..] == Strip(old(output[..]))
    ensures
      var s, text := old(output[..]), output[..];
      |text| == |s| && exists n: nat ::
        && n <= |s| && text[..n] == s[..n] && (forall i: nat | i < n :: ToNat(s[i]) >= 32)
        && (n < |s| ==> ToNat(s[n]) < 32) && (forall i: nat | n <= i < |s| :: text[i] == 0)
  {
    hide ToNat, Control, TextLength;
    ghost var s := output[..];
    ghost var n := TextLength(s);
    var seen := false;
    for i := 0 to output.Length
      invariant seen <==> i > n
      invariant forall j: nat | j < output.Length :: output[j] == if n <= j < i then 0 else s[j]
    {
      if Control(output[i]) { seen := true; }
      if seen { output[i] := 0; }
    }
    assert output[..] == Strip(s);
    hide *;
    StrippedIs(s);
  }

  lemma NothingPooled(s: Store)
    ensures PoolWrites([]) == [] && ApplyAll(s, []) == s
  {
  }

  lemma NothingDrawn(s: Store)
    ensures DrawWrites([]) == [] && ApplyAll(s, []) == s
  {
  }

  lemma PooledOne(w: PoolWrite)
    ensures PoolWrites([w]) == [ToFram(OFFSET_ENTROPY_POOL + w.at, w.byte)]
  {
  }

  lemma PooledBoth(a: seq<PoolWrite>, b: seq<PoolWrite>)
    ensures PoolWrites(a + b) == PoolWrites(a) + PoolWrites(b)
  {
  }

  /** Drawing leaves everything but the pool as it is. */
  lemma OnlyPool(s: Store, d: seq<Drawn>)
    ensures SameOutside(s, ApplyAll(s, DrawWrites(d)), 0, 0)
  {
    hide ApplyAll, DrawWrites, Within, SameOutside;
    DrawsWithin(d, 0, 0);
    WritesStayWithin(s, DrawWrites(d), 0, 0);
  }

  /** The pool is as it was before the text was written. */
  lemma PoolAfterText(pooled: Image, m: Image, ivOff: nat, off: nat, text: seq<bv8>, k: Block, iv: Block)
    requires OFFSET_MEMORY_MAP <= ivOff && ivOff + 16 <= off && off + |text| <= FRAM_BYTE_SIZE
    requires m == WithText(pooled, ivOff, off, text, k, iv)
    ensures PoolOf(m) == PoolOf(pooled)
  {
    hide CbcEncrypt, Splice;
    SpliceElsewhere(pooled, ivOff, iv, OFFSET_ENTROPY_POOL, OFFSET_MEMORY_MAP);
    SpliceElsewhere(Splice(pooled, ivOff, iv), off, CbcEncrypt(k, iv, text), OFFSET_ENTROPY_POOL, OFFSET_MEMORY_MAP);
  }

  function DataWrites(id: nat, text: seq<bv8>, k: Block, iv: Draw): seq<Write> {
    TextWrites(PwdAddr(id, PWD_OFFSET_PWD_IV), PwdAddr(id, PWD_OFFSET_PWD_DATA), text, k, iv)
  }

  function UsrWrites(id: nat, text: seq<bv8>, k: Block, iv: Draw): seq<Write> {
    TextWrites(PwdAddr(id, PWD_OFFSET_USR_IV), PwdAddr(id, PWD_OFFSET_USR_NAME), text, k, iv)
  }

  function WithDataText(m: Image, id: nat, text: seq<bv8>, k: Block, iv: Block): Image
    requires id < CAPACITY && |text| == 32
  {
    WithText(m, PwdAddr(id, PWD_OFFSET_PWD_IV), PwdAddr(id, PWD_OFFSET_PWD_DATA), text, k, iv)
  }

  function WithUsrText(m: Image, id: nat, text: seq<bv8>, k: Block, iv: Block): Image
    requires id < CAPACITY && |text| == 64
  {
    WithText(m, PwdAddr(id, PWD_OFFSET_USR_IV), PwdAddr(id, PWD_OFFSET_USR_NAME), text, k, iv)
  }

  /** Password and user name, with their IVs, by their places in the FRAM. */
  lemma DataOfIs(m: Image, id: nat, k: Block)
    requires id < CAPACITY
    ensures DataOf(m, id, k) == TextIn(m, PwdAddr(id, PWD_OFFSET_PWD_IV), PwdAddr(id, PWD_OFFSET_PWD_DATA), 32, k)
    ensures
      var a := 535 + 170 * id;
      DataOf(m, id, k) == Strip(CbcDecryptText(k, m[a + 42..a + 58], m[a + 58..a + 90]))
  {
    hide Strip, CbcDecryptText, BlockOf;
    TextInBlock(m, id, PWD_OFFSET_PWD_IV, PWD_OFFSET_PWD_DATA, 32, k);
  }

  lemma TextInBlock(m: Image, id: nat, ivOff: nat, off: nat, len: nat, k: Block)
    requires id < CAPACITY && ivOff + 16 <= SIZE_OF_PWD_BLOCK && off + len <= SIZE_OF_PWD_BLOCK
    ensures TextIn(BlockOf(m, id), ivOff, off, len, k) == TextIn(m, PwdAddr(id, ivOff), PwdAddr(id, off), len, k)
  {
    hide Strip, CbcDecryptText;
    var a, b := PwdAddr(id, 0), PwdAddr(id, SIZE_OF_PWD_BLOCK);
    SliceOfSlice(m, a, b, ivOff, ivOff + 16);
    SliceOfSlice(m, a, b, off, off + len);
  }

  lemma UsrOfIs(m: Image, id: nat, k: Block)
    requires id < CAPACITY
    ensures UsrOf(m, id, k) == TextIn(m, PwdAddr(id, PWD_OFFSET_USR_IV), PwdAddr(id, PWD_OFFSET_USR_NAME), 64, k)
    ensures
      var a := 535 + 170 * id;
      UsrOf(m, id, k) == Strip(CbcDecryptText(k, m[a + 90..a + 106], m[a + 106..a + 170]))
  {
    hide Strip, CbcDecryptText, BlockOf;
    TextInBlock(m, id, PWD_OFFSET_USR_IV, PWD_OFFSET_USR_NAME, 64, k);
  }
}
