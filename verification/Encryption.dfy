/** The master key (Code/src/Security/Encryption.c): its validation pair in EEPROM and
  the loop that enciphers every credential with a new key. */
module Encryption {
  import opened Bytes
  import opened Aes
  import opened Cbc
  import opened Memory
  import opened MemoryMap
  import opened Crash
  import opened Random
  import opened Device
  import opened Backup
  import opened Views
  import AesDevice

  // ----- the validation pair -----

  /** The random sequence enciphered with an IV of zeros. */
  function Validation(k: Block, r: Block): Block {
    CbcEncrypt(k, Zeros(16), r)
  }

  predicate KeyMatches(e: Eeprom, k: Block) {
    Validation(k, e[..16]) == e[16..]
  }

  /** What the key check accepts, in terms of the cipher: with an IV of zeros one block of
    CBC is one encipherment. */
  lemma KeyMatchesIs(e: Eeprom, k: Block)
    ensures Validation(k, e[..16]) == Cipher(k, e[..16])
    ensures KeyMatches(e, k) <==> e[16..] == Cipher(k, e[..16])
  {
    hide Cipher, Xor;
    CbcEncryptStep(k, Zeros(16), e[..16]);
    XorZeros(e[..16]);
    assert e[..16][..16] == e[..16] && e[..16][16..] == [];
  }

  lemma XorZeros(r: Block)
    ensures Xor(r, Zeros(16)) == r
  {
  }

  /** A pair of which one half has been changed does not pass with the same key. */
  lemma HalfChangedIsRefused(e: Eeprom, e': Eeprom, k: Block)
    requires KeyMatches(e, k) && e' != e && (e'[..16] == e[..16] || e'[16..] == e[16..])
    ensures !KeyMatches(e', k)
  {
    hide Cipher, InvCipher, KeyMatches;
    assert e == e[..16] + e[16..] && e' == e'[..16] + e'[16..];
    KeyMatchesIs(e, k);
    KeyMatchesIs(e', k);
    InvCipherOfCipher(k, e[..16]);
    InvCipherOfCipher(k, e'[..16]);
  }

  /** The random sequence is stored as it is drawn, then its encipherment. */
  function ValidationWrites(k: Block, r: Draw): seq<Write> {
    StoredDrawWrites(r) + EepromWrites(16, Validation(k, DrawBytes(r)))
  }

  lemma {:induction false} StoredDraws(s: Store, d: seq<Drawn>)
    requires |d| <= 16
    ensures
      var t := ApplyAll(s, StoredDrawWrites(d));
      t.eeprom == Splice(s.eeprom, 0, DrawBytes(d)) && SameOutside(s.(eeprom := t.eeprom), t, 0, 0)
    decreases |d|
  {
    if d == [] {
      assert Splice(s.eeprom, 0, DrawBytes(d)) == s.eeprom;
    } else {
      var rest, r := d[..|d| - 1], d[|d| - 1];
      var t1 := ApplyAll(s, StoredDrawWrites(rest));
      StoredDraws(s, rest);
      assert d == rest + [r];
      StoreOneMore(rest, r);
      DrawOneMore(rest, r);
      hide StoredDrawWrites, ApplyAll, Splice, SameOutside, PoolWrites, DrawBytes;
      StoredDraw(t1, r, |rest|);
      ApplyAppend(s, StoredDrawWrites(rest), PoolWrites(r.pool) + [ToEeprom(|rest|, r.byte)]);
      assert StoredDrawWrites(d) == StoredDrawWrites(rest) + (PoolWrites(r.pool) + [ToEeprom(|rest|, r.byte)]);
      StoredTogether(s, t1, ApplyAll(s, StoredDrawWrites(d)), DrawBytes(d), |rest|);
    }
  }

  lemma StoredDraw(s: Store, r: Drawn, at: nat)
    requires at < 32
    ensures
      var t := ApplyAll(s, PoolWrites(r.pool) + [ToEeprom(at, r.byte)]);
      t.eeprom == s.eeprom[at := r.byte] && SameOutside(s.(eeprom := t.eeprom), t, 0, 0)
  {
    hide ApplyAll;
    var s1 := ApplyAll(s, PoolWrites(r.pool));
    assert Within(PoolWrites(r.pool), 0, 0);
    WritesStayWithin(s, PoolWrites(r.pool), 0, 0);
    ApplyAppend(s, PoolWrites(r.pool), [ToEeprom(at, r.byte)]);
    ApplyOne(s1, ToEeprom(at, r.byte));
  }

  lemma StoredTogether(s: Store, t: Store, u: Store, bytes: seq<bv8>, n: nat)
    requires |bytes| == n + 1 <= 16
    requires t.eeprom == Splice(s.eeprom, 0, bytes[..n]) && SameOutside(s.(eeprom := t.eeprom), t, 0, 0)
    requires u.eeprom == t.eeprom[n := bytes[n]] && SameOutside(t.(eeprom := u.eeprom), u, 0, 0)
    ensures u.eeprom == Splice(s.eeprom, 0, bytes) && SameOutside(s.(eeprom := u.eeprom), u, 0, 0)
  {
    SpliceGrows(s.eeprom, 0, bytes, n);
    assert bytes[..n + 1] == bytes;
  }

  /** The validation pair is written in one go of 32 bytes, and then the key passes. */
  lemma ValidationMatches(s: Store, k: Block, r: Draw)
    ensures
      var t := ApplyAll(s, ValidationWrites(k, r));
      && t.eeprom == DrawBytes(r) + Validation(k, DrawBytes(r)) && KeyMatches(t.eeprom, k)
      && SameOutside(s.(eeprom := t.eeprom), t, 0, 0)
  {
    hide Validation, ApplyAll, Splice, StoredDrawWrites, DrawBytes;
    var bytes := DrawBytes(r);
    var v := Validation(k, bytes);
    var t1 := ApplyAll(s, StoredDrawWrites(r));
    StoredDraws(s, r);
    ApplyAppend(s, StoredDrawWrites(r), EepromWrites(16, v));
    ApplyEepromWrites(t1, 16, v);
    PairIs(s.eeprom, bytes, v);
  }

  lemma PairIs(e: Eeprom, r: Block, v: Block)
    ensures Splice(Splice(e, 0, r), 16, v) == r + v
    ensures (r + v)[..16] == r && (r + v)[16..] == v
  {
  }

  /** security_memcmp: the differences of all bytes are collected before they are judged. */
  method MemCmp(a: array<bv8>, b: array<bv8>, sz: nat) returns (same: bool)
    requires 0 < sz <= a.Length && sz <= b.Length
    ensures same <==> a[..sz] == b[..sz]
  {
    var i, result := 0, 0 as bv8;
    while i < sz
      invariant 0 <= i <= sz
      invariant result == 0 <==> forall j: nat | j < i :: a[j] == b[j]
    {
      Collected(result, a[i], b[i]);
      result := result | (a[i] ^ b[i]);
      i := i + 1;
    }
    same := result == 0;
    assert same ==> a[..sz] == b[..sz];
    assert a[..sz] == b[..sz] ==> forall j: nat | j < sz :: a[..sz][j] == b[..sz][j];
  }

  lemma Collected(r: bv8, a: bv8, b: bv8)
    ensures r | (a ^ b) == 0 <==> r == 0 && a == b
  {
  }

  /** encryption_check_key */
  method CheckKey(w: Wallet) returns (ok: bool)
    requires w.Valid()
    modifies w.key
    ensures w.key[..] == old(w.key[..])
    ensures ok <==> KeyMatches(w.eeprom[..], w.key[..])
    ensures ok <==> w.eeprom[16..] == Cipher(w.key[..], w.eeprom[..16])
  {
    hide CbcEncrypt, Cipher;
    ghost var e, k := w.eeprom[..], w.key[..];
    var randSeq := new bv8[16](i requires 0 <= i < 16 reads w.eeprom => w.eeprom[i]);
    var zeroIv := new bv8[16](_ => 0);
    assert randSeq[..16] == randSeq[..] == e[..16];
    assert zeroIv[..] == Zeros(16);
    var aes := new AesDevice.Cipher128();
    aes.EncryptBuffer(randSeq, 16, w.key, zeroIv);
    assert randSeq[..16] == randSeq[..] == Validation(k, e[..16]);
    forall i | 0 <= i < 16 {
      zeroIv[i] := w.eeprom[16 + i];
    }
    assert zeroIv[..16] == e[16..];
    ok := MemCmp(randSeq, zeroIv, 16);
    assert w.eeprom[..] == e && w.key[..] == k;
    KeyMatchesIs(e, k);
  }

  /** encryption_update_validation */
  method UpdateValidation(w: Wallet) returns (ghost random: Draw)
    requires w.Valid()
    modifies w.key, w.fram, w.eeprom, w`log, w`poolSize, w`ticks
    ensures w.key[..] == old(w.key[..])
    ensures w.Since(old(w.Persistent()), old(w.log), ValidationWrites(w.key[..], random))
    ensures w.eeprom[..16] == DrawBytes(random) && w.eeprom[16..] == Cipher(w.key[..], w.eeprom[..16])
  {
    hide CbcEncrypt, ApplyAll, StoredDrawWrites, Cipher, KeyMatches;
    ghost var s, l := w.Persistent(), w.log;
    var randomSequence;
    randomSequence, random := StoreRandomSequence(w);
    ghost var bytes := DrawBytes(random);
    var zeroIv := new bv8[16](_ => 0);
    assert randomSequence[..16] == randomSequence[..] && zeroIv[..] == Zeros(16);
    var aes := new AesDevice.Cipher128();
    aes.EncryptBuffer(randomSequence, 16, w.key, zeroIv);
    assert randomSequence[..] == Validation(w.key[..], bytes);
    StoreValidation(w, randomSequence);
    w.SinceBoth(s, l, StoredDrawWrites(random), EepromWrites(16, Validation(w.key[..], bytes)));
    ValidationMatches(s, w.key[..], random);
    KeyMatchesIs(w.eeprom[..], w.key[..]);
    assert w.eeprom[..16] == w.eeprom[..][..16] && w.eeprom[16..] == w.eeprom[..][16..];
  }

  /** Its first loop: every random byte goes to the EEPROM as soon as it is drawn. */
  method StoreRandomSequence(w: Wallet) returns (randomSequence: array<bv8>, ghost random: Draw)
    requires w.Valid()
    modifies w.fram, w.eeprom, w`log, w`poolSize, w`ticks
    ensures fresh(randomSequence) && randomSequence.Length == 16 && randomSequence[..] == DrawBytes(random)
    ensures w.Since(old(w.Persistent()), old(w.log), StoredDrawWrites(random))
  {
    hide ApplyAll, PoolWrites, StoredDrawWrites;
    ghost var s, l := w.Persistent(), w.log;
    NothingStored(s);
    randomSequence := new bv8[16](_ => 0);
    ghost var drawn: seq<Drawn> := [];
    for i := 0 to 16
      invariant |drawn| == i && randomSequence[..i] == DrawBytes(drawn)
      invariant w.Since(s, l, StoredDrawWrites(drawn))
    {
      ghost var r;
      randomSequence[i], r := w.RandomRequestByte();
      w.SinceBoth(s, l, StoredDrawWrites(drawn), PoolWrites(r.pool));
      w.EepromUpdateByte(i, randomSequence[i]);
      w.SinceBoth(s, l, StoredDrawWrites(drawn) + PoolWrites(r.pool), [ToEeprom(i, r.byte)]);
      DrawOneMore(drawn, r);
      StoreOneMore(drawn, r);
      drawn := drawn + [r];
    }
    random := drawn;
    assert randomSequence[..16] == randomSequence[..];
  }

  lemma NothingStored(s: Store)
    ensures StoredDrawWrites([]) == [] && ApplyAll(s, []) == s
  {
  }

  /** Its second loop. */
  method StoreValidation(w: Wallet, b: array<bv8>)
    requires w.Valid() && b.Length == 16 && b != w.eeprom
    modifies w.eeprom, w`log
    ensures w.Since(old(w.Persistent()), old(w.log), EepromWrites(16, b[..]))
  {
    hide Splice, ApplyAll;
    ghost var e := w.eeprom[..];
    SpliceStart(e, 16, b[..]);
    for i := 0 to 16
      invariant w.eeprom[..] == Splice(e, 16, b[..][..i])
      invariant w.log == old(w.log) + EepromWrites(16, b[..][..i])
    {
      SpliceGrows(e, 16, b[..], i);
      EepromWritesGrow(16, b[..], i);
      w.EepromUpdateByte(16 + i, b[i]);
    }
    assert b[..][..16] == b[..];
    ApplyEepromWrites(old(w.Persistent()), 16, b[..]);
  }

  // ----- one credential under a new key -----

  /** Two blocks that differ in the enciphered part only, and there hold the same
    password and user name, each under its own key. */
  ghost predicate SameSecrets(a: seq<bv8>, ka: Block, b: seq<bv8>, kb: Block) {
    && |a| == |b| == SIZE_OF_PWD_BLOCK
    && b[..PWD_OFFSET_PWD_IV] == a[..PWD_OFFSET_PWD_IV]
    && TextIn(b, PWD_OFFSET_PWD_IV, PWD_OFFSET_PWD_DATA, 32, kb) == TextIn(a, PWD_OFFSET_PWD_IV, PWD_OFFSET_PWD_DATA, 32, ka)
    && TextIn(b, PWD_OFFSET_USR_IV, PWD_OFFSET_USR_NAME, 64, kb) == TextIn(a, PWD_OFFSET_USR_IV, PWD_OFFSET_USR_NAME, 64, ka)
  }

  /** What is compared is what the device reads, and the part of the block before the texts. */
  lemma SameSecretsIs(m: Image, k: Block, m': Image, k': Block, id: nat)
    requires id < CAPACITY
    ensures SameSecrets(BlockOf(m, id), k, BlockOf(m', id), k') <==>
      && DataOf(m', id, k') == DataOf(m, id, k) && UsrOf(m', id, k') == UsrOf(m, id, k)
      && BlockOf(m', id)[..PWD_OFFSET_PWD_IV] == BlockOf(m, id)[..PWD_OFFSET_PWD_IV]
  {
    hide TextIn, BlockOf;
  }

  /** A block with the texts it holds under k enciphered anew under k'. */
  function RekeyedBlock(b: seq<bv8>, k: Block, k': Block, iv: Block, iv': Block): (r: seq<bv8>)
    requires |b| == SIZE_OF_PWD_BLOCK
    ensures |r| == SIZE_OF_PWD_BLOCK
  {
    var data := TextIn(b, PWD_OFFSET_PWD_IV, PWD_OFFSET_PWD_DATA, 32, k);
    var usr := TextIn(b, PWD_OFFSET_USR_IV, PWD_OFFSET_USR_NAME, 64, k);
    WithText(WithText(b, PWD_OFFSET_PWD_IV, PWD_OFFSET_PWD_DATA, data, k', iv),
      PWD_OFFSET_USR_IV, PWD_OFFSET_USR_NAME, usr, k', iv')
  }

  /** Whatever the block holds, it reads under the new key as it did under the old one. */
  lemma RekeyedReadsSame(b: seq<bv8>, k: Block, k': Block, iv: Block, iv': Block)
    requires |b| == SIZE_OF_PWD_BLOCK
    ensures SameSecrets(b, k, RekeyedBlock(b, k, k', iv, iv'), k')
  {
    hide CbcEncrypt, CbcDecryptText, Strip, Splice;
    var di, d, ui, u := PWD_OFFSET_PWD_IV, PWD_OFFSET_PWD_DATA, PWD_OFFSET_USR_IV, PWD_OFFSET_USR_NAME;
    var data, usr := TextIn(b, di, d, 32, k), TextIn(b, ui, u, 64, k);
    StripIsText(CbcDecryptText(k, b[di..di + 16], b[d..d + 32]));
    StripIsText(CbcDecryptText(k, b[ui..ui + 16], b[u..u + 64]));
    hide TextIn, WithText;
    var b1 := WithText(b, di, d, data, k', iv);
    CredentialRoundTrip(b, di, d, data, k', iv);
    CredentialRoundTrip(b1, ui, u, usr, k', iv');
    OtherTextKept(b1, ui, u, usr, k', iv', di, d, 32, k');
    WithTextKeepsFront(b, di, d, data, k', iv, PWD_OFFSET_PWD_IV);
    WithTextKeepsFront(b1, ui, u, usr, k', iv', PWD_OFFSET_PWD_IV);
  }

  /** The writes of the two password_set functions; ivs has the draws of both IVs of each credential. */
  function SecretWrites(m: Image, id: nat, k: Block, k': Block, ivs: nat -> Draw): seq<Write>
    requires id < CAPACITY
  {
    DataWrites(id, DataOf(m, id, k), k', ivs(2 * id)) + UsrWrites(id, UsrOf(m, id, k), k', ivs(2 * id + 1))
  }

  /** Id and status of the backup as one step, see CutInsideCommit. */
  function Commit(id: nat): Step {
    FramWrites(OFFSET_BACKUP_ID, IdBytes(id)) + [StatusWrite(BACKUP_STATUS_CHANGE_KEY)]
  }

  function ChunkSteps(m: Image, id: nat, k: Block, k': Block, ivs: nat -> Draw): seq<Step>
    requires id < CAPACITY
  {
    Singly(FramWrites(OFFSET_BACKUP_DATA, BlockOf(m, id)))
    + [Commit(id)]
    + Singly(SecretWrites(m, id, k, k', ivs))
    + [[StatusWrite(BACKUP_STATUS_CHANGE_KEY_CHUNK_OK)]]
  }

  lemma ChunkFlat(m: Image, id: nat, k: Block, k': Block, ivs: nat -> Draw)
    requires id < CAPACITY
    ensures Flatten(ChunkSteps(m, id, k, k', ivs))
      == SaveWrites(m, id, BACKUP_STATUS_CHANGE_KEY) + SecretWrites(m, id, k, k', ivs)
         + [StatusWrite(BACKUP_STATUS_CHANGE_KEY_CHUNK_OK)]
  {
    hide SecretWrites, Singly, BlockOf, FramWrites;
    var data, secret := FramWrites(OFFSET_BACKUP_DATA, BlockOf(m, id)), SecretWrites(m, id, k, k', ivs);
    var last := StatusWrite(BACKUP_STATUS_CHANGE_KEY_CHUNK_OK);
    FlattenAppend(Singly(data) + [Commit(id)] + Singly(secret), [[last]]);
    FlattenAppend(Singly(data) + [Commit(id)], Singly(secret));
    FlattenAppend(Singly(data), [Commit(id)]);
    FlattenSingly(data);
    FlattenSingly(secret);
    FlattenOne(Commit(id));
    FlattenOne([last]);
  }

  lemma FlattenOne(step: Step)
    ensures Flatten([step]) == step
  {
    assert [step][1..] == [];
  }

  /** The draws with those of one credential put in. */
  ghost function WithDraws(ivs: nat -> Draw, id: nat, d: Draw, u: Draw): nat -> Draw {
    n => if n == 2 * id then d else if n == 2 * id + 1 then u else ivs(n)
  }

  /** The reading and setting of both texts in the innermost loop of encryption_update_key. */
  method RekeySecrets(w: Wallet, id: nat, newKey: array<bv8>, ghost ivs: nat -> Draw) returns (ghost ivs': nat -> Draw)
    requires w.Valid() && id < CAPACITY && newKey.Length == 16 && newKey !in {w.fram, w.eeprom, w.key}
    modifies newKey, w.key, w.fram, w`log, w`poolSize, w`ticks
    ensures w.key[..] == old(w.key[..]) && newKey[..] == old(newKey[..])
    ensures ivs' == WithDraws(ivs, id, ivs'(2 * id), ivs'(2 * id + 1))
    ensures w.Since(old(w.Persistent()), old(w.log), SecretWrites(old(w.fram[..]), id, w.key[..], newKey[..], ivs'))
    ensures DataOf(w.fram[..], id, newKey[..]) == old(DataOf(w.fram[..], id, w.key[..]))
    ensures UsrOf(w.fram[..], id, newKey[..]) == old(UsrOf(w.fram[..], id, w.key[..]))
    ensures SameOutside(old(w.Persistent()), w.Persistent(), PwdAddr(id, PWD_OFFSET_PWD_IV), PwdAddr(id, SIZE_OF_PWD_BLOCK))
  {
    hide ApplyAll, DataWrites, UsrWrites, DataOf, UsrOf, WithDataText, WithUsrText, WithPool, PoolOf, SameOutside;
    ghost var s, l, k, k' := w.Persistent(), w.log, w.key[..], newKey[..];
    ghost var data, usr := DataOf(s.fram, id, k), UsrOf(s.fram, id, k);
    var buffer := w.ReadData(id, w.key);
    ghost var d := w.SetData(id, buffer, newKey);
    UsrAfterSetData(s.fram, PoolOf(w.fram[..]), id, data, k', DrawBytes(d), k);
    buffer := w.ReadUsrName(id, w.key);
    ghost var u := w.SetUsrName(id, buffer, newKey);
    w.SinceBoth(s, l, DataWrites(id, data, k', d), UsrWrites(id, usr, k', u));
    ivs' := WithDraws(ivs, id, d, u);
    SecretsRead(s, id, k, k', ivs');
  }

  lemma SecretsRead(s: Store, id: nat, k: Block, k': Block, ivs: nat -> Draw)
    requires id < CAPACITY
    ensures
      var t := ApplyAll(s, SecretWrites(s.fram, id, k, k', ivs));
      && DataOf(t.fram, id, k') == DataOf(s.fram, id, k) && UsrOf(t.fram, id, k') == UsrOf(s.fram, id, k)
      && SameOutside(s, t, PwdAddr(id, PWD_OFFSET_PWD_IV), PwdAddr(id, SIZE_OF_PWD_BLOCK))
  {
    hide ApplyAll, SecretWrites, BlockOf, DataOf, UsrOf, SameSecrets, SameOutside, ViewOf, RekeyedIn, Within;
    var ws := SecretWrites(s.fram, id, k, k', ivs);
    AfterSecrets(s.fram, s, id, k, k', ivs);
    WritesStayWithin(s, ws, PwdAddr(id, PWD_OFFSET_PWD_IV), PwdAddr(id, SIZE_OF_PWD_BLOCK));
    ChunkSecrets(s.fram, id, k, k', ivs);
    BlockInView(ApplyAll(s, ws), id);
    SameSecretsIs(s.fram, k, ApplyAll(s, ws).fram, k', id);
  }

  /** The body of the innermost loop of encryption_update_key. */
  method RekeyChunk(w: Wallet, id: nat, newKey: array<bv8>, ghost ivs: nat -> Draw) returns (ghost ivs': nat -> Draw)
    requires w.Valid() && id < CAPACITY && newKey.Length == 16 && newKey !in {w.fram, w.eeprom, w.key}
    modifies newKey, w.key, w.fram, w`log, w`poolSize, w`ticks
    ensures w.key[..] == old(w.key[..]) && newKey[..] == old(newKey[..])
    ensures ivs' == WithDraws(ivs, id, ivs'(2 * id), ivs'(2 * id + 1))
    ensures w.Since(old(w.Persistent()), old(w.log),
      Flatten(ChunkSteps(old(w.fram[..]), id, w.key[..], newKey[..], ivs')))
  {
    hide ApplyAll, SaveWrites, SecretWrites, StatusOf, SavedId, SavedData, Flatten, ChunkSteps, WithDraws;
    ghost var s, l, k, k' := w.Persistent(), w.log, w.key[..], newKey[..];
    ghost var save := SaveWrites(s.fram, id, BACKUP_STATUS_CHANGE_KEY);
    BackupSave(w, id, BACKUP_STATUS_CHANGE_KEY);
    SaveCompletes(s, id, BACKUP_STATUS_CHANGE_KEY);
    ghost var s1 := w.Persistent();
    ivs' := RekeySecrets(w, id, newKey, ivs);
    ghost var ws := SecretWrites(s.fram, id, k, k', ivs');
    SecretsAfterSave(s, s1, id, k, k', ivs');
    w.SinceBoth(s, l, save, ws);
    w.FramWriteByte(OFFSET_BACKUP_STATUS, BACKUP_STATUS_CHANGE_KEY_CHUNK_OK);
    w.SinceBoth(s, l, save + ws, [StatusWrite(BACKUP_STATUS_CHANGE_KEY_CHUNK_OK)]);
    ChunkFlat(s.fram, id, k, k', ivs');
  }

  lemma SecretsAfterSave(s: Store, t: Store, id: nat, k: Block, k': Block, ivs: nat -> Draw)
    requires id < CAPACITY && SameOutside(s, t, OFFSET_BACKUP_STATUS, OFFSET_FIRST_PWD)
    ensures SecretWrites(t.fram, id, k, k', ivs) == SecretWrites(s.fram, id, k, k', ivs)
  {
    hide TextIn, BlockOf, SameOutside, DataWrites, UsrWrites;
    BackupAreaApart(s, t, id);
  }

  lemma UsrAfterSetData(m: Image, pool: seq<bv8>, id: nat, text: seq<bv8>, k': Block, iv: Block, k: Block)
    requires id < CAPACITY && |text| == 32 && |pool| == SIZE_ENTROPY_POOL
    ensures UsrOf(WithDataText(WithPool(m, pool), id, text, k', iv), id, k) == UsrOf(m, id, k)
  {
    hide TextIn, WithText, BlockOf, WithPool;
    var m1 := WithPool(m, pool);
    PoolApart(m, pool, id);
    assert UsrOf(m1, id, k) == UsrOf(m, id, k);
    hide UsrOf;
    UsrOfIs(m1, id, k);
    UsrOfIs(WithDataText(m1, id, text, k', iv), id, k);
    OtherTextKept(m1, PwdAddr(id, PWD_OFFSET_PWD_IV), PwdAddr(id, PWD_OFFSET_PWD_DATA), text, k', iv,
      PwdAddr(id, PWD_OFFSET_USR_IV), PwdAddr(id, PWD_OFFSET_USR_NAME), 64, k);
  }

  // ----- what the steps of a chunk do -----

  lemma AfterCopy(s: Store, id: nat)
    requires id < CAPACITY
    ensures
      var t := ApplyAll(s, FramWrites(OFFSET_BACKUP_DATA, BlockOf(s.fram, id)));
      ViewOf(t) == ViewOf(s).(savedData := BlockOf(s.fram, id))
  {
    hide ApplyAll, Splice;
    var b := BlockOf(s.fram, id);
    var t := s.(fram := Splice(s.fram, OFFSET_BACKUP_DATA, b));
    ApplyFramWrites(s, OFFSET_BACKUP_DATA, b);
    SplicedOutside(s, OFFSET_BACKUP_DATA, b);
    ViewAfterBackupData(s, t);
  }

  lemma SplicedOutside(s: Store, addr: nat, b: seq<bv8>)
    requires addr + |b| <= FRAM_BYTE_SIZE
    ensures SameOutside(s, s.(fram := Splice(s.fram, addr, b)), addr, addr + |b|)
  {
  }

  lemma AfterCommit(s: Store, id: nat)
    requires id < CAPACITY
    ensures ViewOf(ApplyAll(s, Commit(id))) == ViewOf(s).(savedId := id, status := BACKUP_STATUS_CHANGE_KEY)
  {
    hide ApplyAll, Splice, IdBytes, IdOf;
    ApplyAppend(s, FramWrites(OFFSET_BACKUP_ID, IdBytes(id)), [StatusWrite(BACKUP_STATUS_CHANGE_KEY)]);
    ApplyFramWrites(s, OFFSET_BACKUP_ID, IdBytes(id));
    var s1 := s.(fram := Splice(s.fram, OFFSET_BACKUP_ID, IdBytes(id)));
    SplicedOutside(s, OFFSET_BACKUP_ID, IdBytes(id));
    ViewAfterBackupId(s, s1);
    IdRoundTrip(id);
    assert s1.fram[OFFSET_BACKUP_ID..OFFSET_BACKUP_DATA] == IdBytes(id);
    assert s1.fram[OFFSET_BACKUP_ID] == s1.fram[OFFSET_BACKUP_ID..OFFSET_BACKUP_DATA][0];
    assert s1.fram[OFFSET_BACKUP_ID + 1] == s1.fram[OFFSET_BACKUP_ID..OFFSET_BACKUP_DATA][1];
    ApplyOne(s1, StatusWrite(BACKUP_STATUS_CHANGE_KEY));
    ViewAfterStatus(s1, BACKUP_STATUS_CHANGE_KEY);
  }

  lemma ViewAfterBackupId(s: Store, t: Store)
    requires SameOutside(s, t, OFFSET_BACKUP_ID, OFFSET_BACKUP_DATA)
    ensures ViewOf(t) == ViewOf(s).(savedId := SavedId(t.fram))
  {
    BlocksKept(s, t, OFFSET_BACKUP_ID, OFFSET_BACKUP_DATA);
    HeadKept(s, t, OFFSET_BACKUP_ID, OFFSET_BACKUP_DATA);
    SliceKept(s, t, OFFSET_BACKUP_ID, OFFSET_BACKUP_DATA, OFFSET_BACKUP_DATA, OFFSET_FIRST_PWD);
  }

  function RekeyedIn(m: Image, id: nat, k: Block, k': Block, ivs: nat -> Draw): (b: seq<bv8>)
    requires id < CAPACITY
    ensures |b| == SIZE_OF_PWD_BLOCK
  {
    RekeyedBlock(BlockOf(m, id), k, k', DrawBytes(ivs(2 * id)), DrawBytes(ivs(2 * id + 1)))
  }

  lemma AfterSecrets(m: Image, s: Store, id: nat, k: Block, k': Block, ivs: nat -> Draw)
    requires id < CAPACITY && BlockOf(s.fram, id) == BlockOf(m, id)
    ensures
      var ws := SecretWrites(m, id, k, k', ivs);
      && Within(ws, PwdAddr(id, PWD_OFFSET_PWD_IV), PwdAddr(id, SIZE_OF_PWD_BLOCK))
      && ViewOf(ApplyAll(s, ws)) == ViewOf(s).(blocks := ViewOf(s).blocks[id := RekeyedIn(m, id, k, k', ivs)])
  {
    hide TextIn, WithText, TextWrites, ApplyAll, BlockOf, SameOutside;
    var data, usr := DataOf(m, id, k), UsrOf(m, id, k);
    var ws, ws' := DataWrites(id, data, k', ivs(2 * id)), UsrWrites(id, usr, k', ivs(2 * id + 1));
    var s1 := ApplyAll(s, ws);
    TextWritten(s, id, PWD_OFFSET_PWD_IV, PWD_OFFSET_PWD_DATA, data, k', ivs(2 * id));
    TextWritten(s1, id, PWD_OFFSET_USR_IV, PWD_OFFSET_USR_NAME, usr, k', ivs(2 * id + 1));
    ApplyAppend(s, ws, ws');
    var lo, hi := PwdAddr(id, PWD_OFFSET_PWD_IV), PwdAddr(id, SIZE_OF_PWD_BLOCK);
    WithinBoth(ws, ws', lo, PwdAddr(id, PWD_OFFSET_USR_IV), hi);
    WritesStayWithin(s, ws + ws', lo, hi);
    ViewAfterBlock(s, ApplyAll(s1, ws'), id, PWD_OFFSET_PWD_IV);
  }

  lemma WithinBoth(a: seq<Write>, b: seq<Write>, lo: nat, lo': nat, hi: nat)
    requires lo <= lo' && Within(a, lo, hi) && Within(b, lo', hi)
    ensures Within(a + b, lo, hi)
  {
  }

  /** One chunk as a whole: its block now holds the same texts under the new key, and
    the backup says so. */
  lemma ChunkView(s: Store, id: nat, k: Block, k': Block, ivs: nat -> Draw)
    requires id < CAPACITY
    ensures ViewOf(RunSteps(s, ChunkSteps(s.fram, id, k, k', ivs))) ==
      ViewOf(s).(status := BACKUP_STATUS_CHANGE_KEY_CHUNK_OK, savedId := id, savedData := BlockOf(s.fram, id),
                 blocks := ViewOf(s).blocks[id := RekeyedIn(s.fram, id, k, k', ivs)])
  {
    hide ApplyAll, RunSteps, FramWrites, SecretWrites, Commit, ViewOf, Singly, BlockOf, RekeyedIn;
    var s1, s2, s3 := ChunkStates(s, id, k, k', ivs);
    AfterCopy(s, id);
    AfterCommit(s1, id);
    SameBlock(s, s2, id);
    AfterSecrets(s.fram, s2, id, k, k', ivs);
    ViewAfterStatus(s3, BACKUP_STATUS_CHANGE_KEY_CHUNK_OK);
  }

  lemma SameBlock(s: Store, t: Store, id: nat)
    requires id < CAPACITY && ViewOf(t).blocks == ViewOf(s).blocks
    ensures BlockOf(t.fram, id) == BlockOf(s.fram, id)
  {
    assert ViewOf(t).blocks[id] == BlockOf(t.fram, id) && ViewOf(s).blocks[id] == BlockOf(s.fram, id);
  }

  /** The memories between the parts of a chunk. */
  lemma ChunkStates(s: Store, id: nat, k: Block, k': Block, ivs: nat -> Draw)
    returns (copied: Store, committed: Store, rekeyed: Store)
    requires id < CAPACITY
    ensures copied == ApplyAll(s, FramWrites(OFFSET_BACKUP_DATA, BlockOf(s.fram, id)))
    ensures committed == ApplyAll(copied, Commit(id))
    ensures rekeyed == ApplyAll(committed, SecretWrites(s.fram, id, k, k', ivs))
    ensures RunSteps(s, ChunkSteps(s.fram, id, k, k', ivs))
      == Apply(rekeyed, StatusWrite(BACKUP_STATUS_CHANGE_KEY_CHUNK_OK))
  {
    hide ApplyAll, FramWrites, SecretWrites, Commit, Singly, BlockOf, RunSteps;
    var data, secret := FramWrites(OFFSET_BACKUP_DATA, BlockOf(s.fram, id)), SecretWrites(s.fram, id, k, k', ivs);
    var last := StatusWrite(BACKUP_STATUS_CHANGE_KEY_CHUNK_OK);
    copied := ApplyAll(s, data);
    committed := ApplyAll(copied, Commit(id));
    rekeyed := ApplyAll(committed, secret);
    RunAppend(s, Singly(data) + [Commit(id)] + Singly(secret), [[last]]);
    RunAppend(s, Singly(data) + [Commit(id)], Singly(secret));
    RunAppend(s, Singly(data), [Commit(id)]);
    RunSingly(s, data);
    RunSingly(committed, secret);
    RunOne(copied, Commit(id));
    RunOne(rekeyed, [last]);
    ApplyOne(rekeyed, last);
  }

  lemma RunOne(s: Store, step: Step)
    ensures RunSteps(s, [step]) == ApplyAll(s, step)
  {
    assert [step][1..] == [];
  }

  // ----- all credentials -----

  /** Where the loop of encryption_update_key ends. As written, `j` is not reset to 0 when
    `i` advances, so the loop ends with the byte of the memory map it began in. */
  function RekeyLimit(start: nat, resets: bool): nat {
    var byteEnd := 8 * (start / 8) + 8;
    if resets || byteEnd > MAXIMUM_NUMBER_OF_PWD then MAXIMUM_NUMBER_OF_PWD else byteEnd
  }

  /** The last bit of the memory map that the loops look at belongs to a block that is
    partly outside the FRAM; the guard of adding never lets it be set. */
  predicate MapFits(m: seq<bv8>)
    requires |m| >= OFFSET_BACKUP_STATUS
  {
    !Used(m, CAPACITY)
  }

  predicate AllFit(ids: seq<nat>) {
    forall i: nat | i < |ids| :: ids[i] < CAPACITY
  }

  /** The ids the loop processes. */
  function RekeyIds(m: seq<bv8>, start: nat, resets: bool): (ids: seq<nat>)
    requires |m| >= OFFSET_BACKUP_STATUS
    ensures MapFits(m) ==> AllFit(ids)
  {
    UsedFit(m, start, RekeyLimit(start, resets));
    UsedFrom(m, start, RekeyLimit(start, resets))
  }

  lemma UsedFit(m: seq<bv8>, lo: nat, hi: nat)
    requires |m| >= OFFSET_BACKUP_STATUS && hi <= MAXIMUM_NUMBER_OF_PWD
    ensures MapFits(m) ==> AllFit(UsedFrom(m, lo, hi))
  {
    hide Used;
    var ids := UsedFrom(m, lo, hi);
    if MapFits(m) {
      forall i: nat | i < |ids|
        ensures ids[i] < CAPACITY
      {
        assert ids[i] < hi && Used(m, ids[i]) && ids[i] != CAPACITY;
      }
    }
  }

  /** One by one: from the start on, and unless the counter is reset only in the byte of the
    memory map that the start is in. */
  lemma ProcessedIds(m: seq<bv8>, start: nat, resets: bool, id: nat)
    requires |m| >= OFFSET_BACKUP_STATUS
    ensures id in RekeyIds(m, start, resets) <==>
      start <= id < MAXIMUM_NUMBER_OF_PWD && Used(m, id) && (resets || id / 8 == start / 8)
  {
    hide Used;
    var ids := RekeyIds(m, start, resets);
    if id in ids {
      var i :| 0 <= i < |ids| && ids[i] == id;
    }
  }

  function RekeySteps(s: Store, ids: seq<nat>, k: Block, k': Block, ivs: nat -> Draw): seq<Step>
    requires AllFit(ids)
    decreases |ids|
  {
    if ids == [] then []
    else
      var chunk := ChunkSteps(s.fram, ids[0], k, k', ivs);
      chunk + RekeySteps(RunSteps(s, chunk), ids[1..], k, k', ivs)
  }

  lemma ChunkKeepsHead(s: Store, id: nat, k: Block, k': Block, ivs: nat -> Draw)
    requires id < CAPACITY
    ensures
      var t := RunSteps(s, ChunkSteps(s.fram, id, k, k', ivs));
      HeadOf(t.fram) == HeadOf(s.fram)
  {
    hide RunSteps, ChunkSteps, ViewOf, HeadOf;
    ChunkView(s, id, k, k', ivs);
    PartsOf(s);
    PartsOf(RunSteps(s, ChunkSteps(s.fram, id, k, k', ivs)));
  }

  /** One more credential behind those that are done; its draws are put in afterwards. */
  lemma {:induction false} RekeyOneMore(s: Store, ids: seq<nat>, id: nat, k: Block, k': Block,
                                        ivs: nat -> Draw, ivs': nat -> Draw)
    requires AllFit(ids) && id < CAPACITY && id !in ids
    requires ivs' == WithDraws(ivs, id, ivs'(2 * id), ivs'(2 * id + 1))
    ensures AllFit(ids + [id])
    ensures
      var t := RunSteps(s, RekeySteps(s, ids, k, k', ivs));
      RekeySteps(s, ids + [id], k, k', ivs') == RekeySteps(s, ids, k, k', ivs) + ChunkSteps(t.fram, id, k, k', ivs')
    decreases |ids|
  {
    hide RunSteps, ChunkSteps;
    if ids == [] {
      RunNothing(s);
      assert [id][1..] == [];
    } else {
      var chunk := ChunkSteps(s.fram, ids[0], k, k', ivs);
      var s1 := RunSteps(s, chunk);
      SameDraws(s.fram, ids[0], k, k', ivs, ivs', id);
      assert (ids + [id])[0] == ids[0] && (ids + [id])[1..] == ids[1..] + [id];
      RekeyOneMore(s1, ids[1..], id, k, k', ivs, ivs');
      RunAppend(s, chunk, RekeySteps(s1, ids[1..], k, k', ivs));
      var t := RunSteps(s1, RekeySteps(s1, ids[1..], k, k', ivs));
      assert chunk + (RekeySteps(s1, ids[1..], k, k', ivs) + ChunkSteps(t.fram, id, k, k', ivs'))
          == chunk + RekeySteps(s1, ids[1..], k, k', ivs) + ChunkSteps(t.fram, id, k, k', ivs');
    }
  }

  lemma SameDraws(m: Image, id: nat, k: Block, k': Block, ivs: nat -> Draw, ivs': nat -> Draw, other: nat)
    requires id < CAPACITY && id != other
    requires ivs' == WithDraws(ivs, other, ivs'(2 * other), ivs'(2 * other + 1))
    ensures ChunkSteps(m, id, k, k', ivs') == ChunkSteps(m, id, k, k', ivs)
  {
    hide DataWrites, UsrWrites;
    assert ivs'(2 * id) == ivs(2 * id) && ivs'(2 * id + 1) == ivs(2 * id + 1);
  }

  /** What the loop has done so far, starting from `s` with the log `l`. */
  ghost predicate Rekeyed(w: Wallet, s: Store, l: seq<Write>, ids: seq<nat>, k: Block, k': Block, ivs: nat -> Draw)
    requires w.Valid() && AllFit(ids)
    reads w, w.fram, w.eeprom
  {
    w.Since(s, l, Flatten(RekeySteps(s, ids, k, k', ivs))) && HeadOf(w.fram[..]) == HeadOf(s.fram)
  }

  /** A chunk as part of a run that has done the credentials `done`. */
  method RekeyNext(w: Wallet, id: nat, newKey: array<bv8>, ghost s: Store, ghost l: seq<Write>, ghost done: seq<nat>,
                   ghost ivs: nat -> Draw) returns (ghost ivs': nat -> Draw)
    requires w.Valid() && id < CAPACITY && newKey.Length == 16 && newKey !in {w.fram, w.eeprom, w.key}
    requires AllFit(done) && id !in done && Rekeyed(w, s, l, done, w.key[..], newKey[..], ivs)
    modifies newKey, w.key, w.fram, w`log, w`poolSize, w`ticks
    ensures w.key[..] == old(w.key[..]) && newKey[..] == old(newKey[..])
    ensures AllFit(done + [id]) && Rekeyed(w, s, l, done + [id], w.key[..], newKey[..], ivs')
  {
    hide RekeySteps, Flatten, ApplyAll, ChunkSteps, HeadOf, RunSteps, WithDraws;
    ghost var s1, k, k' := w.Persistent(), w.key[..], newKey[..];
    ghost var before := RekeySteps(s, done, k, k', ivs);
    RunIsApply(s, before);
    ivs' := RekeyChunk(w, id, newKey, ivs);
    ghost var chunk := ChunkSteps(s1.fram, id, k, k', ivs');
    RunIsApply(s1, chunk);
    ChunkKeepsHead(s1, id, k, k', ivs');
    RekeyOneMore(s, done, id, k, k', ivs, ivs');
    FlattenAppend(before, chunk);
    w.SinceBoth(s, l, Flatten(before), Flatten(chunk));
  }

  /** The inner loop of encryption_update_key, over the bits of one byte of the memory map;
    `hi` is where the ids to process end. */
  method RekeyByte(w: Wallet, newKey: array<bv8>, i: nat, from: nat, ghost s: Store, ghost l: seq<Write>,
                   ghost done: seq<nat>, ghost ivs: nat -> Draw, ghost lo: nat, ghost hi: nat)
    returns (j: nat, ghost done': seq<nat>, ghost ivs': nat -> Draw)
    requires w.Valid() && newKey.Length == 16 && newKey !in {w.fram, w.eeprom, w.key}
    requires i < SIZE_MEMORY_MAP && from <= 8 && MapFits(s.fram)
    requires lo <= 8 * i + from && hi <= MAXIMUM_NUMBER_OF_PWD && (from < 8 ==> hi == MAXIMUM_NUMBER_OF_PWD || hi == 8 * i + 8)
    requires AllFit(done) && Rekeyed(w, s, l, done, w.key[..], newKey[..], ivs)
    requires done == UsedFrom(s.fram, lo, Least(8 * i + from, hi))
    modifies newKey, w.key, w.fram, w`log, w`poolSize, w`ticks
    ensures w.key[..] == old(w.key[..]) && newKey[..] == old(newKey[..])
    ensures j == 8 && AllFit(done') && Rekeyed(w, s, l, done', w.key[..], newKey[..], ivs')
    ensures done' == UsedFrom(s.fram, lo, Least(8 * i + 8, hi))
  {
    hide Rekeyed, Used, UsedFrom, AllFit, Bit, HeadOf, MapFits, Least;
    ghost var k, k' := w.key[..], newKey[..];
    j, done', ivs' := from, done, ivs;
    var memoryByte := w.fram[OFFSET_MEMORY_MAP + i];
    RekeyedMap(w, s, l, done, k, k', ivs, i);
    while j < 8
      invariant from <= j <= 8 && AllFit(done') && done' == UsedFrom(s.fram, lo, Least(8 * i + j, hi))
      invariant w.key[..] == k && newKey[..] == k' && Rekeyed(w, s, l, done', k, k', ivs')
    {
      var id := i * 8 + j;
      LeastStep(id, hi, 8 * i + 8);
      if id < MAXIMUM_NUMBER_OF_PWD {
        MapBit(s.fram, i, j, memoryByte);
        UsedOneMore(s.fram, lo, id);
        if Bit(memoryByte, j) {
          ivs' := RekeyNext(w, id, newKey, s, l, done', ivs');
          done' := done' + [id];
        }
      }
      j := j + 1;
    }
  }

  function Least(a: nat, b: nat): (l: nat)
    ensures l <= a && l <= b
  {
    if a <= b then a else b
  }

  lemma LeastStep(id: nat, hi: nat, byteEnd: nat)
    requires hi <= MAXIMUM_NUMBER_OF_PWD && id < byteEnd && (hi == MAXIMUM_NUMBER_OF_PWD || hi == byteEnd)
    ensures id < MAXIMUM_NUMBER_OF_PWD ==> Least(id, hi) == id && Least(id + 1, hi) == id + 1
    ensures id >= MAXIMUM_NUMBER_OF_PWD ==> Least(id, hi) == Least(id + 1, hi) == hi
  {
  }

  /** The memory map is as it was. */
  lemma RekeyedMap(w: Wallet, s: Store, l: seq<Write>, done: seq<nat>, k: Block, k': Block, ivs: nat -> Draw, i: nat)
    requires w.Valid() && AllFit(done) && Rekeyed(w, s, l, done, k, k', ivs) && i < SIZE_MEMORY_MAP
    ensures w.fram[OFFSET_MEMORY_MAP + i] == s.fram[OFFSET_MEMORY_MAP + i]
  {
    hide HeadOf;
    SameHead(s.fram, w.fram[..]);
    assert w.fram[..][OFFSET_MEMORY_MAP + i] == s.fram[OFFSET_MEMORY_MAP + i];
  }

  /** The next id behind those in use below it. */
  lemma UsedOneMore(m: Image, lo: nat, id: nat)
    requires lo <= id < MAXIMUM_NUMBER_OF_PWD && MapFits(m)
    ensures UsedFrom(m, lo, id + 1) == UsedFrom(m, lo, id) + if Used(m, id) then [id] else []
    ensures id !in UsedFrom(m, lo, id) && AllFit(UsedFrom(m, lo, id)) && (Used(m, id) ==> id < CAPACITY)
  {
    UsedBounds(m, lo, id);
    assert Used(m, id) ==> id != CAPACITY;
    hide Used, UsedFrom, AllFit, MapFits;
    UsedSplit(m, lo, id, id + 1);
    UsedAlone(m, id);
  }

  lemma UsedAlone(m: Image, id: nat)
    requires id < MAXIMUM_NUMBER_OF_PWD
    ensures UsedFrom(m, id, id + 1) == if Used(m, id) then [id] else []
  {
    hide Used;
    UsedBeyond(m, id + 1, id + 1);
  }

  lemma UsedBounds(m: Image, lo: nat, id: nat)
    requires id < MAXIMUM_NUMBER_OF_PWD
    ensures id !in UsedFrom(m, lo, id) && AllFit(UsedFrom(m, lo, id))
  {
    hide Used;
  }

  /** encryption_update_key. With `resets` the inner counter starts at 0 again in every
    byte of the memory map; without, the loop is as written. */
  method UpdateKey(w: Wallet, newKey: array<bv8>, start: nat, resets: bool) returns (ghost ivs: nat -> Draw)
    requires w.Valid() && newKey.Length == 16 && newKey !in {w.fram, w.eeprom, w.key}
    requires start < 8 * 256 && MapFits(w.fram[..])
    modifies newKey, w.key, w.fram, w`log, w`poolSize, w`ticks
    ensures newKey[..] == old(newKey[..]) && w.key[..] == newKey[..]
    ensures w.Since(old(w.Persistent()), old(w.log),
      Flatten(RekeySteps(old(w.Persistent()), RekeyIds(old(w.fram[..]), start, resets), old(w.key[..]), newKey[..], ivs)))
  {
    hide Rekeyed, Used, UsedFrom, MapFits, AllFit, RekeyLimit, Least, RekeyIds, ApplyAll, Flatten, RekeySteps;
    ghost var s, l, k: Block, k': Block := w.Persistent(), w.log, w.key[..], newKey[..];
    ghost var hi, done: seq<nat> := RekeyLimit(start, resets), [];
    ivs := _ => seq(16, _ => Drawn(0, []));
    NothingRekeyed(w, s, l, k, k', ivs);
    var i, j := start / 8, start % 8;
    LoopBegins(s.fram, start, resets);
    while i < SIZE_MEMORY_MAP
      invariant start / 8 <= i && (i > start / 8 ==> i <= SIZE_MEMORY_MAP)
      invariant j == FirstBit(start, i, resets)
      invariant AllFit(done) && Rekeyed(w, s, l, done, k, k', ivs)
      invariant done == UsedFrom(s.fram, start, Least(8 * i + j, hi))
      invariant w.key[..] == k && newKey[..] == k'
    {
      LoopInByte(start, i, resets);
      j, done, ivs := RekeyByte(w, newKey, i, j, s, l, done, ivs, start, hi);
      i := i + 1;
      if resets {
        j := 0;
      }
    }
    LoopEnds(s.fram, start, i, resets);
    RekeyedIs(w, s, l, done, k, k', ivs);
    CopyKey(newKey, w.key);
  }

  /** Where the inner loop begins in byte i of the memory map. */
  function FirstBit(start: nat, i: nat, resets: bool): nat {
    if i == start / 8 then start % 8 else if resets then 0 else 8
  }

  lemma LoopBegins(m: Image, start: nat, resets: bool)
    ensures RekeyLimit(start, resets) <= MAXIMUM_NUMBER_OF_PWD && FirstBit(start, start / 8, resets) == start % 8
    ensures 8 * (start / 8) + start % 8 == start && UsedFrom(m, start, Least(start, RekeyLimit(start, resets))) == []
  {
    UsedBeyond(m, start, Least(start, RekeyLimit(start, resets)));
  }

  lemma LoopInByte(start: nat, i: nat, resets: bool)
    requires start / 8 <= i
    ensures
      var j, hi := FirstBit(start, i, resets), RekeyLimit(start, resets);
      && start <= 8 * i + j && j <= 8 && (j < 8 ==> hi == MAXIMUM_NUMBER_OF_PWD || hi == 8 * i + 8)
      && FirstBit(start, i + 1, resets) == (if resets then 0 else 8)
      && Least(8 * i + 8, hi) == Least(8 * (i + 1) + FirstBit(start, i + 1, resets), hi)
  {
  }

  lemma LoopEnds(m: Image, start: nat, i: nat, resets: bool)
    requires start / 8 <= i && SIZE_MEMORY_MAP <= i
    ensures UsedFrom(m, start, Least(8 * i + FirstBit(start, i, resets), RekeyLimit(start, resets))) == RekeyIds(m, start, resets)
  {
    var hi := RekeyLimit(start, resets);
    UsedBeyond(m, start, hi);
    UsedBeyond(m, start, Least(8 * i + FirstBit(start, i, resets), hi));
    hide UsedFrom;
  }

  lemma NothingRekeyed(w: Wallet, s: Store, l: seq<Write>, k: Block, k': Block, ivs: nat -> Draw)
    requires w.Valid() && w.Persistent() == s && w.log == l
    ensures AllFit([]) && Rekeyed(w, s, l, [], k, k', ivs)
  {
    assert w.log == l + [];
  }

  lemma RekeyedIs(w: Wallet, s: Store, l: seq<Write>, ids: seq<nat>, k: Block, k': Block, ivs: nat -> Draw)
    requires w.Valid() && AllFit(ids) && Rekeyed(w, s, l, ids, k, k', ivs)
    ensures w.Since(s, l, Flatten(RekeySteps(s, ids, k, k', ivs)))
  {
    hide RekeySteps, Flatten, ApplyAll;
  }

  method CopyKey(from: array<bv8>, to: array<bv8>)
    requires from.Length == to.Length == 16 && from != to
    modifies to
    ensures to[..] == from[..]
  {
    for i := 0 to 16
      invariant forall a | 0 <= a < i :: to[a] == from[a]
    {
      to[i] := from[i];
    }
  }

  // ----- which credentials, and what becomes of them -----

  /** The loop reaches every credential: it resets its counter, or no id past the first
    byte of the memory map is in use. */
  ghost predicate Covers(m: seq<bv8>, resets: bool)
    requires |m| >= OFFSET_BACKUP_STATUS
  {
    resets || forall id: nat | 8 <= id < MAXIMUM_NUMBER_OF_PWD :: !Used(m, id)
  }

  /** A full run processes exactly the ids in use if and only if the loop covers them. */
  lemma FullCoverage(m: seq<bv8>, resets: bool)
    requires |m| >= OFFSET_BACKUP_STATUS
    ensures RekeyIds(m, 0, resets) == UsedFrom(m, 0, MAXIMUM_NUMBER_OF_PWD) <==> Covers(m, resets)
  {
    hide Used, UsedFrom;
    var first, rest := UsedFrom(m, 0, 8), UsedFrom(m, 8, MAXIMUM_NUMBER_OF_PWD);
    UsedSplit(m, 0, 8, MAXIMUM_NUMBER_OF_PWD);
    NoneUsed(m, 8, MAXIMUM_NUMBER_OF_PWD);
    assert |first + rest| == |first| + |rest|;
    assert RekeyLimit(0, resets) == if resets then MAXIMUM_NUMBER_OF_PWD else 8;
  }

  /** A covering loop also covers what is left from any id on. */
  lemma CoverageFrom(m: seq<bv8>, start: nat, resets: bool)
    requires |m| >= OFFSET_BACKUP_STATUS && Covers(m, resets)
    ensures RekeyIds(m, start, resets) == UsedFrom(m, start, MAXIMUM_NUMBER_OF_PWD)
  {
    hide Used, UsedFrom;
    var limit := RekeyLimit(start, resets);
    if start >= 8 && !resets {
      NoneUsed(m, start, limit);
      NoneUsed(m, start, MAXIMUM_NUMBER_OF_PWD);
    } else if !resets {
      UsedSplit(m, start, 8, MAXIMUM_NUMBER_OF_PWD);
      NoneUsed(m, 8, MAXIMUM_NUMBER_OF_PWD);
    }
  }

  /** Whatever the FRAM holds, the processed credentials read under the new key as they
    did under the old one, and nothing else changes but the backup area. */
  lemma {:induction false} RekeyMeaning(s: Store, ids: seq<nat>, k: Block, k': Block, ivs: nat -> Draw)
    requires AllFit(ids) && Ascending(ids)
    ensures
      var t := RunSteps(s, RekeySteps(s, ids, k, k', ivs));
      && (forall id: nat | id < CAPACITY :: if id in ids
            then SameSecrets(BlockOf(s.fram, id), k, BlockOf(t.fram, id), k')
            else BlockOf(t.fram, id) == BlockOf(s.fram, id))
      && ViewOf(t) == ViewOf(s).(status := StatusOf(t.fram), savedId := SavedId(t.fram),
           savedData := SavedData(t.fram), blocks := ViewOf(t).blocks)
      && StatusOf(t.fram) == if ids == [] then StatusOf(s.fram) else BACKUP_STATUS_CHANGE_KEY_CHUNK_OK
    decreases |ids|
  {
    hide RunSteps, ChunkSteps, BlockOf, StatusOf, SavedId, SavedData, SameSecrets, RekeyedIn;
    if ids == [] {
      RunNothing(s);
    } else {
      var chunk := ChunkSteps(s.fram, ids[0], k, k', ivs);
      var s1 := RunSteps(s, chunk);
      ChunkView(s, ids[0], k, k', ivs);
      ChunkSecrets(s.fram, ids[0], k, k', ivs);
      RunAppend(s, chunk, RekeySteps(s1, ids[1..], k, k', ivs));
      RekeyMeaning(s1, ids[1..], k, k', ivs);
      forall id: nat | id < CAPACITY
        ensures BlockOf(s1.fram, id) == if id == ids[0] then RekeyedIn(s.fram, id, k, k', ivs) else BlockOf(s.fram, id)
      {
        BlockInView(s1, id);
        BlockInView(s, id);
      }
      assert forall id | id in ids[1..] :: id > ids[0];
    }
  }

  lemma RunNothing(s: Store)
    ensures RunSteps(s, []) == s
  {
  }

  lemma ChunkSecrets(m: Image, id: nat, k: Block, k': Block, ivs: nat -> Draw)
    requires id < CAPACITY
    ensures SameSecrets(BlockOf(m, id), k, RekeyedIn(m, id, k, k', ivs), k')
  {
    RekeyedReadsSame(BlockOf(m, id), k, k', DrawBytes(ivs(2 * id)), DrawBytes(ivs(2 * id + 1)));
  }
}
