/** The persistent memories part by part: what a crash argument talks about. */
module Views {
  import opened Bytes
  import opened Aes
  import opened Cbc
  import opened Memory
  import opened Crash
  import opened Random
  import opened Device
  import opened Backup

  datatype View = View(
    head: seq<bv8>,  // list heads, counter and memory map
    status: bv8, savedId: nat, savedData: seq<bv8>,  // backup area
    blocks: seq<seq<bv8>>,
    tail: seq<bv8>,
    card: Block, temp: Block, eeprom: Eeprom)

  function ViewOf(s: Store): (v: View)
    ensures |v.head| == OFFSET_BACKUP_STATUS && |v.savedData| == SIZE_OF_PWD_BLOCK && |v.blocks| == CAPACITY
    ensures forall id: nat | id < CAPACITY :: |v.blocks[id]| == SIZE_OF_PWD_BLOCK
  {
    View(HeadOf(s.fram),
      StatusOf(s.fram), SavedId(s.fram), SavedData(s.fram),
      seq(CAPACITY, id requires 0 <= id < CAPACITY => BlockOf(s.fram, id)),
      s.fram[PwdAddr(CAPACITY, 0)..],
      s.card, s.temp, s.eeprom)
  }

  /** A view loses nothing but the entropy pool. */
  lemma ViewIsAll(s: Store, t: Store)
    ensures ViewOf(s) == ViewOf(t) <==> SameOutside(s, t, 0, 0)
  {
    if ViewOf(s) == ViewOf(t) {
      forall a: nat | a < FRAM_BYTE_SIZE && !InPool(a)
        ensures s.fram[a] == t.fram[a]
      {
        SameByte(s, t, a);
      }
    }
    if SameOutside(s, t, 0, 0) {
      ViewAfterPool(s, t);
    }
  }

  /** Random bytes that are drawn do not show. */
  lemma ViewAfterPool(s: Store, t: Store)
    requires SameOutside(s, t, 0, 0)
    ensures ViewOf(t) == ViewOf(s)
  {
    hide IdOf;
    BlocksKept(s, t, 0, 0);
    HeadKept(s, t, 0, 0);
    SliceKept(s, t, 0, 0, OFFSET_BACKUP_DATA, OFFSET_FIRST_PWD);
  }

  lemma SameByte(s: Store, t: Store, a: nat)
    requires ViewOf(s) == ViewOf(t) && a < FRAM_BYTE_SIZE && !InPool(a)
    ensures s.fram[a] == t.fram[a]
  {
    hide *;
    PartsOf(s);
    PartsOf(t);
    if OFFSET_FIRST_PWD <= a < PwdAddr(CAPACITY, 0) {
      SameByteInBlock(s, t, a);
    } else {
      SameByteElsewhere(s, t, a);
    }
  }

  lemma SameByteElsewhere(s: Store, t: Store, a: nat)
    requires HeadOf(s.fram) == HeadOf(t.fram) && StatusOf(s.fram) == StatusOf(t.fram)
    requires SavedId(s.fram) == SavedId(t.fram) && SavedData(s.fram) == SavedData(t.fram)
    requires s.fram[PwdAddr(CAPACITY, 0)..] == t.fram[PwdAddr(CAPACITY, 0)..]
    requires a < FRAM_BYTE_SIZE && !InPool(a) && !(OFFSET_FIRST_PWD <= a < PwdAddr(CAPACITY, 0))
    ensures s.fram[a] == t.fram[a]
  {
    hide HeadOf, IdOf;
    if a < OFFSET_BACKUP_STATUS {
      SameHead(s.fram, t.fram);
    } else if OFFSET_BACKUP_ID <= a < OFFSET_BACKUP_DATA {
      SameId(s, t);
    } else if OFFSET_BACKUP_DATA <= a < OFFSET_FIRST_PWD {
      assert SavedData(s.fram)[a - OFFSET_BACKUP_DATA] == s.fram[a];
      assert SavedData(t.fram)[a - OFFSET_BACKUP_DATA] == t.fram[a];
    } else if a >= PwdAddr(CAPACITY, 0) {
      var c := PwdAddr(CAPACITY, 0);
      assert s.fram[c..][a - c] == s.fram[a] && t.fram[c..][a - c] == t.fram[a];
    } else {
      assert a == OFFSET_BACKUP_STATUS;
    }
  }

  lemma PartsOf(s: Store)
    ensures ViewOf(s).savedData == SavedData(s.fram) && ViewOf(s).tail == s.fram[PwdAddr(CAPACITY, 0)..]
    ensures ViewOf(s).savedId == SavedId(s.fram) && ViewOf(s).status == StatusOf(s.fram)
    ensures ViewOf(s).card == s.card && ViewOf(s).temp == s.temp && ViewOf(s).eeprom == s.eeprom
    ensures ViewOf(s).head == HeadOf(s.fram)
  {
    hide HeadOf;
  }

  lemma BlockInView(s: Store, id: nat)
    requires id < CAPACITY
    ensures ViewOf(s).blocks[id] == BlockOf(s.fram, id)
  {
  }

  lemma SameByteInBlock(s: Store, t: Store, a: nat)
    requires ViewOf(s) == ViewOf(t) && OFFSET_FIRST_PWD <= a < PwdAddr(CAPACITY, 0)
    ensures s.fram[a] == t.fram[a]
  {
    var id, i := (a - OFFSET_FIRST_PWD) / SIZE_OF_PWD_BLOCK, (a - OFFSET_FIRST_PWD) % SIZE_OF_PWD_BLOCK;
    assert a == PwdAddr(id, i) && id < CAPACITY;
    assert ViewOf(s).blocks[id] == BlockOf(s.fram, id) && ViewOf(t).blocks[id] == BlockOf(t.fram, id);
    hide ViewOf, BlockOf;
    ByteInBlock(s.fram, id, i);
    ByteInBlock(t.fram, id, i);
  }

  lemma ByteInBlock(m: Image, id: nat, i: nat)
    requires id < CAPACITY && i < SIZE_OF_PWD_BLOCK
    ensures BlockOf(m, id)[i] == m[PwdAddr(id, i)]
  {
  }

  lemma SameId(s: Store, t: Store)
    requires SavedId(s.fram) == SavedId(t.fram)
    ensures s.fram[OFFSET_BACKUP_ID] == t.fram[OFFSET_BACKUP_ID]
    ensures s.fram[OFFSET_BACKUP_ID + 1] == t.fram[OFFSET_BACKUP_ID + 1]
  {
    hide IdOf, IdBytes;
    var a := OFFSET_BACKUP_ID;
    IdBytesRoundTrip(s.fram[a], s.fram[a + 1]);
    IdBytesRoundTrip(t.fram[a], t.fram[a + 1]);
    assert [s.fram[a], s.fram[a + 1]][0] == [t.fram[a], t.fram[a + 1]][0];
    assert [s.fram[a], s.fram[a + 1]][1] == [t.fram[a], t.fram[a + 1]][1];
  }

  // ----- what the writes do to the view -----

  /** Bytes of a region stay if nothing in the region is written. */
  lemma SliceKept(s: Store, t: Store, lo: nat, hi: nat, a: nat, b: nat)
    requires SameOutside(s, t, lo, hi) && OFFSET_MEMORY_MAP <= a <= b <= FRAM_BYTE_SIZE && (b <= lo || hi <= a)
    ensures t.fram[a..b] == s.fram[a..b]
  {
  }

  lemma HeadKept(s: Store, t: Store, lo: nat, hi: nat)
    requires SameOutside(s, t, lo, hi) && (hi == 0 || OFFSET_BACKUP_STATUS <= lo)
    ensures HeadOf(t.fram) == HeadOf(s.fram)
  {
    hide HeadOf;
    SameHead(s.fram, t.fram);
  }

  lemma BlocksKept(s: Store, t: Store, lo: nat, hi: nat)
    requires SameOutside(s, t, lo, hi) && hi <= OFFSET_FIRST_PWD
    ensures ViewOf(t).blocks == ViewOf(s).blocks && ViewOf(t).tail == ViewOf(s).tail
  {
    hide SameOutside, ViewOf, BlockOf;
    PartsOf(s);
    PartsOf(t);
    SliceKept(s, t, lo, hi, PwdAddr(CAPACITY, 0), FRAM_BYTE_SIZE);
    assert s.fram[PwdAddr(CAPACITY, 0)..FRAM_BYTE_SIZE] == s.fram[PwdAddr(CAPACITY, 0)..];
    assert t.fram[PwdAddr(CAPACITY, 0)..FRAM_BYTE_SIZE] == t.fram[PwdAddr(CAPACITY, 0)..];
    forall id: nat | id < CAPACITY
      ensures ViewOf(t).blocks[id] == ViewOf(s).blocks[id]
    {
      SliceKept(s, t, lo, hi, PwdAddr(id, 0), PwdAddr(id, SIZE_OF_PWD_BLOCK));
      BlockKept(s, t, id);
    }
  }

  lemma BlockKept(s: Store, t: Store, id: nat)
    requires id < CAPACITY
    requires t.fram[PwdAddr(id, 0)..PwdAddr(id, SIZE_OF_PWD_BLOCK)] == s.fram[PwdAddr(id, 0)..PwdAddr(id, SIZE_OF_PWD_BLOCK)]
    ensures ViewOf(t).blocks[id] == ViewOf(s).blocks[id]
  {
    BlockInView(s, id);
    BlockInView(t, id);
  }

  lemma ViewAfterBackupData(s: Store, t: Store)
    requires SameOutside(s, t, OFFSET_BACKUP_DATA, OFFSET_FIRST_PWD)
    ensures ViewOf(t) == ViewOf(s).(savedData := SavedData(t.fram))
  {
    BlocksKept(s, t, OFFSET_BACKUP_DATA, OFFSET_FIRST_PWD);
    HeadKept(s, t, OFFSET_BACKUP_DATA, OFFSET_FIRST_PWD);
  }

  lemma ViewAfterBackupArea(s: Store, t: Store)
    requires SameOutside(s, t, OFFSET_BACKUP_STATUS, OFFSET_FIRST_PWD)
    ensures ViewOf(t) == ViewOf(s).(status := StatusOf(t.fram), savedId := SavedId(t.fram), savedData := SavedData(t.fram))
  {
    BlocksKept(s, t, OFFSET_BACKUP_STATUS, OFFSET_FIRST_PWD);
    HeadKept(s, t, OFFSET_BACKUP_STATUS, OFFSET_FIRST_PWD);
  }

  lemma ViewAfterStatus(s: Store, status: bv8)
    ensures ViewOf(Apply(s, StatusWrite(status))) == ViewOf(s).(status := status)
  {
    var t := Apply(s, StatusWrite(status));
    assert SameOutside(s, t, OFFSET_BACKUP_STATUS, OFFSET_BACKUP_ID);
    BlocksKept(s, t, OFFSET_BACKUP_STATUS, OFFSET_BACKUP_ID);
    HeadKept(s, t, OFFSET_BACKUP_STATUS, OFFSET_BACKUP_ID);
    SliceKept(s, t, OFFSET_BACKUP_STATUS, OFFSET_BACKUP_ID, OFFSET_BACKUP_DATA, OFFSET_FIRST_PWD);
  }

  /** Writes from byte c of a block to its end. */
  lemma ViewAfterBlock(s: Store, t: Store, id: nat, c: nat)
    requires id < CAPACITY && c <= SIZE_OF_PWD_BLOCK
    requires SameOutside(s, t, PwdAddr(id, c), PwdAddr(id, SIZE_OF_PWD_BLOCK))
    ensures ViewOf(t) == ViewOf(s).(blocks := ViewOf(s).blocks[id := BlockOf(t.fram, id)])
    ensures BlockOf(t.fram, id)[..c] == BlockOf(s.fram, id)[..c]
  {
    hide SameOutside, IdOf;
    var lo, hi := PwdAddr(id, c), PwdAddr(id, SIZE_OF_PWD_BLOCK);
    SliceKept(s, t, lo, hi, OFFSET_BACKUP_STATUS, OFFSET_FIRST_PWD);
    HeadKept(s, t, lo, hi);
    SliceKept(s, t, lo, hi, PwdAddr(CAPACITY, 0), FRAM_BYTE_SIZE);
    SliceKept(s, t, lo, hi, PwdAddr(id, 0), lo);
    SliceOfSlice(s.fram, PwdAddr(id, 0), hi, 0, c);
    SliceOfSlice(t.fram, PwdAddr(id, 0), hi, 0, c);
    BackupKept(s, t);
    OtherPartsKept(s, t, lo, hi);
    forall j: nat | j < CAPACITY && j != id
      ensures BlockOf(t.fram, j) == BlockOf(s.fram, j)
    {
      SliceKept(s, t, lo, hi, PwdAddr(j, 0), PwdAddr(j, SIZE_OF_PWD_BLOCK));
    }
    ViewWithBlock(s, t, id);
  }

  lemma ViewWithBlock(s: Store, t: Store, id: nat)
    requires id < CAPACITY && forall j: nat | j < CAPACITY && j != id :: BlockOf(t.fram, j) == BlockOf(s.fram, j)
    requires HeadOf(t.fram) == HeadOf(s.fram)
    requires StatusOf(t.fram) == StatusOf(s.fram) && SavedId(t.fram) == SavedId(s.fram)
    requires SavedData(t.fram) == SavedData(s.fram)
    requires t.fram[PwdAddr(CAPACITY, 0)..] == s.fram[PwdAddr(CAPACITY, 0)..]
    requires t.card == s.card && t.temp == s.temp && t.eeprom == s.eeprom
    ensures ViewOf(t) == ViewOf(s).(blocks := ViewOf(s).blocks[id := BlockOf(t.fram, id)])
  {
    hide BlockOf, StatusOf, SavedId, SavedData;
    assert ViewOf(t).blocks == ViewOf(s).blocks[id := BlockOf(t.fram, id)];
  }

  lemma OtherPartsKept(s: Store, t: Store, lo: nat, hi: nat)
    requires SameOutside(s, t, lo, hi)
    ensures t.card == s.card && t.temp == s.temp && t.eeprom == s.eeprom
  {
  }

  lemma BackupKept(s: Store, t: Store)
    requires t.fram[OFFSET_BACKUP_STATUS..OFFSET_FIRST_PWD] == s.fram[OFFSET_BACKUP_STATUS..OFFSET_FIRST_PWD]
    ensures StatusOf(t.fram) == StatusOf(s.fram) && SavedId(t.fram) == SavedId(s.fram)
    ensures SavedData(t.fram) == SavedData(s.fram)
  {
    hide IdOf;
    var lo, hi := OFFSET_BACKUP_STATUS, OFFSET_FIRST_PWD;
    assert forall a: nat | lo <= a < hi :: t.fram[lo..hi][a - lo] == t.fram[a];
    assert forall a: nat | lo <= a < hi :: s.fram[lo..hi][a - lo] == s.fram[a];
  }

  /** Draws leave the blocks alone. */
  lemma DrawsApart(s: Store, draws: seq<Drawn>, id: nat)
    requires id < CAPACITY
    ensures BlockOf(ApplyAll(s, DrawWrites(draws)).fram, id) == BlockOf(s.fram, id)
  {
    hide DrawWrites, ApplyAll, BlockOf, SameOutside, WithPool, PoolOf;
    var t := ApplyAll(s, DrawWrites(draws));
    OnlyPool(s, draws);
    PoolChanged(s, t);
    PoolApart(s.fram, PoolOf(t.fram), id);
  }

  /** The writes of a text stay inside its block and change it as WithText does. */
  lemma TextWritten(s: Store, id: nat, ivOff: nat, off: nat, text: seq<bv8>, k: Block, iv: Draw)
    requires id < CAPACITY && ivOff + 16 <= off && off + |text| <= SIZE_OF_PWD_BLOCK
    ensures
      var ws := TextWrites(PwdAddr(id, ivOff), PwdAddr(id, off), text, k, iv);
      && Within(ws, PwdAddr(id, ivOff), PwdAddr(id, SIZE_OF_PWD_BLOCK))
      && BlockOf(ApplyAll(s, ws).fram, id) == WithText(BlockOf(s.fram, id), ivOff, off, text, k, DrawBytes(iv))
  {
    hide ApplyAll, CbcEncrypt, Splice, DrawWrites, DrawBytes, WithPool, PoolOf, Within, FramWrites, BlockOf;
    var lo, hi := PwdAddr(id, ivOff), PwdAddr(id, SIZE_OF_PWD_BLOCK);
    var bytes, e := DrawBytes(iv), CbcEncrypt(k, DrawBytes(iv), text);
    var s1 := ApplyAll(s, DrawWrites(iv));
    DrawsApart(s, iv, id);
    BytesWritten(s1, id, ivOff, off, bytes, e);
    DrawsWithin(iv, lo, hi);
    WithinAppend(DrawWrites(iv), FramWrites(lo, bytes) + FramWrites(PwdAddr(id, off), e), lo, hi);
    ApplyAppend(s, DrawWrites(iv), FramWrites(lo, bytes) + FramWrites(PwdAddr(id, off), e));
    assert TextWrites(lo, PwdAddr(id, off), text, k, iv)
        == DrawWrites(iv) + (FramWrites(lo, bytes) + FramWrites(PwdAddr(id, off), e));
  }

  lemma WithinAppend(a: seq<Write>, b: seq<Write>, lo: nat, hi: nat)
    requires Within(a, lo, hi) && Within(b, lo, hi)
    ensures Within(a + b, lo, hi)
  {
  }

  lemma BytesWritten(s: Store, id: nat, ivOff: nat, off: nat, iv: Block, e: seq<bv8>)
    requires id < CAPACITY && ivOff + 16 <= off && off + |e| <= SIZE_OF_PWD_BLOCK
    ensures
      var ws := FramWrites(PwdAddr(id, ivOff), iv) + FramWrites(PwdAddr(id, off), e);
      && Within(ws, PwdAddr(id, ivOff), PwdAddr(id, SIZE_OF_PWD_BLOCK))
      && BlockOf(ApplyAll(s, ws).fram, id) == Splice(Splice(BlockOf(s.fram, id), ivOff, iv), off, e)
  {
    hide ApplyAll, Splice;
    var a, b := PwdAddr(id, 0), PwdAddr(id, SIZE_OF_PWD_BLOCK);
    TextWithin(id, ivOff, off, iv, e);
    ApplyAppend(s, FramWrites(a + ivOff, iv), FramWrites(a + off, e));
    ApplyFramWrites(s, a + ivOff, iv);
    var s1 := s.(fram := Splice(s.fram, a + ivOff, iv));
    ApplyFramWrites(s1, a + off, e);
    SpliceInWindow(s.fram, a + ivOff, iv, a, b);
    SpliceInWindow(s1.fram, a + off, e, a, b);
  }

  lemma TextWithin(id: nat, ivOff: nat, off: nat, iv: Block, e: seq<bv8>)
    requires ivOff + 16 <= off && off + |e| <= SIZE_OF_PWD_BLOCK
    ensures Within(FramWrites(PwdAddr(id, ivOff), iv) + FramWrites(PwdAddr(id, off), e),
      PwdAddr(id, ivOff), PwdAddr(id, SIZE_OF_PWD_BLOCK))
  {
  }
}
