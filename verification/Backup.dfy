/** The backup area (Code/src/Security/Backup.c): a copy of one block, the id it
  belongs to, and a status byte written last. */
module Backup {
  import opened Bytes
  import opened Memory
  import opened Crash
  import opened Device
  import Cbc

  const BACKUP_STATUS_OK: bv8 := 0
  const BACKUP_STATUS_UPDATE: bv8 := 1
  const BACKUP_STATUS_CHANGE_KEY: bv8 := 2
  const BACKUP_STATUS_CHANGE_KEY_CHUNK_OK: bv8 := 3
  const BACKUP_STATUS_CHANGE_KEY_UPDATE_CARD: bv8 := 4
  const BACKUP_STATUS_CHANGE_KEY_VALIDATION: bv8 := 5

  function StatusOf(m: Image): bv8 {
    m[OFFSET_BACKUP_STATUS]
  }

  function SavedId(m: Image): nat {
    GetId(m, OFFSET_BACKUP_ID)
  }

  function SavedData(m: Image): (b: seq<bv8>)
    ensures |b| == SIZE_OF_PWD_BLOCK
  {
    m[OFFSET_BACKUP_DATA..OFFSET_FIRST_PWD]
  }

  // ----- the writes of each operation -----

  function StatusWrite(status: bv8): Write {
    ToFram(OFFSET_BACKUP_STATUS, status)
  }

  /** backup_save */
  function SaveWrites(m: Image, id: nat, status: bv8): seq<Write>
    requires id < CAPACITY
  {
    FramWrites(OFFSET_BACKUP_DATA, BlockOf(m, id)) + FramWrites(OFFSET_BACKUP_ID, IdBytes(id)) + [StatusWrite(status)]
  }

  /** backup_partial_restore */
  function PartialRestoreWrites(m: Image): seq<Write> {
    FramWrites(PwdAddr(SavedId(m), 0), SavedData(m))
  }

  /** backup_free */
  function FreeWrites(): seq<Write> {
    [StatusWrite(BACKUP_STATUS_OK)]
    + FramWrites(OFFSET_BACKUP_DATA, Cbc.Zeros(SIZE_OF_PWD_BLOCK))
    + FramWrites(OFFSET_BACKUP_ID, IdBytes(0))
  }

  /** backup_restore */
  function RestoreWrites(m: Image): seq<Write> {
    if StatusOf(m) == BACKUP_STATUS_OK then [] else PartialRestoreWrites(m) + FreeWrites()
  }

  // ----- the operations -----

  /** backup_save */
  method BackupSave(w: Wallet, id: nat, status: bv8)
    requires w.Valid() && id < CAPACITY
    modifies w.fram, w`log
    ensures w.Since(old(w.Persistent()), old(w.log), SaveWrites(old(w.fram[..]), id, status))
    ensures StatusOf(w.fram[..]) == status && SavedId(w.fram[..]) == id && SavedData(w.fram[..]) == BlockOf(old(w.fram[..]), id)
    ensures SameOutside(old(w.Persistent()), w.Persistent(), OFFSET_BACKUP_STATUS, OFFSET_FIRST_PWD)
  {
    hide ApplyAll, SameOutside, SavedId;
    ghost var s, l := w.Persistent(), w.log;
    ghost var b := BlockOf(s.fram, id);
    CopyBlock(w, PwdAddr(id, 0), OFFSET_BACKUP_DATA);
    w.WriteId(OFFSET_BACKUP_ID, id);
    w.SinceBoth(s, l, FramWrites(OFFSET_BACKUP_DATA, b), FramWrites(OFFSET_BACKUP_ID, IdBytes(id)));
    w.FramWriteByte(OFFSET_BACKUP_STATUS, status);
    w.SinceBoth(s, l, FramWrites(OFFSET_BACKUP_DATA, b) + FramWrites(OFFSET_BACKUP_ID, IdBytes(id)),
      [StatusWrite(status)]);
    SaveCompletes(s, id, status);
  }

  /** The copying loops of backup_save and backup_restore. */
  method CopyBlock(w: Wallet, from: nat, to: nat)
    requires w.Valid() && from + SIZE_OF_PWD_BLOCK <= FRAM_BYTE_SIZE && to + SIZE_OF_PWD_BLOCK <= FRAM_BYTE_SIZE
    requires from + SIZE_OF_PWD_BLOCK <= to || to + SIZE_OF_PWD_BLOCK <= from
    modifies w.fram, w`log
    ensures w.Since(old(w.Persistent()), old(w.log),
      FramWrites(to, old(w.fram[from..from + SIZE_OF_PWD_BLOCK])))
  {
    hide Splice, ApplyAll, FramWrites;
    ghost var m := w.fram[..];
    ghost var b := m[from..from + SIZE_OF_PWD_BLOCK];
    assert b == w.fram[from..from + SIZE_OF_PWD_BLOCK];
    SpliceStart(m, to, b);
    for i := 0 to SIZE_OF_PWD_BLOCK
      invariant w.fram[..] == Splice(m, to, b[..i])
      invariant w.log == old(w.log) + FramWrites(to, b[..i])
    {
      var byte := w.fram[from + i];
      CopyGrows(m, from, to, i);
      assert byte == w.fram[..][from + i] == b[i];
      FramWritesGrow(to, b, i);
      w.FramWriteByte(to + i, byte);
    }
    ApplyFramWrites(old(w.Persistent()), to, b);
  }

  lemma CopyGrows(m: Image, from: nat, to: nat, i: nat)
    requires from + SIZE_OF_PWD_BLOCK <= FRAM_BYTE_SIZE && to + SIZE_OF_PWD_BLOCK <= FRAM_BYTE_SIZE
    requires from + SIZE_OF_PWD_BLOCK <= to || to + SIZE_OF_PWD_BLOCK <= from
    requires i < SIZE_OF_PWD_BLOCK
    ensures
      var b := m[from..from + SIZE_OF_PWD_BLOCK];
      && Splice(m, to, b[..i])[from + i] == b[i]
      && Splice(m, to, b[..i + 1]) == Splice(m, to, b[..i])[to + i := b[i]]
  {
    hide Splice;
    var b := m[from..from + SIZE_OF_PWD_BLOCK];
    SpliceAt(m, to, b[..i], from + i);
    SpliceGrows(m, to, b, i);
  }

  /** backup_partial_restore */
  method BackupPartialRestore(w: Wallet)
    requires w.Valid() && SavedId(w.fram[..]) < CAPACITY
    modifies w.fram, w`log
    ensures w.Since(old(w.Persistent()), old(w.log), PartialRestoreWrites(old(w.fram[..])))
    ensures
      var id := old(SavedId(w.fram[..]));
      && BlockOf(w.fram[..], id) == old(SavedData(w.fram[..]))
      && SameOutside(old(w.Persistent()), w.Persistent(), PwdAddr(id, 0), PwdAddr(id, SIZE_OF_PWD_BLOCK))
  {
    hide ApplyAll, SameOutside;
    ghost var s := w.Persistent();
    var id := w.ReadId(OFFSET_BACKUP_ID);
    CopyBlock(w, OFFSET_BACKUP_DATA, PwdAddr(id, 0));
    RestoredBlock(s, id);
    RestoreWithin(s.fram, id);
    WritesStayWithin(s, PartialRestoreWrites(s.fram), PwdAddr(id, 0), PwdAddr(id, SIZE_OF_PWD_BLOCK));
  }

  /** backup_free */
  method BackupFree(w: Wallet)
    requires w.Valid()
    modifies w.fram, w`log
    ensures w.Since(old(w.Persistent()), old(w.log), FreeWrites())
    ensures StatusOf(w.fram[..]) == BACKUP_STATUS_OK && SavedId(w.fram[..]) == 0
    ensures forall i: nat | i < SIZE_OF_PWD_BLOCK :: SavedData(w.fram[..])[i] == 0
    ensures SameOutside(old(w.Persistent()), w.Persistent(), OFFSET_BACKUP_STATUS, OFFSET_FIRST_PWD)
  {
    hide ApplyAll, FramWrites, SameOutside, SavedId, SavedData;
    ghost var s, l := w.Persistent(), w.log;
    w.FramWriteByte(OFFSET_BACKUP_STATUS, BACKUP_STATUS_OK);
    w.FramSet(OFFSET_BACKUP_DATA, 0, SIZE_OF_PWD_BLOCK);
    assert seq(SIZE_OF_PWD_BLOCK, _ => 0 as bv8) == Cbc.Zeros(SIZE_OF_PWD_BLOCK);
    w.SinceBoth(s, l, [StatusWrite(BACKUP_STATUS_OK)], FramWrites(OFFSET_BACKUP_DATA, Cbc.Zeros(SIZE_OF_PWD_BLOCK)));
    w.WriteId(OFFSET_BACKUP_ID, 0);
    w.SinceBoth(s, l,
      [StatusWrite(BACKUP_STATUS_OK)] + FramWrites(OFFSET_BACKUP_DATA, Cbc.Zeros(SIZE_OF_PWD_BLOCK)),
      FramWrites(OFFSET_BACKUP_ID, IdBytes(0)));
    FreeCompletes(s);
  }

  /** The writes of a freeing as a whole. */
  lemma FreeCompletes(s: Store)
    ensures
      var t := ApplyAll(s, FreeWrites());
      && StatusOf(t.fram) == BACKUP_STATUS_OK && SavedId(t.fram) == 0
      && SavedData(t.fram) == Cbc.Zeros(SIZE_OF_PWD_BLOCK)
      && SameOutside(s, t, OFFSET_BACKUP_STATUS, OFFSET_FIRST_PWD)
  {
    assert |FreeWrites()| == SIZE_OF_PWD_BLOCK + 3;
    assert FreeWrites()[..|FreeWrites()|] == FreeWrites();
    FreeBegins(s, |FreeWrites()|);
    hide ApplyAll, Splice, FramWrites, SameOutside, IdBytes, IdOf;
    var first, zeros := [StatusWrite(BACKUP_STATUS_OK)], Cbc.Zeros(SIZE_OF_PWD_BLOCK);
    var data, ids := FramWrites(OFFSET_BACKUP_DATA, zeros), FramWrites(OFFSET_BACKUP_ID, IdBytes(0));
    ApplyAppend(s, first + data, ids);
    ApplyAppend(s, first, data);
    var s1 := ApplyAll(s, first);
    ApplyFramWrites(s1, OFFSET_BACKUP_DATA, zeros);
    var s2 := s1.(fram := Splice(s1.fram, OFFSET_BACKUP_DATA, zeros));
    ApplyFramWrites(s2, OFFSET_BACKUP_ID, IdBytes(0));
    SpliceElsewhere(s2.fram, OFFSET_BACKUP_ID, IdBytes(0), OFFSET_BACKUP_DATA, OFFSET_FIRST_PWD);
    var m := Splice(s2.fram, OFFSET_BACKUP_ID, IdBytes(0));
    SpliceAt(s2.fram, OFFSET_BACKUP_ID, IdBytes(0), OFFSET_BACKUP_ID);
    SpliceAt(s2.fram, OFFSET_BACKUP_ID, IdBytes(0), OFFSET_BACKUP_ID + 1);
    IdRoundTrip(0);
  }

  /** backup_restore */
  method BackupRestore(w: Wallet)
    requires w.Valid()
    requires StatusOf(w.fram[..]) != BACKUP_STATUS_OK ==> SavedId(w.fram[..]) < CAPACITY
    modifies w.fram, w`log
    ensures w.Since(old(w.Persistent()), old(w.log), RestoreWrites(old(w.fram[..])))
    ensures old(StatusOf(w.fram[..])) == BACKUP_STATUS_OK ==> w.log == old(w.log) && w.fram[..] == old(w.fram[..])
    ensures old(StatusOf(w.fram[..])) != BACKUP_STATUS_OK ==>
      && StatusOf(w.fram[..]) == BACKUP_STATUS_OK
      && BlockOf(w.fram[..], old(SavedId(w.fram[..]))) == old(SavedData(w.fram[..]))
      && OnlyEdited(old(w.Persistent()), old(SavedId(w.fram[..])), w.Persistent())
  {
    hide ApplyAll, FramWrites, FreeWrites, OnlyEdited;
    ghost var s, l := w.Persistent(), w.log;
    if w.fram[OFFSET_BACKUP_STATUS] == BACKUP_STATUS_OK {
      NoWrites(s);
      return;
    }
    BackupPartialRestore(w);
    BackupFree(w);
    w.SinceBoth(s, l, PartialRestoreWrites(s.fram), FreeWrites());
    RestoreCompletes(s);
  }

  lemma NoWrites(s: Store)
    ensures ApplyAll(s, []) == s
  {
  }

  // ----- an edit of one credential under the protection of the backup -----

  /** The writes of an edit: save the block, write into it, free the backup. */
  function EditWrites(m: Image, id: nat, ws: seq<Write>): seq<Write>
    requires id < CAPACITY
  {
    SaveWrites(m, id, BACKUP_STATUS_UPDATE) + ws + FreeWrites()
  }

  /** Card and EEPROM, and the FRAM outside the entropy pool, the backup area and one block,
    are as they were. */
  ghost predicate OnlyEdited(s0: Store, id: nat, s: Store) {
    && s == s0.(fram := s.fram)
    && forall a: nat | a < FRAM_BYTE_SIZE && !InPool(a) && !(OFFSET_BACKUP_STATUS <= a < OFFSET_FIRST_PWD)
        && !(PwdAddr(id, 0) <= a < PwdAddr(id, SIZE_OF_PWD_BLOCK)) :: s.fram[a] == s0.fram[a]
  }

  datatype Phase = Untouched | Pending | Committed

  /** Where an edit of block `id` that began in `s0` and makes it `b` can be. */
  ghost predicate InPhase(s0: Store, id: nat, b: seq<bv8>, s: Store, phase: Phase)
    requires id < CAPACITY
  {
    && OnlyEdited(s0, id, s)
    && match phase
       case Untouched => StatusOf(s.fram) == BACKUP_STATUS_OK && BlockOf(s.fram, id) == BlockOf(s0.fram, id)
       case Pending =>
         && StatusOf(s.fram) == BACKUP_STATUS_UPDATE
         && SavedId(s.fram) == id && SavedData(s.fram) == BlockOf(s0.fram, id)
       case Committed => StatusOf(s.fram) == BACKUP_STATUS_OK && BlockOf(s.fram, id) == b
  }

  /** All of a save but its last write stays off the status byte. */
  lemma SaveBegins(m: Image, id: nat, status: bv8)
    requires id < CAPACITY
    ensures |SaveWrites(m, id, status)| == SIZE_OF_PWD_BLOCK + 3
    ensures Within(SaveWrites(m, id, status)[..SIZE_OF_PWD_BLOCK + 2], OFFSET_BACKUP_ID, OFFSET_FIRST_PWD)
  {
  }

  /** The writes of a save as a whole. */
  lemma SaveCompletes(s: Store, id: nat, status: bv8)
    requires id < CAPACITY
    ensures
      var t := ApplyAll(s, SaveWrites(s.fram, id, status));
      && SameOutside(s, t, OFFSET_BACKUP_STATUS, OFFSET_FIRST_PWD)
      && StatusOf(t.fram) == status && SavedId(t.fram) == id && SavedData(t.fram) == BlockOf(s.fram, id)
  {
    hide ApplyAll, Splice, FramWrites;
    var b := BlockOf(s.fram, id);
    var data, ids := FramWrites(OFFSET_BACKUP_DATA, b), FramWrites(OFFSET_BACKUP_ID, IdBytes(id));
    ApplyAppend(s, data + ids, [StatusWrite(status)]);
    ApplyAppend(s, data, ids);
    ApplyFramWrites(s, OFFSET_BACKUP_DATA, b);
    var s1 := s.(fram := Splice(s.fram, OFFSET_BACKUP_DATA, b));
    ApplyFramWrites(s1, OFFSET_BACKUP_ID, IdBytes(id));
    var s2 := s1.(fram := Splice(s1.fram, OFFSET_BACKUP_ID, IdBytes(id)));
    ApplyOne(s2, StatusWrite(status));
    SavedAfterSave(s.fram, id, status);
  }

  lemma SavedAfterSave(m: Image, id: nat, status: bv8)
    requires id < CAPACITY
    ensures
      var m1 := Splice(m, OFFSET_BACKUP_DATA, BlockOf(m, id));
      var m2 := Splice(m1, OFFSET_BACKUP_ID, IdBytes(id))[OFFSET_BACKUP_STATUS := status];
      && StatusOf(m2) == status && SavedId(m2) == id && SavedData(m2) == BlockOf(m, id)
      && forall a: nat | a < FRAM_BYTE_SIZE && !(OFFSET_BACKUP_STATUS <= a < OFFSET_FIRST_PWD) :: m2[a] == m[a]
  {
    hide IdBytes, IdOf, Splice, BlockOf;
    IdRoundTrip(id);
    var m1 := Splice(m, OFFSET_BACKUP_DATA, BlockOf(m, id));
    var m2 := Splice(m1, OFFSET_BACKUP_ID, IdBytes(id))[OFFSET_BACKUP_STATUS := status];
    forall a: nat | a < FRAM_BYTE_SIZE
      ensures m2[a] ==
        if a == OFFSET_BACKUP_STATUS then status
        else if OFFSET_BACKUP_ID <= a < OFFSET_BACKUP_DATA then IdBytes(id)[a - OFFSET_BACKUP_ID]
        else if OFFSET_BACKUP_DATA <= a < OFFSET_FIRST_PWD then BlockOf(m, id)[a - OFFSET_BACKUP_DATA] else m[a]
    {
      SpliceAt(m, OFFSET_BACKUP_DATA, BlockOf(m, id), a);
      SpliceAt(m1, OFFSET_BACKUP_ID, IdBytes(id), a);
    }
    assert forall i: nat | i < SIZE_OF_PWD_BLOCK :: SavedData(m2)[i] == m2[OFFSET_BACKUP_DATA + i];
  }

  /** Freeing changes the status with its first write and stays inside the backup area. */
  lemma FreeBegins(s: Store, k: nat)
    requires 0 < k <= |FreeWrites()|
    ensures |FreeWrites()| == SIZE_OF_PWD_BLOCK + 3
    ensures
      var t := ApplyAll(s, FreeWrites()[..k]);
      SameOutside(s, t, OFFSET_BACKUP_STATUS, OFFSET_FIRST_PWD) && StatusOf(t.fram) == BACKUP_STATUS_OK
  {
    hide ApplyAll;
    var ws := FreeWrites()[..k];
    var s1 := Apply(s, StatusWrite(BACKUP_STATUS_OK));
    ApplyOne(s, StatusWrite(BACKUP_STATUS_OK));
    ApplyAppend(s, ws[..1], ws[1..]);
    assert ws == ws[..1] + ws[1..] && ws[..1] == [StatusWrite(BACKUP_STATUS_OK)];
    assert Within(ws[1..], OFFSET_BACKUP_ID, OFFSET_FIRST_PWD);
    WritesStayWithin(s1, ws[1..], OFFSET_BACKUP_ID, OFFSET_FIRST_PWD);
  }

  lemma PrefixOfSum(s: Store, a: seq<Write>, b: seq<Write>, k: nat)
    requires k <= |a| + |b|
    ensures k <= |a| ==> (a + b)[..k] == a[..k]
    ensures k >= |a| ==> ApplyAll(s, (a + b)[..k]) == ApplyAll(ApplyAll(s, a), b[..k - |a|])
  {
    if k <= |a| {
      assert (a + b)[..k] == a[..k];
    }
    if k >= |a| {
      assert (a + b)[..k] == a + b[..k - |a|];
      ApplyAppend(s, a, b[..k - |a|]);
    }
  }

  /** Block `id` lies outside the backup area. */
  lemma BackupAreaApart(s: Store, t: Store, id: nat)
    requires id < CAPACITY && SameOutside(s, t, OFFSET_BACKUP_STATUS, OFFSET_FIRST_PWD)
    ensures BlockOf(t.fram, id) == BlockOf(s.fram, id)
    ensures OnlyEdited(s, id, t)
  {
    assert forall i: nat | i < SIZE_OF_PWD_BLOCK :: BlockOf(t.fram, id)[i] == t.fram[PwdAddr(id, i)];
    assert forall i: nat | i < SIZE_OF_PWD_BLOCK :: BlockOf(s.fram, id)[i] == s.fram[PwdAddr(id, i)];
  }

  lemma BlockApart(s: Store, t: Store, id: nat)
    requires id < CAPACITY && SameOutside(s, t, PwdAddr(id, 0), PwdAddr(id, SIZE_OF_PWD_BLOCK))
    ensures StatusOf(t.fram) == StatusOf(s.fram) && SavedId(t.fram) == SavedId(s.fram)
    ensures SavedData(t.fram) == SavedData(s.fram)
    ensures OnlyEdited(s, id, t)
  {
    hide IdOf;
    assert forall a: nat | OFFSET_BACKUP_STATUS <= a < OFFSET_FIRST_PWD :: t.fram[a] == s.fram[a];
  }

  lemma EditedTwice(s: Store, id: nat, t: Store, u: Store)
    requires OnlyEdited(s, id, t) && OnlyEdited(t, id, u)
    ensures OnlyEdited(s, id, u)
  {
  }

  /** The block as the edit leaves it. */
  function EditedBlock(s: Store, id: nat, ws: seq<Write>): seq<bv8>
    requires id < CAPACITY
  {
    BlockOf(ApplyAll(s, SaveWrites(s.fram, id, BACKUP_STATUS_UPDATE) + ws).fram, id)
  }

  /** The phase after a cut is a function of the number of writes that were made. */
  lemma EditPhases(s: Store, id: nat, ws: seq<Write>, k: nat)
    requires id < CAPACITY && (StatusOf(s.fram) == BACKUP_STATUS_OK || k >= SIZE_OF_PWD_BLOCK + 3)
    requires Within(ws, PwdAddr(id, 0), PwdAddr(id, SIZE_OF_PWD_BLOCK))
    requires k <= |EditWrites(s.fram, id, ws)|
    ensures
      var saved := SIZE_OF_PWD_BLOCK + 3;
      InPhase(s, id, EditedBlock(s, id, ws), ApplyAll(s, EditWrites(s.fram, id, ws)[..k]),
        if k < saved then Untouched else if k <= saved + |ws| then Pending else Committed)
  {
    hide SaveWrites, FreeWrites, ApplyAll, OnlyEdited, BlockOf, SavedData, SavedId, StatusOf;
    var save, free := SaveWrites(s.fram, id, BACKUP_STATUS_UPDATE), FreeWrites();
    SaveBegins(s.fram, id, BACKUP_STATUS_UPDATE);
    SaveCompletes(s, id, BACKUP_STATUS_UPDATE);
    var s1 := ApplyAll(s, save);
    BackupAreaApart(s, s1, id);
    PrefixOfSum(s, save + ws, free, k);
    if k < |save| {
      PrefixOfSum(s, save, ws, k);
      assert save[..k] == save[..|save| - 1][..k];
      SaveCut(s, id, save[..k]);
    } else {
      var n := if k <= |save| + |ws| then k - |save| else |ws|;
      PrefixOfSum(s, save, ws, |save| + n);
      WritesStayWithin(s1, ws[..n], PwdAddr(id, 0), PwdAddr(id, SIZE_OF_PWD_BLOCK));
      var s2 := ApplyAll(s1, ws[..n]);
      BlockApart(s1, s2, id);
      EditedTwice(s, id, s1, s2);
      if k > |save| + |ws| {
        assert ws[..n] == ws && (save + ws)[..|save| + n] == save + ws;
        FreeBegins(s2, k - |save| - |ws|);
        var s3 := ApplyAll(s2, free[..k - |save| - |ws|]);
        BackupAreaApart(s2, s3, id);
        EditedTwice(s, id, s2, s3);
      }
    }
  }

  /** A save that was cut before its last write. */
  lemma SaveCut(s: Store, id: nat, ws: seq<Write>)
    requires id < CAPACITY && Within(ws, OFFSET_BACKUP_ID, OFFSET_FIRST_PWD)
    ensures
      var t := ApplyAll(s, ws);
      && OnlyEdited(s, id, t) && BlockOf(t.fram, id) == BlockOf(s.fram, id)
      && StatusOf(t.fram) == StatusOf(s.fram)
  {
    hide ApplyAll, OnlyEdited, BlockOf;
    WritesStayWithin(s, ws, OFFSET_BACKUP_ID, OFFSET_FIRST_PWD);
    BackupAreaApart(s, ApplyAll(s, ws), id);
  }

  // ----- recovery of an edit -----

  /** What a power-on does in a phase, itself cut after k writes. */
  lemma RecoveryPhases(s0: Store, id: nat, b: seq<bv8>, s: Store, phase: Phase, k: nat)
    requires id < CAPACITY && InPhase(s0, id, b, s, phase)
    requires k <= |RestoreWrites(s.fram)|
    ensures InPhase(s0, id, b, ApplyAll(s, RestoreWrites(s.fram)[..k]),
      if phase == Pending && k > SIZE_OF_PWD_BLOCK then Untouched else phase)
  {
    if phase == Pending {
      hide FreeWrites, PartialRestoreWrites, ApplyAll, OnlyEdited, BlockOf, SavedData, SavedId, StatusOf, Within;
      RestoreWithin(s.fram, id);
      PrefixOfSum(s, PartialRestoreWrites(s.fram), FreeWrites(), k);
      if k <= SIZE_OF_PWD_BLOCK {
        RestoreCut(s0, id, b, s, k);
      } else {
        RestoreThenFree(s0, id, b, s, k - SIZE_OF_PWD_BLOCK);
      }
    }
  }

  lemma RestoreCut(s0: Store, id: nat, b: seq<bv8>, s: Store, n: nat)
    requires id < CAPACITY && InPhase(s0, id, b, s, Pending) && n <= |PartialRestoreWrites(s.fram)|
    ensures InPhase(s0, id, b, ApplyAll(s, PartialRestoreWrites(s.fram)[..n]), Pending)
  {
    hide PartialRestoreWrites, ApplyAll, OnlyEdited, BlockOf, SavedData, SavedId, StatusOf, Within;
    var restore := PartialRestoreWrites(s.fram);
    RestoreWithin(s.fram, id);
    WithinPrefix(restore, n, PwdAddr(id, 0), PwdAddr(id, SIZE_OF_PWD_BLOCK));
    WritesStayWithin(s, restore[..n], PwdAddr(id, 0), PwdAddr(id, SIZE_OF_PWD_BLOCK));
    var s1 := ApplyAll(s, restore[..n]);
    BlockApart(s, s1, id);
    EditedTwice(s0, id, s, s1);
  }

  lemma RestoreThenFree(s0: Store, id: nat, b: seq<bv8>, s: Store, k: nat)
    requires id < CAPACITY && InPhase(s0, id, b, s, Pending) && 0 < k <= |FreeWrites()|
    ensures
      var s1 := ApplyAll(s, PartialRestoreWrites(s.fram));
      InPhase(s0, id, b, ApplyAll(s1, FreeWrites()[..k]), Untouched)
  {
    hide FreeWrites, PartialRestoreWrites, ApplyAll, OnlyEdited, BlockOf, SavedData, SavedId, StatusOf, SameOutside;
    var restore := PartialRestoreWrites(s.fram);
    assert restore[..|restore|] == restore;
    RestoreCut(s0, id, b, s, |restore|);
    RestoredBlock(s, id);
    var s1 := ApplyAll(s, restore);
    FreeBegins(s1, k);
    var s2 := ApplyAll(s1, FreeWrites()[..k]);
    BackupAreaApart(s1, s2, id);
    EditedTwice(s0, id, s1, s2);
  }

  lemma RestoreWithin(m: Image, id: nat)
    requires id < CAPACITY && SavedId(m) == id
    ensures |PartialRestoreWrites(m)| == SIZE_OF_PWD_BLOCK
    ensures Within(PartialRestoreWrites(m), PwdAddr(id, 0), PwdAddr(id, SIZE_OF_PWD_BLOCK))
  {
    hide SavedData;
  }

  lemma WithinPrefix(ws: seq<Write>, n: nat, lo: nat, hi: nat)
    requires n <= |ws| && Within(ws, lo, hi)
    ensures Within(ws[..n], lo, hi)
  {
  }

  /** The writes of a restore as a whole. */
  lemma RestoreCompletes(s: Store)
    requires StatusOf(s.fram) != BACKUP_STATUS_OK && SavedId(s.fram) < CAPACITY
    ensures
      var id, t := SavedId(s.fram), ApplyAll(s, RestoreWrites(s.fram));
      && StatusOf(t.fram) == BACKUP_STATUS_OK && BlockOf(t.fram, id) == SavedData(s.fram) && OnlyEdited(s, id, t)
  {
    assert |FreeWrites()| == SIZE_OF_PWD_BLOCK + 3;
    hide FreeWrites, PartialRestoreWrites, ApplyAll, OnlyEdited, BlockOf, SavedData, SavedId, StatusOf, SameOutside;
    var id, restore := SavedId(s.fram), PartialRestoreWrites(s.fram);
    RestoreWithin(s.fram, id);
    WritesStayWithin(s, restore, PwdAddr(id, 0), PwdAddr(id, SIZE_OF_PWD_BLOCK));
    var s1 := ApplyAll(s, restore);
    BlockApart(s, s1, id);
    RestoredBlock(s, id);
    FreeBegins(s1, |FreeWrites()|);
    assert FreeWrites()[..|FreeWrites()|] == FreeWrites();
    var s2 := ApplyAll(s1, FreeWrites());
    BackupAreaApart(s1, s2, id);
    EditedTwice(s, id, s1, s2);
    ApplyAppend(s, restore, FreeWrites());
  }

  lemma RestoredBlock(s: Store, id: nat)
    requires id < CAPACITY && SavedId(s.fram) == id
    ensures BlockOf(ApplyAll(s, PartialRestoreWrites(s.fram)).fram, id) == SavedData(s.fram)
  {
    hide ApplyAll, Splice;
    ApplyFramWrites(s, PwdAddr(id, 0), SavedData(s.fram));
  }

  lemma RestoreLength(s0: Store, id: nat, b: seq<bv8>, s: Store, phase: Phase)
    requires id < CAPACITY && InPhase(s0, id, b, s, phase)
    ensures |RestoreWrites(s.fram)| == if phase == Pending then 2 * SIZE_OF_PWD_BLOCK + 3 else 0
  {
  }
}
