/** A change of the master key under power cuts: no cut loses a credential, and recovery
  finishes the change. Cuts fall between any two writes, except that id and status of
  the backup count as one step (CutInsideCommit says why). */
module RekeyingSafety {
  import opened Bytes
  import opened Aes
  import opened Memory
  import opened MemoryMap
  import opened Crash
  import opened Random
  import opened Device
  import opened Backup
  import opened Views
  import opened Encryption
  import opened Rekeying

  /** A change of key: the memories when it began, and the two keys. */
  datatype Change = Change(start: View, oldKey: Block, newKey: Block)

  ghost predicate Shaped(v: View) {
    |v.head| == OFFSET_BACKUP_STATUS && |v.blocks| == CAPACITY
  }

  ghost predicate InUse(c: Change, id: nat)
    requires Shaped(c.start)
  {
    id < CAPACITY && Used(c.start.head, id)
  }

  /** The block is still as it was when the change began. */
  ghost predicate IsOld(c: Change, v: View, id: nat)
    requires Shaped(c.start) && Shaped(v) && id < CAPACITY
  {
    v.blocks[id] == c.start.blocks[id]
  }

  /** The block reads under the new key as it read under the old one at the start. */
  ghost predicate IsNew(c: Change, v: View, id: nat)
    requires Shaped(c.start) && Shaped(v) && id < CAPACITY
  {
    SameSecrets(c.start.blocks[id], c.oldKey, v.blocks[id], c.newKey)
  }

  /** New below i, old from i on; about block `but` nothing is said. */
  ghost predicate Split(c: Change, v: View, i: nat, but: int)
    requires Shaped(c.start) && Shaped(v)
  {
    forall id: nat | InUse(c, id) && id != but :: if id < i then IsNew(c, v, id) else IsOld(c, v, id)
  }

  /** What no part of a change of key touches. */
  ghost predicate Framed(c: Change, v: View)
    requires Shaped(c.start)
  {
    && Shaped(v) && v.head == c.start.head && v.tail == c.start.tail
    && forall id: nat | id < CAPACITY && !InUse(c, id) :: IsOld(c, v, id)
  }

  ghost predicate Keys(c: Change, v: View) {
    v.card == c.oldKey && v.temp == c.newKey && v.eeprom == c.start.eeprom
  }

  // ----- the stages of a change -----

  ghost predicate Waiting(c: Change, v: View)
    requires Shaped(c.start)
  {
    Framed(c, v) && v.status == BACKUP_STATUS_OK && Split(c, v, 0, -1) && v.card == c.oldKey && v.eeprom == c.start.eeprom
  }

  /** One block may hold anything in its enciphered part; the backup has it. */
  ghost predicate InChunk(c: Change, v: View)
    requires Shaped(c.start)
  {
    && Framed(c, v) && v.status == BACKUP_STATUS_CHANGE_KEY && Keys(c, v)
    && InUse(c, v.savedId) && v.savedData == c.start.blocks[v.savedId]
    && Split(c, v, v.savedId, v.savedId)
    && |v.blocks[v.savedId]| == |v.savedData| == SIZE_OF_PWD_BLOCK
    && v.blocks[v.savedId][..PWD_OFFSET_PWD_IV] == v.savedData[..PWD_OFFSET_PWD_IV]
  }

  ghost predicate AfterChunk(c: Change, v: View)
    requires Shaped(c.start)
  {
    && Framed(c, v) && v.status == BACKUP_STATUS_CHANGE_KEY_CHUNK_OK && Keys(c, v)
    && InUse(c, v.savedId) && Split(c, v, v.savedId + 1, -1)
  }

  ghost predicate AtCard(c: Change, v: View)
    requires Shaped(c.start)
  {
    && Framed(c, v) && v.status == BACKUP_STATUS_CHANGE_KEY_UPDATE_CARD && Split(c, v, CAPACITY, -1)
    && v.card in {c.oldKey, c.newKey} && v.temp == c.newKey && v.eeprom == c.start.eeprom
  }

  ghost predicate AtValidation(c: Change, v: View)
    requires Shaped(c.start)
  {
    && Framed(c, v) && v.status == BACKUP_STATUS_CHANGE_KEY_VALIDATION && Split(c, v, CAPACITY, -1)
    && v.card == v.temp == c.newKey
  }

  /** Every credential in use is under the new key, card and EEPROM agree, nothing is pending. */
  ghost predicate Finished(c: Change, v: View)
    requires Shaped(c.start)
  {
    && Framed(c, v) && v.status == BACKUP_STATUS_OK && Split(c, v, CAPACITY, -1)
    && v.card == c.newKey && KeyMatches(v.eeprom, c.newKey)
  }

  ghost predicate Safe(c: Change, v: View)
    requires Shaped(c.start)
  {
    || Waiting(c, v) || InChunk(c, v) || AfterChunk(c, v) || AtCard(c, v) || AtValidation(c, v) || Finished(c, v)
  }

  ghost function Keep(c: Change): Store -> bool
    requires Shaped(c.start)
  {
    s => Safe(c, ViewOf(s))
  }

  // ----- one chunk -----

  /** Credential i is the next to be enciphered anew. */
  ghost predicate Ready(c: Change, v: View, i: nat)
    requires Shaped(c.start)
  {
    && Keys(c, v) && Framed(c, v) && Split(c, v, i, -1)
    && (Waiting(c, v) || AfterChunk(c, v) || (InChunk(c, v) && v.savedId == i))
  }

  lemma CopiedSafe(c: Change, v: View, d: seq<bv8>)
    requires Shaped(c.start) && (Waiting(c, v) || AfterChunk(c, v))
    ensures
      var v' := v.(savedData := d);
      (Waiting(c, v) ==> Waiting(c, v')) && (AfterChunk(c, v) ==> AfterChunk(c, v'))
    ensures forall i: nat :: Split(c, v, i, -1) ==> Split(c, v.(savedData := d), i, -1)
  {
  }

  lemma CommitSafe(c: Change, v: View, i: nat)
    requires Shaped(c.start) && Ready(c, v, i) && InUse(c, i)
    requires v.savedData == v.blocks[i] && |v.savedData| == SIZE_OF_PWD_BLOCK
    ensures InChunk(c, v.(savedId := i, status := BACKUP_STATUS_CHANGE_KEY))
  {
  }

  lemma WritingSafe(c: Change, v: View, b: seq<bv8>)
    requires Shaped(c.start) && InChunk(c, v) && |b| == SIZE_OF_PWD_BLOCK
    requires b[..PWD_OFFSET_PWD_IV] == v.blocks[v.savedId][..PWD_OFFSET_PWD_IV]
    ensures InChunk(c, v.(blocks := v.blocks[v.savedId := b]))
  {
  }

  lemma RekeyedSafe(c: Change, v: View, i: nat)
    requires Shaped(c.start) && InChunk(c, v) && v.savedId == i && IsNew(c, v, i)
    ensures Ready(c, v.(status := BACKUP_STATUS_CHANGE_KEY_CHUNK_OK), i + 1)
    ensures AfterChunk(c, v.(status := BACKUP_STATUS_CHANGE_KEY_CHUNK_OK))
  {
    hide SameSecrets;
  }

  lemma SkipUnused(c: Change, v: View, i: nat)
    requires Shaped(c.start) && Ready(c, v, i) && !InUse(c, i)
    ensures Ready(c, v, i + 1)
  {
    hide SameSecrets;
  }

  lemma ReadySafe(c: Change, s: Store, i: nat)
    requires Shaped(c.start) && Ready(c, ViewOf(s), i)
    ensures Keep(c)(s)
  {
  }

  /** Copying block i to the backup: nothing looks at the copy yet, or it is there already. */
  lemma CopySafe(c: Change, s: Store, i: nat)
    requires Shaped(c.start) && Ready(c, ViewOf(s), i) && InUse(c, i)
    ensures
      var ws := FramWrites(OFFSET_BACKUP_DATA, BlockOf(s.fram, i));
      var t := ApplyAll(s, ws);
      Always(Keep(c), s, Singly(ws)) && RunSteps(s, Singly(ws)) == t && Ready(c, ViewOf(t), i)
  {
    hide ApplyAll, Always, RunSteps, SameOutside, ViewOf, Keep, Framed, Split, Singly;
    var b := BlockOf(s.fram, i);
    var ws := FramWrites(OFFSET_BACKUP_DATA, b);
    RunSingly(s, ws);
    ReadySafe(c, s, i);
    if InChunk(c, ViewOf(s)) {
      OldBlock(c, s, i);
      PartsOf(s);
      AlwaysRewriting(Keep(c), s, OFFSET_BACKUP_DATA, b);
    } else {
      AfterCopy(s, i);
      CopiedSafe(c, ViewOf(s), b);
      forall t | SameOutside(s, t, OFFSET_BACKUP_DATA, OFFSET_BACKUP_DATA + |b|)
        ensures Keep(c)(t)
      {
        ViewAfterBackupData(s, t);
        CopiedSafe(c, ViewOf(s), SavedData(t.fram));
        KeepIs(c, t);
      }
      AlwaysWriting(Keep(c), s, OFFSET_BACKUP_DATA, b);
    }
  }

  lemma KeepIs(c: Change, t: Store)
    requires Shaped(c.start)
    ensures Keep(c)(t) <==> Safe(c, ViewOf(t))
  {
  }

  lemma OldBlock(c: Change, s: Store, i: nat)
    requires Shaped(c.start) && Split(c, ViewOf(s), i, -1) && InUse(c, i)
    ensures BlockOf(s.fram, i) == ViewOf(s).blocks[i] == c.start.blocks[i]
  {
    assert IsOld(c, ViewOf(s), i);
  }

  /** Writing into the block whose backup is valid. */
  lemma ChunkWritesSafe(c: Change, s: Store, ws: seq<Write>)
    requires Shaped(c.start) && InChunk(c, ViewOf(s))
    requires
      var i := ViewOf(s).savedId;
      Within(ws, PwdAddr(i, PWD_OFFSET_PWD_IV), PwdAddr(i, SIZE_OF_PWD_BLOCK))
    ensures Always(Keep(c), s, Singly(ws)) && RunSteps(s, Singly(ws)) == ApplyAll(s, ws)
    ensures InChunk(c, ViewOf(ApplyAll(s, ws)))
  {
    hide ApplyAll, Always, RunSteps, SameOutside, ViewOf, Keep, Framed, Split, Singly, Within, BlockOf;
    var i := ViewOf(s).savedId;
    var lo, hi := PwdAddr(i, PWD_OFFSET_PWD_IV), PwdAddr(i, SIZE_OF_PWD_BLOCK);
    forall t | SameOutside(s, t, lo, hi)
      ensures Keep(c)(t) && InChunk(c, ViewOf(t))
    {
      ViewAfterBlock(s, t, i, PWD_OFFSET_PWD_IV);
      BlockInView(s, i);
      WritingSafe(c, ViewOf(s), BlockOf(t.fram, i));
      KeepIs(c, t);
    }
    AlwaysWithin(Keep(c), s, ws, lo, hi);
  }

  lemma AlwaysOneStep(p: Store -> bool, s: Store, step: Step)
    requires p(s) && p(ApplyAll(s, step))
    ensures Always(p, s, [step])
    ensures RunSteps(s, [step]) == ApplyAll(s, step)
  {
    assert [step][1..] == [];
  }

  /** Credential i is enciphered anew, and every cut is safe. */
  lemma ChunkSafe(c: Change, s: Store, i: nat, ivs: nat -> Draw)
    requires Shaped(c.start) && Ready(c, ViewOf(s), i) && InUse(c, i)
    ensures
      var chunk := ChunkSteps(s.fram, i, c.oldKey, c.newKey, ivs);
      Always(Keep(c), s, chunk) && Ready(c, ViewOf(RunSteps(s, chunk)), i + 1)
  {
    hide ApplyAll, Always, RunSteps, ViewOf, Keep, Framed, Singly, FramWrites, SecretWrites, Commit;
    hide BlockOf, RekeyedIn, SameSecrets;
    var data, secret := FramWrites(OFFSET_BACKUP_DATA, BlockOf(s.fram, i)), SecretWrites(s.fram, i, c.oldKey, c.newKey, ivs);
    var last := StatusWrite(BACKUP_STATUS_CHANGE_KEY_CHUNK_OK);
    var s1, s2, s3 := ChunkStates(s, i, c.oldKey, c.newKey, ivs);
    OldBlock(c, s, i);
    CopySafe(c, s, i);
    ReadySafe(c, s1, i);
    AfterCopy(s, i);
    AfterCommit(s1, i);
    OldBlock(c, s1, i);
    CommitSafe(c, ViewOf(s1), i);
    KeepIs(c, s2);
    AlwaysOneStep(Keep(c), s1, Commit(i));
    SameBlock(s, s2, i);
    AfterSecrets(s.fram, s2, i, c.oldKey, c.newKey, ivs);
    ChunkWritesSafe(c, s2, secret);
    KeepIs(c, s3);
    ChunkSecrets(s.fram, i, c.oldKey, c.newKey, ivs);
    RekeyedSafe(c, ViewOf(s3), i);
    ViewAfterStatus(s3, BACKUP_STATUS_CHANGE_KEY_CHUNK_OK);
    KeepIs(c, Apply(s3, last));
    AlwaysOneWrite(Keep(c), s3, last);
    ChunkCuts(Keep(c), s, data, Commit(i), secret, last);
  }

  /** The parts of a chunk put together. */
  lemma ChunkCuts(p: Store -> bool, s: Store, data: seq<Write>, commit: Step, secret: seq<Write>, last: Write)
    requires Always(p, s, Singly(data))
    requires
      var s1 := ApplyAll(s, data);
      var s2 := ApplyAll(s1, commit);
      Always(p, s1, [commit]) && Always(p, s2, Singly(secret)) && Always(p, ApplyAll(s2, secret), [[last]])
    ensures Always(p, s, Singly(data) + [commit] + Singly(secret) + [[last]])
  {
    hide ApplyAll, Always, RunSteps, Singly;
    var s1 := ApplyAll(s, data);
    var s2 := ApplyAll(s1, commit);
    RunSingly(s, data);
    RunOne(s1, commit);
    RunSingly(s2, secret);
    AlwaysAppend(p, s, Singly(data), [commit]);
    RunAppend(s, Singly(data), [commit]);
    AlwaysAppend(p, s, Singly(data) + [commit], Singly(secret));
    RunAppend(s, Singly(data) + [commit], Singly(secret));
    AlwaysAppend(p, s, Singly(data) + [commit] + Singly(secret), [[last]]);
  }

  /** The credentials from i on are enciphered anew, and every cut is safe. */
  lemma {:induction false} RekeySafe(c: Change, s: Store, i: nat, ivs: nat -> Draw)
    requires Shaped(c.start) && Ready(c, ViewOf(s), i) && MapFits(c.start.head)
    ensures
      var ids := UsedFrom(c.start.head, i, MAXIMUM_NUMBER_OF_PWD);
      && AllFit(ids)
      && Always(Keep(c), s, RekeySteps(s, ids, c.oldKey, c.newKey, ivs))
      && Ready(c, ViewOf(RunSteps(s, RekeySteps(s, ids, c.oldKey, c.newKey, ivs))),
           if i < MAXIMUM_NUMBER_OF_PWD then MAXIMUM_NUMBER_OF_PWD else i)
    decreases MAXIMUM_NUMBER_OF_PWD - i
  {
    hide Always, RunSteps, ViewOf, Keep, Framed, ChunkSteps, Used, Split, Waiting, AfterChunk, InChunk;
    hide Keys, UsedFrom;
    var ids := UsedFrom(c.start.head, i, MAXIMUM_NUMBER_OF_PWD);
    UsedFromStep(c.start.head, i, MAXIMUM_NUMBER_OF_PWD);
    if i >= MAXIMUM_NUMBER_OF_PWD {
      RunNothing(s);
      ReadySafe(c, s, i);
      AlwaysNothing(Keep(c), s);
    } else if InUse(c, i) {
      var chunk := ChunkSteps(s.fram, i, c.oldKey, c.newKey, ivs);
      var s1 := RunSteps(s, chunk);
      ChunkSafe(c, s, i, ivs);
      RekeySafe(c, s1, i + 1, ivs);
      var rest := RekeySteps(s1, UsedFrom(c.start.head, i + 1, MAXIMUM_NUMBER_OF_PWD), c.oldKey, c.newKey, ivs);
      assert ids[1..] == UsedFrom(c.start.head, i + 1, MAXIMUM_NUMBER_OF_PWD);
      AlwaysAppend(Keep(c), s, chunk, rest);
      RunAppend(s, chunk, rest);
    } else {
      SkipUnused(c, ViewOf(s), i);
      RekeySafe(c, s, i + 1, ivs);
    }
  }

  lemma AlwaysNothing(p: Store -> bool, s: Store)
    requires p(s)
    ensures Always(p, s, [])
  {
  }

  // ----- card, validation pair and the end -----

  /** The same except for the EEPROM and the entropy pool. */
  ghost predicate SameButEeprom(s: Store, t: Store) {
    SameOutside(s.(eeprom := t.eeprom), t, 0, 0)
  }

  ghost predicate EepromOnly(ws: seq<Write>) {
    forall i: nat | i < |ws| :: ws[i].ToEeprom? || (ws[i].ToFram? && InPool(ws[i].addr))
  }

  lemma {:induction false} AlwaysInEeprom(p: Store -> bool, s: Store, ws: seq<Write>)
    requires EepromOnly(ws)
    requires forall t | SameButEeprom(s, t) :: p(t)
    ensures Always(p, s, Singly(ws)) && RunSteps(s, Singly(ws)) == ApplyAll(s, ws)
    decreases |ws|
  {
    assert SameButEeprom(s, s);
    RunSingly(s, ws);
    if ws != [] {
      var s1 := Apply(s, ws[0]);
      ApplyOne(s, ws[0]);
      assert Singly(ws)[1..] == Singly(ws[1..]);
      assert EepromOnly(ws[1..]);
      assert SameButEeprom(s, s1);
      forall t | SameButEeprom(s1, t)
        ensures p(t)
      {
        assert SameButEeprom(s, t);
      }
      AlwaysInEeprom(p, s1, ws[1..]);
    }
  }

  lemma {:induction false} StoredInEeprom(d: seq<Drawn>)
    ensures EepromOnly(StoredDrawWrites(d))
    decreases |d|
  {
    if d != [] {
      StoredInEeprom(d[..|d| - 1]);
    }
  }

  lemma ValidationInEeprom(k: Block, r: Draw)
    ensures EepromOnly(ValidationWrites(k, r))
  {
    hide StoredDrawWrites, Validation, DrawBytes;
    StoredInEeprom(r);
  }

  /** From status VALIDATION on, every cut is safe, and the end is the end of the change. */
  lemma FinishSafe(c: Change, s: Store, luck: Luck)
    requires Shaped(c.start) && AtValidation(c, ViewOf(s))
    ensures
      var steps := FinishSteps(c.newKey, luck);
      Always(Keep(c), s, steps) && Finished(c, ViewOf(RunSteps(s, steps)))
  {
    hide Always, RunSteps, ViewOf, Keep, Framed, Split, ApplyAll, KeyMatches, Validation, Singly, FreeWrites;
    hide SameButEeprom, EepromOnly, StoredDrawWrites, DrawBytes;
    var ws := ValidationWrites(c.newKey, luck.random);
    ValidationInEeprom(c.newKey, luck.random);
    hide ValidationWrites;
    forall t | SameButEeprom(s, t)
      ensures Keep(c)(t) && AtValidation(c, ViewOf(t))
    {
      EepromInView(s, t);
      CardAndEepromApart(c, ViewOf(s), ViewOf(s).card, t.eeprom);
      KeepIs(c, t);
    }
    AlwaysInEeprom(Keep(c), s, ws);
    var s1 := ApplyAll(s, ws);
    ValidationMatches(s, c.newKey, luck.random);
    assert SameButEeprom(s, s1) by { SameButEepromIs(s, s1); }
    FreeSafe(c, s1);
    AlwaysAppend(Keep(c), s, Singly(ws), Singly(FreeWrites()));
    RunAppend(s, Singly(ws), Singly(FreeWrites()));
  }

  lemma SameButEepromIs(s: Store, t: Store)
    ensures SameButEeprom(s, t) <==> SameOutside(s.(eeprom := t.eeprom), t, 0, 0)
  {
  }

  lemma EepromInView(s: Store, t: Store)
    requires SameButEeprom(s, t)
    ensures ViewOf(t) == ViewOf(s).(eeprom := t.eeprom)
  {
    ViewAfterPool(s.(eeprom := t.eeprom), t);
    hide HeadOf, BlockOf, IdOf;
    assert ViewOf(s.(eeprom := t.eeprom)).blocks == ViewOf(s).blocks;
  }

  lemma CardInView(s: Store, k: Block)
    ensures ViewOf(Apply(s, ToCard(k))) == ViewOf(s).(card := k)
    ensures ViewOf(Apply(s, ToCardTemp(k))) == ViewOf(s).(temp := k)
  {
    hide HeadOf, BlockOf, IdOf;
  }

  /** Framed and Split do not look at the backup area, the card or the EEPROM. */
  lemma CardAndEepromApart(c: Change, v: View, card: Block, e: Eeprom)
    requires Shaped(c.start)
    ensures Framed(c, v.(card := card, eeprom := e)) == Framed(c, v)
    ensures Shaped(v) ==> forall i: nat :: Split(c, v.(card := card, eeprom := e), i, -1) == Split(c, v, i, -1)
  {
  }

  lemma BackupApart(c: Change, v: View, status: bv8, id: nat, data: seq<bv8>)
    requires Shaped(c.start)
    ensures Framed(c, v.(status := status, savedId := id, savedData := data)) == Framed(c, v)
    ensures Shaped(v) ==> forall i: nat ::
      Split(c, v.(status := status, savedId := id, savedData := data), i, -1) == Split(c, v, i, -1)
  {
  }

  /** Freeing the backup ends the change with its first write. */
  lemma FreeSafe(c: Change, s: Store)
    requires Shaped(c.start) && AtValidation(c, ViewOf(s)) && KeyMatches(s.eeprom, c.newKey)
    ensures Always(Keep(c), s, Singly(FreeWrites()))
    ensures Finished(c, ViewOf(RunSteps(s, Singly(FreeWrites()))))
  {
    hide Always, RunSteps, ViewOf, Keep, Framed, Split, ApplyAll, KeyMatches, Singly, SameOutside;
    var first := StatusWrite(BACKUP_STATUS_OK);
    var rest := FreeWrites()[1..];
    var s1 := Apply(s, first);
    PartsOf(s);
    ViewAfterStatus(s, BACKUP_STATUS_OK);
    FinishedAfterFree(c, s, s1);
    KeepIs(c, s);
    KeepIs(c, s1);
    AlwaysOneWrite(Keep(c), s, first);
    FreeWithin(rest);
    forall t | SameOutside(s1, t, OFFSET_BACKUP_ID, OFFSET_FIRST_PWD)
      ensures Keep(c)(t) && Finished(c, ViewOf(t))
    {
      FreedView(s1, t);
      PartsOf(t);
      FinishedAfterFree(c, s, t);
      KeepIs(c, t);
    }
    AlwaysWithin(Keep(c), s1, rest, OFFSET_BACKUP_ID, OFFSET_FIRST_PWD);
    SinglyFirst(first, rest);
    AlwaysAppend(Keep(c), s, [[first]], Singly(rest));
    RunAppend(s, [[first]], Singly(rest));
  }

  lemma SinglyFirst(w: Write, ws: seq<Write>)
    ensures Singly([w] + ws) == [[w]] + Singly(ws)
  {
  }

  lemma FreeWithin(rest: seq<Write>)
    requires rest == FreeWrites()[1..]
    ensures FreeWrites() == [StatusWrite(BACKUP_STATUS_OK)] + rest
    ensures Within(rest, OFFSET_BACKUP_ID, OFFSET_FIRST_PWD)
  {
  }

  /** A view in which only the backup area has changed, and its status not. */
  lemma FreedView(s: Store, t: Store)
    requires SameOutside(s, t, OFFSET_BACKUP_ID, OFFSET_FIRST_PWD)
    ensures ViewOf(t) == ViewOf(s).(savedId := SavedId(t.fram), savedData := SavedData(t.fram))
  {
    hide IdOf, SavedId, SavedData;
    assert SameOutside(s, t, OFFSET_BACKUP_STATUS, OFFSET_FIRST_PWD);
    ViewAfterBackupArea(s, t);
  }

  lemma FinishedAfterFree(c: Change, s: Store, t: Store)
    requires Shaped(c.start) && AtValidation(c, ViewOf(s)) && KeyMatches(s.eeprom, c.newKey)
    requires ViewOf(t) ==
      ViewOf(s).(status := BACKUP_STATUS_OK, savedId := ViewOf(t).savedId, savedData := ViewOf(t).savedData)
    ensures Finished(c, ViewOf(t))
  {
    hide ViewOf, Framed, Split, KeyMatches;
    PartsOf(s);
    BackupApart(c, ViewOf(s), BACKUP_STATUS_OK, ViewOf(t).savedId, ViewOf(t).savedData);
  }

  /** From status UPDATE_CARD on. */
  lemma CardSafe(c: Change, s: Store, luck: Luck)
    requires Shaped(c.start) && AtCard(c, ViewOf(s))
    ensures Always(Keep(c), s, CardSteps(c.newKey, luck))
    ensures
      var t := RunSteps(s, CardSteps(c.newKey, luck));
      if luck.writes then Finished(c, ViewOf(t)) else t == s
  {
    hide Always, RunSteps, ViewOf, Keep, Framed, Split, KeyMatches, FinishSteps;
    var k := c.newKey;
    KeepIs(c, s);
    if luck.writes {
      var card, status := ToCard(k), StatusWrite(BACKUP_STATUS_CHANGE_KEY_VALIDATION);
      var s1 := Apply(s, card);
      CardInView(s, k);
      CardAndEepromApart(c, ViewOf(s), k, ViewOf(s).eeprom);
      KeepIs(c, s1);
      AlwaysOneWrite(Keep(c), s, card);
      var s2 := Apply(s1, status);
      ViewAfterStatus(s1, BACKUP_STATUS_CHANGE_KEY_VALIDATION);
      BackupApart(c, ViewOf(s1), BACKUP_STATUS_CHANGE_KEY_VALIDATION, ViewOf(s1).savedId, ViewOf(s1).savedData);
      KeepIs(c, s2);
      AlwaysOneWrite(Keep(c), s1, status);
      FinishSafe(c, s2, luck);
      AlwaysAppend(Keep(c), s, [[card]], [[status]]);
      RunAppend(s, [[card]], [[status]]);
      AlwaysAppend(Keep(c), s, [[card]] + [[status]], FinishSteps(k, luck));
      RunAppend(s, [[card]] + [[status]], FinishSteps(k, luck));
    } else {
      RunNothing(s);
      AlwaysNothing(Keep(c), s);
    }
  }

  /** From credential i on to the end. */
  lemma RekeyThenCardSafe(c: Change, s: Store, i: nat, luck: Luck)
    requires Shaped(c.start) && Ready(c, ViewOf(s), i) && MapFits(c.start.head)
    ensures
      var ids := UsedFrom(c.start.head, i, MAXIMUM_NUMBER_OF_PWD);
      && AllFit(ids)
      && var steps := RekeyThenCard(s, ids, c.oldKey, c.newKey, luck);
         && Always(Keep(c), s, steps)
         && (luck.writes ==> Finished(c, ViewOf(RunSteps(s, steps))))
  {
    hide Always, RunSteps, ViewOf, Keep, Framed, Split, KeyMatches, CardSteps, RekeySteps, UsedFrom;
    hide Waiting, AfterChunk, InChunk;
    var ids := UsedFrom(c.start.head, i, MAXIMUM_NUMBER_OF_PWD);
    RekeySafe(c, s, i, luck.ivs);
    var rekey := RekeySteps(s, ids, c.oldKey, c.newKey, luck.ivs);
    var s1 := RunSteps(s, rekey);
    var status := StatusWrite(BACKUP_STATUS_CHANGE_KEY_UPDATE_CARD);
    var s2 := Apply(s1, status);
    var n := if i < MAXIMUM_NUMBER_OF_PWD then MAXIMUM_NUMBER_OF_PWD else i;
    AllRekeyed(c, s1, n);
    ReadySafe(c, s1, n);
    KeepIs(c, s2);
    AlwaysOneWrite(Keep(c), s1, status);
    AlwaysAppend(Keep(c), s, rekey, [[status]]);
    RunAppend(s, rekey, [[status]]);
    CardSafe(c, s2, luck);
    AlwaysAppend(Keep(c), s, rekey + [[status]], CardSteps(c.newKey, luck));
    RunAppend(s, rekey + [[status]], CardSteps(c.newKey, luck));
  }

  lemma AllRekeyed(c: Change, s: Store, n: nat)
    requires Shaped(c.start) && Ready(c, ViewOf(s), n) && n >= MAXIMUM_NUMBER_OF_PWD
    ensures AtCard(c, ViewOf(Apply(s, StatusWrite(BACKUP_STATUS_CHANGE_KEY_UPDATE_CARD))))
  {
    hide ViewOf, SameSecrets;
    ViewAfterStatus(s, BACKUP_STATUS_CHANGE_KEY_UPDATE_CARD);
  }

  // ----- recovery -----

  /** A safe state is one that recovery can start from. */
  lemma SafeIsRecoverable(c: Change, s: Store)
    requires Shaped(c.start) && Safe(c, ViewOf(s)) && MapFits(c.start.head)
    ensures Recoverable(s.fram) && StatusOf(s.fram) != BACKUP_STATUS_UPDATE
  {
    hide ViewOf, Split, Used, HeadOf;
    PartsOf(s);
    UsedInHead(s.fram, CAPACITY);
  }

  /** Restoring the block in the middle: its first part is there already. */
  lemma RestoreSafe(c: Change, s: Store)
    requires Shaped(c.start) && InChunk(c, ViewOf(s))
    ensures
      var restore := Singly(PartialRestoreWrites(s.fram));
      && Always(Keep(c), s, restore)
      && Ready(c, ViewOf(RunSteps(s, restore)), SavedId(s.fram))
  {
    hide Always, RunSteps, ViewOf, Keep, Framed, Split, ApplyAll, Singly, BlockOf, SavedData, SavedId, FramWrites;
    var id, b := SavedId(s.fram), SavedData(s.fram);
    PartsOf(s);
    BlockInView(s, id);
    var n := PWD_OFFSET_PWD_IV;
    var lo := PwdAddr(id, 0);
    FrontOfBlock(s.fram, id, n);
    SplitFramWrites(lo, b, n);
    KeepIs(c, s);
    var front, back := FramWrites(lo, b[..n]), FramWrites(lo + n, b[n..]);
    AlwaysRewriting(Keep(c), s, lo, b[..n]);
    BackWithin(id, n, b[n..]);
    ChunkWritesSafe(c, s, back);
    AlwaysAppend(Keep(c), s, Singly(front), Singly(back));
    RunAppend(s, Singly(front), Singly(back));
    RestoredIsOld(c, s);
  }

  lemma BackWithin(id: nat, n: nat, bytes: seq<bv8>)
    requires n + |bytes| == SIZE_OF_PWD_BLOCK
    ensures Within(FramWrites(PwdAddr(id, 0) + n, bytes), PwdAddr(id, n), PwdAddr(id, SIZE_OF_PWD_BLOCK))
  {
  }

  lemma FrontOfBlock(m: Image, id: nat, n: nat)
    requires id < CAPACITY && n <= SIZE_OF_PWD_BLOCK
    ensures BlockOf(m, id)[..n] == m[PwdAddr(id, 0)..PwdAddr(id, 0) + n]
  {
    SliceOfSlice(m, PwdAddr(id, 0), PwdAddr(id, SIZE_OF_PWD_BLOCK), 0, n);
  }

  lemma SplitFramWrites(addr: nat, b: seq<bv8>, n: nat)
    requires n <= |b|
    ensures Singly(FramWrites(addr, b)) == Singly(FramWrites(addr, b[..n])) + Singly(FramWrites(addr + n, b[n..]))
    ensures FramWrites(addr, b) == FramWrites(addr, b[..n]) + FramWrites(addr + n, b[n..])
  {
  }

  lemma RestoredIsOld(c: Change, s: Store)
    requires Shaped(c.start) && InChunk(c, ViewOf(s))
    ensures Ready(c, ViewOf(RunSteps(s, Singly(PartialRestoreWrites(s.fram)))), SavedId(s.fram))
  {
    hide RunSteps, ViewOf, Framed, Split, ApplyAll, Singly, BlockOf, SavedData, SavedId, SameOutside;
    var id := SavedId(s.fram);
    var t := ApplyAll(s, PartialRestoreWrites(s.fram));
    PartsOf(s);
    RunSingly(s, PartialRestoreWrites(s.fram));
    RestoredBlock(s, id);
    WritesStayWithin(s, PartialRestoreWrites(s.fram), PwdAddr(id, 0), PwdAddr(id, SIZE_OF_PWD_BLOCK));
    ViewAfterBlock(s, t, id, 0);
    OldAgain(c, ViewOf(s));
  }

  lemma OldAgain(c: Change, v: View)
    requires Shaped(c.start) && InChunk(c, v)
    ensures Ready(c, v.(blocks := v.blocks[v.savedId := v.savedData]), v.savedId)
  {
    hide SameSecrets;
  }

  lemma ResumeSafe(c: Change, s: Store, resets: bool, luck: Luck)
    requires Shaped(c.start) && MapFits(c.start.head) && Covers(c.start.head, resets)
    requires InChunk(c, ViewOf(s)) || AfterChunk(c, ViewOf(s))
    requires Recoverable(s.fram)
    ensures Always(Keep(c), s, ResumeSteps(s, resets, luck))
    ensures luck.writes ==> Finished(c, ViewOf(RunSteps(s, ResumeSteps(s, resets, luck))))
  {
    hide Always, RunSteps, ViewOf, Keep, Framed, Split, RekeyThenCard, RekeyIds, MapFits, Covers, Used;
    hide UsedFrom, PartialRestoreWrites, Singly;
    PartsOf(s);
    var start := if InChunk(c, ViewOf(s)) then SavedId(s.fram) else SavedId(s.fram) + 1;
    var head := c.start.head;
    SafeHead(c, s);
    SameIds(s.fram, head, start, resets);
    CoverageFrom(head, start, resets);
    if InChunk(c, ViewOf(s)) {
      var restore := Singly(PartialRestoreWrites(s.fram));
      RestoreSafe(c, s);
      var s1 := RunSteps(s, restore);
      RekeyThenCardSafe(c, s1, start, luck);
      var rest := RekeyThenCard(s1, UsedFrom(head, start, MAXIMUM_NUMBER_OF_PWD), c.oldKey, c.newKey, luck);
      AlwaysAppend(Keep(c), s, restore, rest);
      RunAppend(s, restore, rest);
    } else {
      RekeyThenCardSafe(c, s, start, luck);
    }
  }

  lemma SafeHead(c: Change, s: Store)
    requires Shaped(c.start) && Safe(c, ViewOf(s))
    ensures HeadOf(s.fram) == c.start.head
  {
    hide ViewOf, Split, SameSecrets, HeadOf;
    PartsOf(s);
  }

  lemma SameIds(m: Image, head: seq<bv8>, start: nat, resets: bool)
    requires head == HeadOf(m)
    ensures RekeyIds(m, start, resets) == RekeyIds(head, start, resets)
  {
    hide UsedFrom, HeadOf;
    HeadOfHead(m);
    SameUsed(m, head, start, RekeyLimit(start, resets));
  }

  /** Cut anywhere, a recovery leaves the memories safe. */
  lemma RecoverySafe(c: Change, s: Store, resets: bool, luck: Luck)
    requires Shaped(c.start) && MapFits(c.start.head) && Covers(c.start.head, resets)
    requires Safe(c, ViewOf(s)) && Recoverable(s.fram)
    ensures Always(Keep(c), s, RecoverSteps(s, resets, luck))
  {
    hide Always, RunSteps, ViewOf, Framed, Split, ResumeSteps, CardSteps, FinishSteps, MapFits, Covers, KeyMatches;
    PartsOf(s);
    SafeStatus(c, s);
    AlwaysNothing(Keep(c), s);
    if StatusOf(s.fram) != BACKUP_STATUS_OK && !Refused(s, luck.ready) {
      if AtValidation(c, ViewOf(s)) {
        FinishSafe(c, s, luck);
      } else if AtCard(c, ViewOf(s)) {
        CardSafe(c, s, luck);
      } else {
        ResumeSafe(c, s, resets, luck);
      }
    }
  }

  lemma SafeStatus(c: Change, s: Store)
    requires Shaped(c.start) && Safe(c, ViewOf(s))
    ensures Keep(c)(s)
    ensures StatusOf(s.fram) != BACKUP_STATUS_UPDATE
    ensures AtValidation(c, ViewOf(s)) <==> StatusOf(s.fram) == BACKUP_STATUS_CHANGE_KEY_VALIDATION
    ensures AtCard(c, ViewOf(s)) <==> StatusOf(s.fram) == BACKUP_STATUS_CHANGE_KEY_UPDATE_CARD
    ensures Waiting(c, ViewOf(s)) || Finished(c, ViewOf(s)) <==> StatusOf(s.fram) == BACKUP_STATUS_OK
    ensures AtValidation(c, ViewOf(s)) || AtCard(c, ViewOf(s)) ==> s.temp == c.newKey
  {
    hide ViewOf, Framed, Split;
    PartsOf(s);
  }

  /** An uninterrupted recovery with the right card finishes the change exactly if the key
    on the card passes the check or is not checked any more. (It does not pass after a cut
    between the write to the card and the status that follows it.) */
  lemma RecoveryCompletes(c: Change, s: Store, resets: bool, luck: Luck)
    requires Shaped(c.start) && MapFits(c.start.head) && Covers(c.start.head, resets)
    requires Safe(c, ViewOf(s)) && Recoverable(s.fram)
    requires StatusOf(s.fram) != BACKUP_STATUS_OK && luck.ready && luck.writes
    ensures
      Finished(c, ViewOf(RunSteps(s, RecoverSteps(s, resets, luck)))) <==>
        StatusOf(s.fram) == BACKUP_STATUS_CHANGE_KEY_VALIDATION || KeyMatches(s.eeprom, s.card)
  {
    hide Always, RunSteps, ViewOf, Framed, Split, ResumeSteps, CardSteps, FinishSteps, MapFits, Covers, KeyMatches;
    PartsOf(s);
    SafeStatus(c, s);
    RunNothing(s);
    if !Refused(s, luck.ready) {
      if AtValidation(c, ViewOf(s)) {
        FinishSafe(c, s, luck);
      } else if AtCard(c, ViewOf(s)) {
        CardSafe(c, s, luck);
      } else {
        ResumeSafe(c, s, resets, luck);
      }
    }
  }

  lemma {:induction false} RestartsSafe(c: Change, s: Store, resets: bool, runs: seq<PowerOn>)
    requires Shaped(c.start) && MapFits(c.start.head) && Covers(c.start.head, resets)
    requires Safe(c, ViewOf(s))
    ensures Safe(c, ViewOf(Restarted(s, resets, runs)))
    decreases |runs|
  {
    hide Always, RunSteps, ViewOf, RecoverSteps, MapFits, Covers, Safe, Keep;
    if runs != [] {
      SafeIsRecoverable(c, s);
      var steps := RecoverSteps(s, resets, runs[0].luck);
      var n := if runs[0].steps <= |steps| then runs[0].steps else |steps|;
      assert steps[..|steps|] == steps;
      RecoverySafe(c, s, resets, runs[0].luck);
      AlwaysCut(Keep(c), s, steps, n);
      KeepIs(c, RunSteps(s, steps[..n]));
      RestartsSafe(c, RunSteps(s, steps[..n]), resets, runs[1..]);
    }
  }

  // ----- the whole -----

  /** A credential can be read with a key that is on the card, from its block or from the
    backup, and reads as it did before the change. */
  ghost predicate Readable(c: Change, v: View, id: nat)
    requires Shaped(c.start) && Shaped(v) && id < CAPACITY
  {
    || SameSecrets(c.start.blocks[id], c.oldKey, v.blocks[id], v.card)
    || SameSecrets(c.start.blocks[id], c.oldKey, v.blocks[id], v.temp)
    || (v.savedId == id && SameSecrets(c.start.blocks[id], c.oldKey, v.savedData, v.card))
  }

  ghost predicate WholeBlocks(v: View)
    requires Shaped(v)
  {
    forall id: nat | id < CAPACITY :: |v.blocks[id]| == SIZE_OF_PWD_BLOCK
  }

  lemma SafeIsReadable(c: Change, v: View, id: nat)
    requires Shaped(c.start) && WholeBlocks(c.start) && Safe(c, v) && InUse(c, id)
    ensures Readable(c, v, id)
  {
    hide TextIn;
    assert SameSecrets(c.start.blocks[id], c.oldKey, c.start.blocks[id], c.oldKey);
  }

  /** Readable in terms of the memories: as the device reads the block with one of the two keys
    on the card, or the copy in the backup with the old one. */
  lemma ReadableIs(s: Store, t: Store, oldKey: Block, newKey: Block, id: nat)
    requires id < CAPACITY && Readable(Change(ViewOf(s), oldKey, newKey), ViewOf(t), id)
    ensures
      || (DataOf(t.fram, id, t.card) == DataOf(s.fram, id, oldKey) && UsrOf(t.fram, id, t.card) == UsrOf(s.fram, id, oldKey))
      || (DataOf(t.fram, id, t.temp) == DataOf(s.fram, id, oldKey) && UsrOf(t.fram, id, t.temp) == UsrOf(s.fram, id, oldKey))
      || (SavedId(t.fram) == id
          && TextIn(SavedData(t.fram), PWD_OFFSET_PWD_IV, PWD_OFFSET_PWD_DATA, 32, t.card) == DataOf(s.fram, id, oldKey)
          && TextIn(SavedData(t.fram), PWD_OFFSET_USR_IV, PWD_OFFSET_USR_NAME, 64, t.card) == UsrOf(s.fram, id, oldKey))
  {
    hide TextIn, BlockOf, ViewOf, SavedData, SavedId;
    PartsOf(t);
    BlockInView(s, id);
    BlockInView(t, id);
  }

  /** The end of a change in terms of the memories: nothing is pending, card and validation
    pair have the new key, every credential in use reads under it as it did under the old
    one, and everything else is as it was. */
  lemma FinishedIs(s: Store, t: Store, oldKey: Block, newKey: Block)
    requires Finished(Change(ViewOf(s), oldKey, newKey), ViewOf(t))
    ensures StatusOf(t.fram) == BACKUP_STATUS_OK && t.card == newKey && t.eeprom[16..] == Cipher(newKey, t.eeprom[..16])
    ensures HeadOf(t.fram) == HeadOf(s.fram)
    ensures forall id: nat | id < CAPACITY && Used(s.fram, id) ::
      && DataOf(t.fram, id, newKey) == DataOf(s.fram, id, oldKey) && UsrOf(t.fram, id, newKey) == UsrOf(s.fram, id, oldKey)
      && BlockOf(t.fram, id)[..PWD_OFFSET_PWD_IV] == BlockOf(s.fram, id)[..PWD_OFFSET_PWD_IV]
    ensures forall id: nat | id < CAPACITY && !Used(s.fram, id) :: BlockOf(t.fram, id) == BlockOf(s.fram, id)
  {
    hide ViewOf, BlockOf, DataOf, UsrOf, SameSecrets, KeyMatches, Used, HeadOf, Cipher;
    var c := Change(ViewOf(s), oldKey, newKey);
    PartsOf(s);
    PartsOf(t);
    KeyMatchesIs(t.eeprom, newKey);
    forall id: nat | id < CAPACITY
      ensures InUse(c, id) == Used(s.fram, id)
      ensures InUse(c, id) ==> SameSecrets(BlockOf(s.fram, id), oldKey, BlockOf(t.fram, id), newKey)
      ensures !InUse(c, id) ==> BlockOf(t.fram, id) == BlockOf(s.fram, id)
    {
      UsedInHead(s.fram, id);
      BlockInView(s, id);
      BlockInView(t, id);
    }
    forall id: nat | id < CAPACITY && Used(s.fram, id)
      ensures DataOf(t.fram, id, newKey) == DataOf(s.fram, id, oldKey) && UsrOf(t.fram, id, newKey) == UsrOf(s.fram, id, oldKey)
      ensures BlockOf(t.fram, id)[..PWD_OFFSET_PWD_IV] == BlockOf(s.fram, id)[..PWD_OFFSET_PWD_IV]
    {
      SameSecretsIs(s.fram, oldKey, t.fram, newKey, id);
    }
  }

  /** The change itself: every cut is safe, and uncut it finishes. */
  lemma ChangeSafe(s: Store, resets: bool, drawn: Draw, luck: Luck)
    requires StatusOf(s.fram) == BACKUP_STATUS_OK && MapFits(s.fram) && Covers(s.fram, resets)
    ensures
      var c := Change(ViewOf(s), s.card, DrawBytes(drawn));
      var steps := ChangeKeySteps(s, resets, s.card, drawn, luck);
      && MapFits(c.start.head) && Covers(c.start.head, resets)
      && Always(Keep(c), s, steps)
      && (luck.ready && luck.writes ==> Finished(c, ViewOf(RunSteps(s, steps))))
  {
    hide Always, RunSteps, ViewOf, RekeyThenCard, RekeyIds, SameSecrets, UsedFrom, KeyMatches, Covers;
    hide MapFits, Used, HeadOf, ApplyAll, DrawWrites, DrawBytes, Singly, Keep;
    var newKey, ws := DrawBytes(drawn), DrawWrites(drawn);
    var c := Change(ViewOf(s), s.card, newKey);
    PartsOf(s);
    MapInView(s, resets);
    DrawSafe(c, s, drawn);
    var s0 := ApplyAll(s, ws);
    if luck.ready {
      var temp := ToCardTemp(newKey);
      var s1 := Apply(s0, temp);
      CardInView(s0, newKey);
      KeepIs(c, s0);
      KeepIs(c, s1);
      AlwaysOneWrite(Keep(c), s0, temp);
      SameIds(s.fram, c.start.head, 0, resets);
      CoverageFrom(c.start.head, 0, resets);
      RekeyThenCardSafe(c, s1, 0, luck);
      var rest := RekeyThenCard(s1, RekeyIds(s.fram, 0, resets), s.card, newKey, luck);
      AlwaysAppend(Keep(c), s0, [[temp]], rest);
      RunAppend(s0, [[temp]], rest);
      AlwaysAppend(Keep(c), s, Singly(ws), [[temp]] + rest);
      RunAppend(s, Singly(ws), [[temp]] + rest);
    } else {
      assert Singly(ws) + [] == Singly(ws);
    }
  }

  /** Drawing the new key does not show. */
  lemma DrawSafe(c: Change, s: Store, drawn: Draw)
    requires Shaped(c.start) && c.start == ViewOf(s) && c.oldKey == s.card && StatusOf(s.fram) == BACKUP_STATUS_OK
    ensures
      var ws := DrawWrites(drawn);
      && Always(Keep(c), s, Singly(ws)) && RunSteps(s, Singly(ws)) == ApplyAll(s, ws)
      && ViewOf(ApplyAll(s, ws)) == c.start && Waiting(c, c.start)
  {
    hide Always, RunSteps, ViewOf, HeadOf, ApplyAll, DrawWrites, DrawBytes, Singly, Keep, SameOutside, Within;
    PartsOf(s);
    assert Waiting(c, c.start);
    forall t | SameOutside(s, t, 0, 0)
      ensures Keep(c)(t) && ViewOf(t) == c.start
    {
      ViewAfterPool(s, t);
      KeepIs(c, t);
    }
    DrawsWithin(drawn, 0, 0);
    AlwaysWithin(Keep(c), s, DrawWrites(drawn), 0, 0);
  }

  lemma HeadOfHead(m: Image)
    ensures HeadOf(HeadOf(m)) == HeadOf(m)
  {
    hide HeadOf;
    SameHead(m, HeadOf(m));
  }

  lemma MapInView(s: Store, resets: bool)
    ensures MapFits(ViewOf(s).head) == MapFits(s.fram)
    ensures Covers(ViewOf(s).head, resets) == Covers(s.fram, resets)
  {
    PartsOf(s);
    hide Used, HeadOf, ViewOf;
    forall id: nat | id < MAXIMUM_NUMBER_OF_PWD
      ensures Used(ViewOf(s).head, id) == Used(s.fram, id)
    {
      UsedInHead(s.fram, id);
    }
  }

  /** A change of key cut after any step, with its recovery cut any number of times: every
    credential in use stays readable with a key that is on the card, and one uninterrupted
    recovery finishes the change, if and only if the key on the card passes the check or is
    not checked any more. If the old key passed when the change began, that is: unless the
    last cut came between the new key on the card and the status that says so. */
  lemma ChangeIsCrashSafe(s: Store, resets: bool, drawn: Draw, luck: Luck, k: nat, runs: seq<PowerOn>, last: Luck)
    requires StatusOf(s.fram) == BACKUP_STATUS_OK && MapFits(s.fram) && Covers(s.fram, resets)
    requires k <= |ChangeKeySteps(s, resets, s.card, drawn, luck)|
    ensures
      var c := Change(ViewOf(s), s.card, DrawBytes(drawn));
      var cut := Restarted(RunSteps(s, ChangeKeySteps(s, resets, s.card, drawn, luck)[..k]), resets, runs);
      && Safe(c, ViewOf(cut)) && Recoverable(cut.fram)
      && (forall id: nat | InUse(c, id) :: Readable(c, ViewOf(cut), id))
      && (StatusOf(cut.fram) != BACKUP_STATUS_OK && last.ready && last.writes ==>
            var finished := Finished(c, ViewOf(RunSteps(cut, RecoverSteps(cut, resets, last))));
            && (finished <==> StatusOf(cut.fram) == BACKUP_STATUS_CHANGE_KEY_VALIDATION || KeyMatches(cut.eeprom, cut.card))
            && (KeyMatches(s.eeprom, s.card) ==> (finished <==> !InGap(c, cut) || KeyMatches(s.eeprom, c.newKey))))
  {
    hide Always, RunSteps, ViewOf, ChangeKeySteps, RecoverSteps, MapFits, Covers, Safe, Keep, Readable;
    hide Finished, KeyMatches, Restarted, Recoverable, Used, HeadOf, DrawBytes, InGap;
    var c := Change(ViewOf(s), s.card, DrawBytes(drawn));
    var steps := ChangeKeySteps(s, resets, s.card, drawn, luck);
    ChangeSafe(s, resets, drawn, luck);
    AlwaysCut(Keep(c), s, steps, k);
    var s1 := RunSteps(s, steps[..k]);
    KeepIs(c, s1);
    RestartsSafe(c, s1, resets, runs);
    var cut := Restarted(s1, resets, runs);
    SafeIsRecoverable(c, cut);
    forall id: nat | InUse(c, id)
      ensures Readable(c, ViewOf(cut), id)
    {
      SafeIsReadable(c, ViewOf(cut), id);
    }
    if StatusOf(cut.fram) != BACKUP_STATUS_OK && last.ready && last.writes {
      RecoveryCompletes(c, cut, resets, last);
      PartsOf(s);
      if KeyMatches(s.eeprom, s.card) {
        OnlyGapRefuses(c, cut);
      }
    }
  }

  /** The card has the new key, and the status does not say so yet. */
  ghost predicate InGap(c: Change, s: Store) {
    StatusOf(s.fram) == BACKUP_STATUS_CHANGE_KEY_UPDATE_CARD && s.card == c.newKey
  }

  /** If the old key passed at the start, the key on the card passes all along, except in
    the gap, where it passes only by chance. */
  lemma OnlyGapRefuses(c: Change, s: Store)
    requires Shaped(c.start) && Safe(c, ViewOf(s)) && StatusOf(s.fram) != BACKUP_STATUS_OK
    requires KeyMatches(c.start.eeprom, c.oldKey)
    ensures StatusOf(s.fram) == BACKUP_STATUS_CHANGE_KEY_VALIDATION || KeyMatches(s.eeprom, s.card)
      <==> !InGap(c, s) || KeyMatches(c.start.eeprom, c.newKey)
  {
    hide ViewOf, Framed, Split, KeyMatches;
    PartsOf(s);
  }
}
