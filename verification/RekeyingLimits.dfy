/** Where a change of the master key falls short: the loop as written beyond the first
  eight ids, and a cut between the id and the status of a backup. */
module RekeyingLimits {
  import opened Bytes
  import opened Aes
  import opened Memory
  import opened MemoryMap
  import opened Crash
  import opened Random
  import opened Device
  import opened Backup
  import opened Views
  import opened Encryption
  import opened Rekeying
  import opened RekeyingSafety

  /** What the end of a change leaves: the blocks as they are and, unless the card refuses it,
    the new key on the card and in the validation pair, nothing pending. */
  lemma CardOutcome(s: Store, k: Block, luck: Luck)
    ensures
      var t := RunSteps(s, CardSteps(k, luck));
      && ViewOf(t).head == ViewOf(s).head && ViewOf(t).blocks == ViewOf(s).blocks && t.temp == s.temp
      && if luck.writes then t.card == k && KeyMatches(t.eeprom, k) && StatusOf(t.fram) == BACKUP_STATUS_OK else t == s
  {
    if luck.writes {
      FinishedOutcome(s, k, luck);
    } else {
      hide ViewOf, KeyMatches;
      RunNothing(s);
    }
  }

  lemma FinishedOutcome(s: Store, k: Block, luck: Luck)
    requires luck.writes
    ensures
      var t := RunSteps(s, CardSteps(k, luck));
      && ViewOf(t).head == ViewOf(s).head && ViewOf(t).blocks == ViewOf(s).blocks && t.card == k && t.temp == s.temp
      && KeyMatches(t.eeprom, k) && StatusOf(t.fram) == BACKUP_STATUS_OK
  {
    hide RunSteps, ApplyAll, ViewOf, ValidationWrites, FreeWrites, KeyMatches, Validation, FinishSteps;
    hide Flatten, SameOutside, SameButEeprom, DrawBytes;
    var card, status := ToCard(k), StatusWrite(BACKUP_STATUS_CHANGE_KEY_VALIDATION);
    var s1 := Apply(s, card);
    var s2 := Apply(s1, status);
    var s3 := ApplyAll(s2, ValidationWrites(k, luck.random));
    RunIsApply(s, CardSteps(k, luck));
    CardFlat(k, luck);
    ApplyAppend(s, [card] + [status], ValidationWrites(k, luck.random) + FreeWrites());
    ApplyAppend(s, [card], [status]);
    ApplyOne(s, card);
    ApplyOne(s1, status);
    ApplyAppend(s2, ValidationWrites(k, luck.random), FreeWrites());
    CardInView(s, k);
    ViewAfterStatus(s1, BACKUP_STATUS_CHANGE_KEY_VALIDATION);
    ValidationMatches(s2, k, luck.random);
    SameButEepromIs(s2, s3);
    EepromInView(s2, s3);
    PartsOf(s2);
    PartsOf(s3);
    FreedOutcome(s3);
  }

  lemma FreedOutcome(s: Store)
    ensures
      var t := ApplyAll(s, FreeWrites());
      && ViewOf(t).head == ViewOf(s).head && ViewOf(t).blocks == ViewOf(s).blocks
      && t.card == s.card && t.temp == s.temp && t.eeprom == s.eeprom && StatusOf(t.fram) == BACKUP_STATUS_OK
  {
    hide ApplyAll, ViewOf;
    var all := FreeWrites();
    assert all[..|all|] == all;
    FreeBegins(s, |all|);
    hide FreeWrites;
    var t := ApplyAll(s, all);
    ViewAfterBackupArea(s, t);
    PartsOf(s);
    PartsOf(t);
  }

  /** Nothing is assumed of the FRAM, and nothing of the ids but that they are in order:
    exactly the blocks that were processed read the same under the new key, exactly the
    others are as they were, and the card, unless it refuses, no longer has the old key. */
  lemma RekeyOutcome(s: Store, ids: seq<nat>, k: Block, k': Block, luck: Luck)
    requires AllFit(ids) && Ascending(ids)
    ensures
      var t := RunSteps(s, RekeyThenCard(s, ids, k, k', luck));
      && (forall id: nat | id < CAPACITY :: if id in ids
            then SameSecrets(BlockOf(s.fram, id), k, BlockOf(t.fram, id), k')
            else BlockOf(t.fram, id) == BlockOf(s.fram, id))
      && HeadOf(t.fram) == HeadOf(s.fram)
      && t.temp == s.temp
      && if luck.writes then t.card == k' && KeyMatches(t.eeprom, k') && StatusOf(t.fram) == BACKUP_STATUS_OK
         else t.card == s.card && t.eeprom == s.eeprom && StatusOf(t.fram) == BACKUP_STATUS_CHANGE_KEY_UPDATE_CARD
  {
    hide HeadOf, RunSteps, BlockOf, StatusOf, SavedId, SavedData, SameSecrets, CardSteps, RekeySteps, KeyMatches;
    var status := StatusWrite(BACKUP_STATUS_CHANGE_KEY_UPDATE_CARD);
    var rekey := RekeySteps(s, ids, k, k', luck.ivs);
    var s1 := RunSteps(s, rekey);
    var s2 := Apply(s1, status);
    RekeyMeaning(s, ids, k, k', luck.ivs);
    RunAppend(s, rekey + [[status]], CardSteps(k', luck));
    RunAppend(s, rekey, [[status]]);
    RunOne(s1, [status]);
    ApplyOne(s1, status);
    ViewAfterStatus(s1, BACKUP_STATUS_CHANGE_KEY_UPDATE_CARD);
    CardOutcome(s2, k', luck);
    var t := RunSteps(s2, CardSteps(k', luck));
    PartsOf(s);
    PartsOf(s2);
    PartsOf(t);
    forall id: nat | id < CAPACITY
      ensures BlockOf(t.fram, id) == BlockOf(s1.fram, id)
    {
      BlockInView(t, id);
      BlockInView(s1, id);
    }
  }

  /** The change as it comes out for every FRAM, with the loop as written (resets false) or
    as intended. As written, a block past the first byte of the memory map keeps its old
    contents while the old key is gone from both sectors of the card. A card that refuses
    the new key keeps the old one, and the status says that it is still to be written. */
  lemma ChangeOutcome(s: Store, resets: bool, k: Block, drawn: Draw, luck: Luck, id: nat)
    requires MapFits(s.fram) && luck.ready && id < CAPACITY
    ensures
      var t := RunSteps(s, ChangeKeySteps(s, resets, k, drawn, luck));
      && t.temp == DrawBytes(drawn) && t.card == (if luck.writes then t.temp else s.card)
      && StatusOf(t.fram) == (if luck.writes then BACKUP_STATUS_OK else BACKUP_STATUS_CHANGE_KEY_UPDATE_CARD)
      && HeadOf(t.fram) == HeadOf(s.fram)
      && if Used(s.fram, id) && (resets || id < 8)
         then SameSecrets(BlockOf(s.fram, id), k, BlockOf(t.fram, id), DrawBytes(drawn))
         else BlockOf(t.fram, id) == BlockOf(s.fram, id)
  {
    hide RunSteps, BlockOf, StatusOf, SameSecrets, RekeyThenCard, UsedFrom, KeyMatches, MapFits, Used;
    hide HeadOf, DrawWrites, DrawBytes, Singly, ApplyAll;
    var k', ws := DrawBytes(drawn), DrawWrites(drawn);
    var s0 := ApplyAll(s, ws);
    var s1 := Apply(s0, ToCardTemp(k'));
    var ids := RekeyIds(s.fram, 0, resets);
    var rest := RekeyThenCard(s1, ids, k, k', luck);
    DrawnBlocks(s, drawn, id);
    RunSingly(s, ws);
    RunAppend(s, Singly(ws), [[ToCardTemp(k')]] + rest);
    RunAppend(s0, [[ToCardTemp(k')]], rest);
    RunOne(s0, [ToCardTemp(k')]);
    ApplyOne(s0, ToCardTemp(k'));
    UsedAscending(s.fram, 0, RekeyLimit(0, resets));
    RekeyOutcome(s1, ids, k, k', luck);
  }

  lemma DrawnBlocks(s: Store, drawn: Draw, id: nat)
    requires id < CAPACITY
    ensures BlockOf(ApplyAll(s, DrawWrites(drawn)).fram, id) == BlockOf(s.fram, id)
    ensures HeadOf(ApplyAll(s, DrawWrites(drawn)).fram) == HeadOf(s.fram) && ApplyAll(s, DrawWrites(drawn)).card == s.card
  {
    hide HeadOf, BlockOf, DrawWrites, ApplyAll, SameOutside, WithPool, PoolOf;
    var t := ApplyAll(s, DrawWrites(drawn));
    OnlyPool(s, drawn);
    HeadKept(s, t, 0, 0);
    OtherPartsKept(s, t, 0, 0);
    DrawsApart(s, drawn, id);
  }

  /** If the power is cut after a chunk is done, and in the next save after the id but
    before the status, the status is still CHUNK_OK and recovery takes the credential for
    done: it ends with the change complete, that block untouched and the old key gone. */
  lemma CutInsideCommit(c: Change, s: Store, i: nat, resets: bool, luck: Luck)
    requires Shaped(c.start) && AfterChunk(c, ViewOf(s)) && MapFits(c.start.head)
    requires Ready(c, ViewOf(s), i) && InUse(c, i)
    requires luck.ready && luck.writes && KeyMatches(s.eeprom, s.card)
    ensures
      var cut := ApplyAll(s, SaveWrites(s.fram, i, BACKUP_STATUS_CHANGE_KEY)[..SIZE_OF_PWD_BLOCK + 2]);
      && Recoverable(cut.fram)
      && var t := RunSteps(cut, RecoverSteps(cut, resets, luck));
         && StatusOf(t.fram) == BACKUP_STATUS_OK && t.card == t.temp == c.newKey
         && ViewOf(t).blocks[i] == c.start.blocks[i]
  {
    var cut := ApplyAll(s, SaveWrites(s.fram, i, BACKUP_STATUS_CHANGE_KEY)[..SIZE_OF_PWD_BLOCK + 2]);
    hide ApplyAll, RunSteps, ViewOf, Framed, Split, MapFits, BlockOf, SaveWrites, RecoverSteps;
    hide KeyMatches, SavedId, StatusOf;
    CutSave(s, i);
    PartsOf(s);
    PartsOf(cut);
    SafeHead(c, s);
    SameFit(cut.fram, c.start.head);
    SkippedOutcome(cut, resets, luck);
    OldBlock(c, s, i);
    BlockInView(cut, i);
    BlockInView(RunSteps(cut, RecoverSteps(cut, resets, luck)), i);
  }

  /** Recovery from status CHUNK_OK leaves the block of the saved id alone. */
  lemma SkippedOutcome(s: Store, resets: bool, luck: Luck)
    requires Recoverable(s.fram) && StatusOf(s.fram) == BACKUP_STATUS_CHANGE_KEY_CHUNK_OK
    requires luck.ready && luck.writes && KeyMatches(s.eeprom, s.card)
    ensures
      var t := RunSteps(s, RecoverSteps(s, resets, luck));
      && StatusOf(t.fram) == BACKUP_STATUS_OK && t.card == t.temp == s.temp
      && BlockOf(t.fram, SavedId(s.fram)) == BlockOf(s.fram, SavedId(s.fram))
  {
    hide RunSteps, MapFits, BlockOf, RekeyThenCard, KeyMatches, UsedFrom, Used, SameSecrets, SavedId;
    var start := SavedId(s.fram) + 1;
    var ids := RekeyIds(s.fram, start, resets);
    UsedAscending(s.fram, start, RekeyLimit(start, resets));
    RekeyOutcome(s, ids, s.card, s.temp, luck);
    assert SavedId(s.fram) !in ids;
  }

  lemma SameFit(m: Image, head: seq<bv8>)
    requires head == HeadOf(m)
    ensures MapFits(m) == MapFits(head)
  {
    hide Used, HeadOf;
    UsedInHead(m, CAPACITY);
  }

  /** The memories after a save that was cut just before its status. */
  lemma CutSave(s: Store, i: nat)
    requires i < CAPACITY
    ensures
      var t := ApplyAll(s, SaveWrites(s.fram, i, BACKUP_STATUS_CHANGE_KEY)[..SIZE_OF_PWD_BLOCK + 2]);
      ViewOf(t) == ViewOf(s).(savedId := i, savedData := BlockOf(s.fram, i))
  {
    hide ApplyAll, ViewOf, Splice, BlockOf, IdBytes, SavedId;
    var data, id := FramWrites(OFFSET_BACKUP_DATA, BlockOf(s.fram, i)), FramWrites(OFFSET_BACKUP_ID, IdBytes(i));
    assert SaveWrites(s.fram, i, BACKUP_STATUS_CHANGE_KEY)[..SIZE_OF_PWD_BLOCK + 2] == data + id;
    ApplyAppend(s, data, id);
    AfterCopy(s, i);
    AfterId(ApplyAll(s, data), i);
  }

  lemma AfterId(s: Store, id: nat)
    requires id < CAPACITY
    ensures ViewOf(ApplyAll(s, FramWrites(OFFSET_BACKUP_ID, IdBytes(id)))) == ViewOf(s).(savedId := id)
  {
    hide ViewOf, ApplyAll;
    AfterCommit(s, id);
    var t := ApplyAll(s, FramWrites(OFFSET_BACKUP_ID, IdBytes(id)));
    var status := StatusWrite(BACKUP_STATUS_CHANGE_KEY);
    ApplyAppend(s, FramWrites(OFFSET_BACKUP_ID, IdBytes(id)), [status]);
    ApplyOne(t, status);
    ViewAfterStatus(t, BACKUP_STATUS_CHANGE_KEY);
    WritesStayWithin(s, FramWrites(OFFSET_BACKUP_ID, IdBytes(id)), OFFSET_BACKUP_ID, OFFSET_BACKUP_DATA);
    ViewAfterBackupId(s, t);
  }

  /** That is the only gap: unless the status is CHUNK_OK, id and status may be cut apart
    anywhere. With the status still OK nothing looks at the id, and a chunk that is begun
    again writes the id that is there already. */
  lemma CommitByBytes(c: Change, s: Store, i: nat)
    requires Shaped(c.start) && Ready(c, ViewOf(s), i) && InUse(c, i) && !AfterChunk(c, ViewOf(s))
    requires SavedData(s.fram) == BlockOf(s.fram, i)
    ensures Always(Keep(c), s, Singly(Commit(i)))
  {
    hide ApplyAll, Always, RunSteps, ViewOf, Keep, Framed, Split, Singly, FramWrites, IdBytes, SameOutside, SavedId;
    var ids, last := FramWrites(OFFSET_BACKUP_ID, IdBytes(i)), StatusWrite(BACKUP_STATUS_CHANGE_KEY);
    PartsOf(s);
    BlockInView(s, i);
    ReadySafe(c, s, i);
    var s1 := ApplyAll(s, ids);
    RunSingly(s, ids);
    IdSafe(c, s, i);
    AfterCommit(s, i);
    ApplyAppend(s, ids, [last]);
    ApplyOne(s1, last);
    CommitSafe(c, ViewOf(s), i);
    KeepIs(c, Apply(s1, last));
    AlwaysCutEnd(Keep(c), s, ids);
    AlwaysOneWrite(Keep(c), s1, last);
    AlwaysAppend(Keep(c), s, Singly(ids), [[last]]);
    SinglyLast(ids, last);
  }

  lemma SinglyLast(ws: seq<Write>, w: Write)
    ensures Singly(ws + [w]) == Singly(ws) + [[w]]
  {
  }

  lemma AlwaysCutEnd(p: Store -> bool, s: Store, ws: seq<Write>)
    requires Always(p, s, Singly(ws))
    ensures p(ApplyAll(s, ws))
  {
    hide Always, ApplyAll, RunSteps;
    var steps := Singly(ws);
    AlwaysCut(p, s, steps, |steps|);
    assert steps[..|steps|] == steps;
    RunSingly(s, ws);
  }

  /** Writing the id of the backup. */
  lemma IdSafe(c: Change, s: Store, i: nat)
    requires Shaped(c.start) && Ready(c, ViewOf(s), i) && InUse(c, i) && !AfterChunk(c, ViewOf(s))
    ensures Always(Keep(c), s, Singly(FramWrites(OFFSET_BACKUP_ID, IdBytes(i))))
  {
    hide ApplyAll, Always, RunSteps, ViewOf, Keep, Framed, Split, Singly, FramWrites, IdBytes, SameOutside, IdOf;
    ReadySafe(c, s, i);
    PartsOf(s);
    if InChunk(c, ViewOf(s)) {
      var a := OFFSET_BACKUP_ID;
      IdBytesRoundTrip(s.fram[a], s.fram[a + 1]);
      assert s.fram[a..a + 2] == [s.fram[a], s.fram[a + 1]];
      AlwaysRewriting(Keep(c), s, a, IdBytes(i));
    } else {
      forall t | SameOutside(s, t, OFFSET_BACKUP_ID, OFFSET_BACKUP_ID + |IdBytes(i)|)
        ensures Keep(c)(t)
      {
        ViewAfterBackupId(s, t);
        BackupApart(c, ViewOf(s), ViewOf(s).status, SavedId(t.fram), ViewOf(s).savedData);
        KeepIs(c, t);
      }
      AlwaysWriting(Keep(c), s, OFFSET_BACKUP_ID, IdBytes(i));
    }
  }

  // ----- an edit in the middle of a change -----

  /** If recovery was refused in the middle of a chunk and the device is used all the same, the
    next edit of another credential saves its own block over the only copy of the one that
    is half written, and ends with nothing left to recover. The half-written block stays as
    it is: the credential is readable only if that block happens to be. */
  lemma EditAfterRefusal(c: Change, s: Store, id: nat, ws: seq<Write>, resets: bool, luck: Luck)
    requires Shaped(c.start) && InChunk(c, ViewOf(s)) && MapFits(s.fram)
    requires id < CAPACITY && id != SavedId(s.fram) && SavedId(s.fram) < CAPACITY
    requires Within(ws, PwdAddr(id, 0), PwdAddr(id, SIZE_OF_PWD_BLOCK))
    ensures
      var i := SavedId(s.fram);
      var saved, edited := ApplyAll(s, SaveWrites(s.fram, id, BACKUP_STATUS_UPDATE)), ApplyAll(s, EditWrites(s.fram, id, ws));
      && !Safe(c, ViewOf(saved)) && SavedData(saved.fram) == BlockOf(s.fram, id)
      && (Readable(c, ViewOf(saved), i) <==>
            || SameSecrets(c.start.blocks[i], c.oldKey, BlockOf(s.fram, i), c.oldKey)
            || SameSecrets(c.start.blocks[i], c.oldKey, BlockOf(s.fram, i), c.newKey))
      && BlockOf(edited.fram, i) == BlockOf(s.fram, i)
      && Recoverable(edited.fram) && RecoverSteps(edited, resets, luck) == []
  {
    hide ApplyAll, ViewOf, SaveWrites, EditWrites, SavedData, SameSecrets, MapFits, SameOutside, OnlyEdited;
    hide Framed, Split, EditedBlock, BlockOf, SavedId, StatusOf;
    var i := SavedId(s.fram);
    var saved, edited := ApplyAll(s, SaveWrites(s.fram, id, BACKUP_STATUS_UPDATE)), ApplyAll(s, EditWrites(s.fram, id, ws));
    SaveCompletes(s, id, BACKUP_STATUS_UPDATE);
    ViewAfterBackupArea(s, saved);
    PartsOf(s);
    PartsOf(saved);
    BlockInView(s, i);
    WholeEditKeeps(s, id, ws, i);
    SameFit(edited.fram, HeadOf(s.fram));
    SameFit(s.fram, HeadOf(s.fram));
  }

  lemma WholeEditKeeps(s: Store, id: nat, ws: seq<Write>, i: nat)
    requires id < CAPACITY && i < CAPACITY && i != id
    requires Within(ws, PwdAddr(id, 0), PwdAddr(id, SIZE_OF_PWD_BLOCK))
    ensures
      var t := ApplyAll(s, EditWrites(s.fram, id, ws));
      && BlockOf(t.fram, i) == BlockOf(s.fram, i) && HeadOf(t.fram) == HeadOf(s.fram)
      && StatusOf(t.fram) == BACKUP_STATUS_OK
  {
    var all := EditWrites(s.fram, id, ws);
    assert |all| == 2 * (SIZE_OF_PWD_BLOCK + 3) + |ws|;
    hide ApplyAll, OnlyEdited, BlockOf, EditWrites, EditedBlock, SavedData, SavedId, HeadOf;
    assert all[..|all|] == all;
    EditPhases(s, id, ws, |all|);
    EditedKeeps(s, id, ApplyAll(s, all), i);
  }

  lemma EditedKeeps(s: Store, id: nat, t: Store, i: nat)
    requires id < CAPACITY && i < CAPACITY && i != id && OnlyEdited(s, id, t)
    ensures BlockOf(t.fram, i) == BlockOf(s.fram, i) && HeadOf(t.fram) == HeadOf(s.fram)
  {
    hide HeadOf;
    SameHead(s.fram, t.fram);
    forall n: nat | n < SIZE_OF_PWD_BLOCK
      ensures BlockOf(t.fram, i)[n] == BlockOf(s.fram, i)[n]
    {
      ByteInBlock(t.fram, i, n);
      ByteInBlock(s.fram, i, n);
    }
  }
}
