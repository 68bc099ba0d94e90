/** What no change of the master key touches, however its loop goes and wherever it is cut:
  list heads, counter, memory map, and of every block the part before the texts. */
module RekeyingFronts {
  import opened Aes
  import opened Memory
  import opened MemoryMap
  import opened Crash
  import opened Random
  import opened Device
  import opened Backup
  import opened Views
  import opened Encryption
  import opened Rekeying
  import opened RekeyingSafety

  ghost predicate Whole(v: View) {
    Shaped(v) && WholeBlocks(v) && |v.savedData| == SIZE_OF_PWD_BLOCK
  }

  /** Links, counter and name. */
  function Front(b: seq<bv8>): seq<bv8>
    requires |b| == SIZE_OF_PWD_BLOCK
  {
    b[..PWD_OFFSET_PWD_IV]
  }

  /** The head and all fronts are as in v0, and a block that recovery would put back has its
    front, too. */
  ghost predicate Kept(v0: View, v: View)
    requires Whole(v0)
  {
    && Whole(v) && v.head == v0.head && v.status <= BACKUP_STATUS_CHANGE_KEY_VALIDATION && v.status != BACKUP_STATUS_UPDATE
    && (forall id: nat | id < CAPACITY :: Front(v.blocks[id]) == Front(v0.blocks[id]))
    && (v.status in {BACKUP_STATUS_CHANGE_KEY, BACKUP_STATUS_CHANGE_KEY_CHUNK_OK} ==> v.savedId < CAPACITY)
    && (v.status == BACKUP_STATUS_CHANGE_KEY ==>
          Used(v0.head, v.savedId) && Front(v.savedData) == Front(v0.blocks[v.savedId]))
  }

  ghost function KeepFronts(v0: View): Store -> bool
    requires Whole(v0)
  {
    s => Kept(v0, ViewOf(s))
  }

  lemma KeepFrontsIs(v0: View, t: Store)
    requires Whole(v0)
    ensures KeepFronts(v0)(t) <==> Kept(v0, ViewOf(t))
  {
  }

  // ----- what the writes do -----

  /** With any other status nothing looks at the backup. */
  lemma BackupKeeps(v0: View, v: View, id: nat, data: seq<bv8>)
    requires Whole(v0) && Kept(v0, v) && |data| == SIZE_OF_PWD_BLOCK
    requires v.status != BACKUP_STATUS_CHANGE_KEY && (v.status == BACKUP_STATUS_CHANGE_KEY_CHUNK_OK ==> id < CAPACITY)
    ensures Kept(v0, v.(savedId := id, savedData := data))
  {
    hide Used;
  }

  lemma CommitKeeps(v0: View, v: View, i: nat)
    requires Whole(v0) && Kept(v0, v) && i < CAPACITY && Used(v0.head, i) && v.savedData == v.blocks[i]
    ensures Kept(v0, v.(savedId := i, status := BACKUP_STATUS_CHANGE_KEY))
  {
    hide Used;
  }

  /** Statuses under which no block is put back. */
  lemma StatusKeeps(v0: View, v: View, status: bv8)
    requires Whole(v0) && Kept(v0, v)
    requires status in {BACKUP_STATUS_OK, BACKUP_STATUS_CHANGE_KEY_UPDATE_CARD, BACKUP_STATUS_CHANGE_KEY_VALIDATION}
      || (status == BACKUP_STATUS_CHANGE_KEY_CHUNK_OK && v.savedId < CAPACITY)
    ensures Kept(v0, v.(status := status))
  {
    hide Used;
  }

  lemma BlockKeeps(v0: View, v: View, id: nat, b: seq<bv8>)
    requires Whole(v0) && Kept(v0, v) && id < CAPACITY && |b| == SIZE_OF_PWD_BLOCK && Front(b) == Front(v.blocks[id])
    ensures Kept(v0, v.(blocks := v.blocks[id := b]))
  {
    hide Used;
  }

  lemma KeysKeep(v0: View, v: View, card: Block, temp: Block, e: Eeprom)
    requires Whole(v0) && Kept(v0, v)
    ensures Kept(v0, v.(card := card, temp := temp, eeprom := e))
  {
    hide Used;
  }

  lemma StatusWritten(v0: View, s: Store, status: bv8)
    requires Whole(v0) && Kept(v0, ViewOf(s))
    requires status in {BACKUP_STATUS_OK, BACKUP_STATUS_CHANGE_KEY_UPDATE_CARD, BACKUP_STATUS_CHANGE_KEY_VALIDATION}
      || (status == BACKUP_STATUS_CHANGE_KEY_CHUNK_OK && ViewOf(s).savedId < CAPACITY)
    ensures
      var t := Apply(s, StatusWrite(status));
      && Always(KeepFronts(v0), s, [[StatusWrite(status)]]) && RunSteps(s, [[StatusWrite(status)]]) == t
      && Kept(v0, ViewOf(t)) && ViewOf(t).status == status
  {
    hide ViewOf, Always, RunSteps, Kept, KeepFronts;
    ViewAfterStatus(s, status);
    StatusKeeps(v0, ViewOf(s), status);
    var t := Apply(s, StatusWrite(status));
    KeepFrontsIs(v0, s);
    KeepFrontsIs(v0, t);
    AlwaysOneWrite(KeepFronts(v0), s, StatusWrite(status));
  }

  /** Writing behind the front of a block. */
  lemma TextsWritten(v0: View, s: Store, ws: seq<Write>, id: nat)
    requires Whole(v0) && Kept(v0, ViewOf(s)) && id < CAPACITY
    requires Within(ws, PwdAddr(id, PWD_OFFSET_PWD_IV), PwdAddr(id, SIZE_OF_PWD_BLOCK))
    ensures
      var t := ApplyAll(s, ws);
      && Always(KeepFronts(v0), s, Singly(ws)) && RunSteps(s, Singly(ws)) == t && Kept(v0, ViewOf(t))
      && ViewOf(t) == ViewOf(s).(blocks := ViewOf(t).blocks)
  {
    hide ApplyAll, Always, RunSteps, SameOutside, ViewOf, Kept, KeepFronts, Singly, Within, BlockOf, Front;
    var lo, hi := PwdAddr(id, PWD_OFFSET_PWD_IV), PwdAddr(id, SIZE_OF_PWD_BLOCK);
    forall t | SameOutside(s, t, lo, hi)
      ensures KeepFronts(v0)(t) && Kept(v0, ViewOf(t)) && ViewOf(t) == ViewOf(s).(blocks := ViewOf(t).blocks)
    {
      ViewAfterBlock(s, t, id, PWD_OFFSET_PWD_IV);
      BlockInView(s, id);
      FrontIs(BlockOf(s.fram, id), BlockOf(t.fram, id));
      BlockKeeps(v0, ViewOf(s), id, BlockOf(t.fram, id));
      KeepFrontsIs(v0, t);
    }
    AlwaysWithin(KeepFronts(v0), s, ws, lo, hi);
  }

  lemma FrontIs(a: seq<bv8>, b: seq<bv8>)
    requires |a| == |b| == SIZE_OF_PWD_BLOCK
    ensures Front(a) == Front(b) <==> a[..PWD_OFFSET_PWD_IV] == b[..PWD_OFFSET_PWD_IV]
  {
  }

  // ----- one credential -----

  /** The status does not point to a backup, or to a backup of block i as it is. */
  ghost predicate CanBegin(v: View, i: nat)
    requires Shaped(v) && i < CAPACITY
  {
    v.status == BACKUP_STATUS_CHANGE_KEY ==> v.savedId == i && v.savedData == v.blocks[i]
  }

  lemma CopyKeeps(v0: View, s: Store, i: nat)
    requires Whole(v0) && Kept(v0, ViewOf(s)) && i < CAPACITY && CanBegin(ViewOf(s), i)
    ensures
      var ws := FramWrites(OFFSET_BACKUP_DATA, BlockOf(s.fram, i));
      Always(KeepFronts(v0), s, Singly(ws)) && Kept(v0, ViewOf(ApplyAll(s, ws)))
  {
    hide ApplyAll, Always, RunSteps, SameOutside, ViewOf, KeepFronts, Kept, Singly;
    var b := BlockOf(s.fram, i);
    KeepFrontsIs(v0, s);
    PartsOf(s);
    BlockInView(s, i);
    RunSingly(s, FramWrites(OFFSET_BACKUP_DATA, b));
    if ViewOf(s).status == BACKUP_STATUS_CHANGE_KEY {
      AlwaysRewriting(KeepFronts(v0), s, OFFSET_BACKUP_DATA, b);
    } else {
      forall t | SameOutside(s, t, OFFSET_BACKUP_DATA, OFFSET_BACKUP_DATA + |b|)
        ensures KeepFronts(v0)(t)
      {
        ViewAfterBackupData(s, t);
        SavedIdFits(v0, ViewOf(s));
        BackupKeeps(v0, ViewOf(s), ViewOf(s).savedId, SavedData(t.fram));
        KeepFrontsIs(v0, t);
      }
      AlwaysWriting(KeepFronts(v0), s, OFFSET_BACKUP_DATA, b);
      AfterCopy(s, i);
      SavedIdFits(v0, ViewOf(s));
      BackupKeeps(v0, ViewOf(s), ViewOf(s).savedId, b);
    }
  }

  lemma SavedIdFits(v0: View, v: View)
    requires Whole(v0) && Kept(v0, v)
    ensures v.status in {BACKUP_STATUS_CHANGE_KEY, BACKUP_STATUS_CHANGE_KEY_CHUNK_OK} ==> v.savedId < CAPACITY
    ensures v.head == v0.head && v.status <= BACKUP_STATUS_CHANGE_KEY_VALIDATION && v.status != BACKUP_STATUS_UPDATE
  {
    hide Used;
  }

  lemma ChunkKeeps(v0: View, s: Store, i: nat, k: Block, k': Block, ivs: nat -> Draw)
    requires Whole(v0) && Kept(v0, ViewOf(s)) && i < CAPACITY && Used(v0.head, i) && CanBegin(ViewOf(s), i)
    ensures
      var chunk := ChunkSteps(s.fram, i, k, k', ivs);
      var t := RunSteps(s, chunk);
      && Always(KeepFronts(v0), s, chunk) && Kept(v0, ViewOf(t))
      && ViewOf(t).status == BACKUP_STATUS_CHANGE_KEY_CHUNK_OK
  {
    hide ApplyAll, Always, RunSteps, ViewOf, KeepFronts, Kept, Singly, FramWrites, SecretWrites, Commit, CanBegin;
    hide BlockOf, RekeyedIn, Used;
    var data, secret := FramWrites(OFFSET_BACKUP_DATA, BlockOf(s.fram, i)), SecretWrites(s.fram, i, k, k', ivs);
    var last := StatusWrite(BACKUP_STATUS_CHANGE_KEY_CHUNK_OK);
    var s1, s2, s3 := ChunkStates(s, i, k, k', ivs);
    CopyKeeps(v0, s, i);
    AfterCopy(s, i);
    AfterCommit(s1, i);
    BlockInView(s, i);
    CommitKeeps(v0, ViewOf(s1), i);
    KeepFrontsIs(v0, s1);
    KeepFrontsIs(v0, s2);
    AlwaysOneStep(KeepFronts(v0), s1, Commit(i));
    SameBlock(s, s2, i);
    AfterSecrets(s.fram, s2, i, k, k', ivs);
    TextsWritten(v0, s2, secret, i);
    StatusWritten(v0, s3, BACKUP_STATUS_CHANGE_KEY_CHUNK_OK);
    ChunkCuts(KeepFronts(v0), s, data, Commit(i), secret, last);
  }

  ghost predicate AllUsed(m: seq<bv8>, ids: seq<nat>)
    requires |m| >= OFFSET_BACKUP_STATUS && AllFit(ids)
  {
    forall i: nat | i < |ids| :: Used(m, ids[i])
  }

  lemma {:induction false} RekeyKeeps(v0: View, s: Store, ids: seq<nat>, k: Block, k': Block, ivs: nat -> Draw)
    requires Whole(v0) && Kept(v0, ViewOf(s)) && AllFit(ids) && AllUsed(v0.head, ids)
    requires if ids == [] then ViewOf(s).status != BACKUP_STATUS_CHANGE_KEY else CanBegin(ViewOf(s), ids[0])
    ensures
      var steps := RekeySteps(s, ids, k, k', ivs);
      && Always(KeepFronts(v0), s, steps) && Kept(v0, ViewOf(RunSteps(s, steps)))
    decreases |ids|
  {
    hide Always, RunSteps, ViewOf, Kept, KeepFronts, ChunkSteps, Used;
    if ids == [] {
      RunNothing(s);
      KeepFrontsIs(v0, s);
      AlwaysNothing(KeepFronts(v0), s);
    } else {
      var chunk := ChunkSteps(s.fram, ids[0], k, k', ivs);
      var s1 := RunSteps(s, chunk);
      ChunkKeeps(v0, s, ids[0], k, k', ivs);
      RekeyKeeps(v0, s1, ids[1..], k, k', ivs);
      var rest := RekeySteps(s1, ids[1..], k, k', ivs);
      AlwaysAppend(KeepFronts(v0), s, chunk, rest);
      RunAppend(s, chunk, rest);
    }
  }

  // ----- card, validation pair and the end -----

  lemma FinishKeeps(v0: View, s: Store, k: Block, luck: Luck)
    requires Whole(v0) && Kept(v0, ViewOf(s)) && ViewOf(s).status != BACKUP_STATUS_CHANGE_KEY
    ensures Always(KeepFronts(v0), s, FinishSteps(k, luck))
  {
    hide Always, RunSteps, ViewOf, Kept, KeepFronts, ApplyAll, Singly, FreeWrites, SameButEeprom, EepromOnly;
    var ws := ValidationWrites(k, luck.random);
    ValidationInEeprom(k, luck.random);
    hide ValidationWrites;
    forall t | SameButEeprom(s, t)
      ensures KeepFronts(v0)(t) && Kept(v0, ViewOf(t)) && ViewOf(t).status == ViewOf(s).status
    {
      EepromInView(s, t);
      KeysKeep(v0, ViewOf(s), ViewOf(s).card, ViewOf(s).temp, t.eeprom);
      KeepFrontsIs(v0, t);
    }
    AlwaysInEeprom(KeepFronts(v0), s, ws);
    var s1 := ApplyAll(s, ws);
    ValidationMatches(s, k, luck.random);
    SameButEepromIs(s, s1);
    FreeKeeps(v0, s1);
    AlwaysAppend(KeepFronts(v0), s, Singly(ws), Singly(FreeWrites()));
  }

  lemma FreeKeeps(v0: View, s: Store)
    requires Whole(v0) && Kept(v0, ViewOf(s))
    ensures Always(KeepFronts(v0), s, Singly(FreeWrites()))
  {
    hide Always, RunSteps, ViewOf, Kept, KeepFronts, ApplyAll, Singly, SameOutside;
    var first, rest := StatusWrite(BACKUP_STATUS_OK), FreeWrites()[1..];
    var s1 := Apply(s, first);
    StatusWritten(v0, s, BACKUP_STATUS_OK);
    FreeWithin(rest);
    forall t | SameOutside(s1, t, OFFSET_BACKUP_ID, OFFSET_FIRST_PWD)
      ensures KeepFronts(v0)(t)
    {
      FreedView(s1, t);
      BackupKeeps(v0, ViewOf(s1), SavedId(t.fram), SavedData(t.fram));
      KeepFrontsIs(v0, t);
    }
    AlwaysWithin(KeepFronts(v0), s1, rest, OFFSET_BACKUP_ID, OFFSET_FIRST_PWD);
    SinglyFirst(first, rest);
    AlwaysAppend(KeepFronts(v0), s, [[first]], Singly(rest));
  }

  lemma CardKeeps(v0: View, s: Store, k: Block, luck: Luck)
    requires Whole(v0) && Kept(v0, ViewOf(s)) && ViewOf(s).status != BACKUP_STATUS_CHANGE_KEY
    ensures Always(KeepFronts(v0), s, CardSteps(k, luck))
  {
    hide Always, RunSteps, ViewOf, Kept, KeepFronts, FinishSteps;
    KeepFrontsIs(v0, s);
    AlwaysNothing(KeepFronts(v0), s);
    if luck.writes {
      var card: seq<Step>, status: seq<Step> := [[ToCard(k)]], [[StatusWrite(BACKUP_STATUS_CHANGE_KEY_VALIDATION)]];
      var s1 := Apply(s, ToCard(k));
      CardInView(s, k);
      KeysKeep(v0, ViewOf(s), k, ViewOf(s).temp, ViewOf(s).eeprom);
      KeepFrontsIs(v0, s1);
      AlwaysOneWrite(KeepFronts(v0), s, ToCard(k));
      StatusWritten(v0, s1, BACKUP_STATUS_CHANGE_KEY_VALIDATION);
      FinishKeeps(v0, Apply(s1, StatusWrite(BACKUP_STATUS_CHANGE_KEY_VALIDATION)), k, luck);
      AlwaysAppend(KeepFronts(v0), s, card, status);
      RunAppend(s, card, status);
      AlwaysAppend(KeepFronts(v0), s, card + status, FinishSteps(k, luck));
    }
  }

  lemma RekeyThenCardKeeps(v0: View, s: Store, ids: seq<nat>, k: Block, k': Block, luck: Luck)
    requires Whole(v0) && Kept(v0, ViewOf(s)) && AllFit(ids) && AllUsed(v0.head, ids)
    requires if ids == [] then ViewOf(s).status != BACKUP_STATUS_CHANGE_KEY else CanBegin(ViewOf(s), ids[0])
    ensures Always(KeepFronts(v0), s, RekeyThenCard(s, ids, k, k', luck))
  {
    hide Always, RunSteps, ViewOf, Kept, KeepFronts, RekeySteps, CardSteps, CanBegin, Used;
    var rekey := RekeySteps(s, ids, k, k', luck.ivs);
    var s1 := RunSteps(s, rekey);
    var status := StatusWrite(BACKUP_STATUS_CHANGE_KEY_UPDATE_CARD);
    RekeyKeeps(v0, s, ids, k, k', luck.ivs);
    StatusWritten(v0, s1, BACKUP_STATUS_CHANGE_KEY_UPDATE_CARD);
    CardKeeps(v0, Apply(s1, status), k', luck);
    AlwaysAppend(KeepFronts(v0), s, rekey, [[status]]);
    RunAppend(s, rekey, [[status]]);
    AlwaysAppend(KeepFronts(v0), s, rekey + [[status]], CardSteps(k', luck));
  }

  // ----- recovery -----

  lemma KeptIsRecoverable(v0: View, s: Store)
    requires Whole(v0) && Kept(v0, ViewOf(s)) && MapFits(v0.head)
    ensures Recoverable(s.fram) && StatusOf(s.fram) == ViewOf(s).status != BACKUP_STATUS_UPDATE
    ensures HeadOf(s.fram) == v0.head
  {
    hide ViewOf, Used, HeadOf, Front;
    PartsOf(s);
    UsedInHead(s.fram, CAPACITY);
  }

  /** The ids that the loop goes through are in use. */
  lemma LoopIds(m: Image, head: seq<bv8>, start: nat, resets: bool)
    requires head == HeadOf(m) && MapFits(head)
    ensures
      var ids := RekeyIds(m, start, resets);
      AllFit(ids) && AllUsed(head, ids) && ids == RekeyIds(head, start, resets)
    ensures start < CAPACITY && Used(head, start) ==> RekeyIds(m, start, resets) != [] && RekeyIds(m, start, resets)[0] == start
  {
    HeadOfHead(m);
    SameIds(m, head, start, resets);
    UsedFromStep(head, start, RekeyLimit(start, resets));
    hide Used, HeadOf, UsedFrom;
  }

  /** The front of the block in the backup is there already. */
  lemma RestoreKeeps(v0: View, s: Store)
    requires Whole(v0) && Kept(v0, ViewOf(s)) && ViewOf(s).status == BACKUP_STATUS_CHANGE_KEY
    ensures
      var restore := Singly(PartialRestoreWrites(s.fram));
      var t := RunSteps(s, restore);
      && Always(KeepFronts(v0), s, restore) && Kept(v0, ViewOf(t))
      && SavedId(s.fram) < CAPACITY && Used(v0.head, SavedId(s.fram)) && CanBegin(ViewOf(t), SavedId(s.fram))
  {
    PartsOf(s);
    SavedFront(v0, s);
    hide Always, RunSteps, ViewOf, Kept, KeepFronts, ApplyAll, Singly, BlockOf, SavedData, SavedId, FramWrites, Used, Front;
    var id, b, n := SavedId(s.fram), SavedData(s.fram), PWD_OFFSET_PWD_IV;
    var lo := PwdAddr(id, 0);
    FrontOfBlock(s.fram, id, n);
    SplitFramWrites(lo, b, n);
    KeepFrontsIs(v0, s);
    var front, back := FramWrites(lo, b[..n]), FramWrites(lo + n, b[n..]);
    AlwaysRewriting(KeepFronts(v0), s, lo, b[..n]);
    BackWithin(id, n, b[n..]);
    TextsWritten(v0, s, back, id);
    AlwaysAppend(KeepFronts(v0), s, Singly(front), Singly(back));
    RunAppend(s, Singly(front), Singly(back));
    RunSingly(s, PartialRestoreWrites(s.fram));
    RestoredBlock(s, id);
    BlockInView(ApplyAll(s, PartialRestoreWrites(s.fram)), id);
  }

  lemma SavedFront(v0: View, s: Store)
    requires Whole(v0) && Kept(v0, ViewOf(s)) && ViewOf(s).status == BACKUP_STATUS_CHANGE_KEY
    ensures SavedId(s.fram) < CAPACITY && Used(v0.head, SavedId(s.fram))
    ensures SavedData(s.fram)[..PWD_OFFSET_PWD_IV] == BlockOf(s.fram, SavedId(s.fram))[..PWD_OFFSET_PWD_IV]
  {
    PartsOf(s);
    BlockInView(s, SavedId(s.fram));
    hide ViewOf, Used, BlockOf, SavedData, SavedId;
  }

  lemma RecoveryKeeps(v0: View, s: Store, resets: bool, luck: Luck)
    requires Whole(v0) && Kept(v0, ViewOf(s)) && MapFits(v0.head) && Recoverable(s.fram)
    ensures Always(KeepFronts(v0), s, RecoverSteps(s, resets, luck))
  {
    hide Always, RunSteps, ViewOf, Kept, KeepFronts, ResumeSteps, CardSteps, FinishSteps, MapFits, KeyMatches;
    KeptIsRecoverable(v0, s);
    KeepFrontsIs(v0, s);
    AlwaysNothing(KeepFronts(v0), s);
    var status := StatusOf(s.fram);
    if status != BACKUP_STATUS_OK && !Refused(s, luck.ready) {
      if status == BACKUP_STATUS_CHANGE_KEY_VALIDATION {
        FinishKeeps(v0, s, s.temp, luck);
      } else if status == BACKUP_STATUS_CHANGE_KEY_UPDATE_CARD {
        CardKeeps(v0, s, s.temp, luck);
      } else {
        ResumeKeeps(v0, s, resets, luck);
      }
    }
  }

  lemma ResumeKeeps(v0: View, s: Store, resets: bool, luck: Luck)
    requires Whole(v0) && Kept(v0, ViewOf(s)) && MapFits(v0.head) && Recoverable(s.fram)
    requires StatusOf(s.fram) in {BACKUP_STATUS_CHANGE_KEY, BACKUP_STATUS_CHANGE_KEY_CHUNK_OK}
    ensures Always(KeepFronts(v0), s, ResumeSteps(s, resets, luck))
  {
    hide Always, RunSteps, ViewOf, Kept, KeepFronts, RekeyThenCard, RekeyIds, MapFits, Used, Singly, AllUsed, HeadOf;
    hide PartialRestoreWrites;
    KeptIsRecoverable(v0, s);
    if StatusOf(s.fram) == BACKUP_STATUS_CHANGE_KEY {
      var restore := Singly(PartialRestoreWrites(s.fram));
      RestoreKeeps(v0, s);
      LoopIds(s.fram, v0.head, SavedId(s.fram), resets);
      var s1 := RunSteps(s, restore);
      var ids := RekeyIds(s.fram, SavedId(s.fram), resets);
      RekeyThenCardKeeps(v0, s1, ids, s.card, s.temp, luck);
      AlwaysAppend(KeepFronts(v0), s, restore, RekeyThenCard(s1, ids, s.card, s.temp, luck));
    } else {
      LoopIds(s.fram, v0.head, SavedId(s.fram) + 1, resets);
      RekeyThenCardKeeps(v0, s, RekeyIds(s.fram, SavedId(s.fram) + 1, resets), s.card, s.temp, luck);
    }
  }

  lemma {:induction false} RestartsKeep(v0: View, s: Store, resets: bool, runs: seq<PowerOn>)
    requires Whole(v0) && Kept(v0, ViewOf(s)) && MapFits(v0.head)
    ensures Kept(v0, ViewOf(Restarted(s, resets, runs)))
    decreases |runs|
  {
    hide Always, RunSteps, ViewOf, RecoverSteps, MapFits, Kept, KeepFronts;
    if runs != [] {
      KeptIsRecoverable(v0, s);
      var steps := RecoverSteps(s, resets, runs[0].luck);
      var n := if runs[0].steps <= |steps| then runs[0].steps else |steps|;
      assert steps[..|steps|] == steps;
      RecoveryKeeps(v0, s, resets, runs[0].luck);
      AlwaysCut(KeepFronts(v0), s, steps, n);
      KeepFrontsIs(v0, RunSteps(s, steps[..n]));
      RestartsKeep(v0, RunSteps(s, steps[..n]), resets, runs[1..]);
    }
  }

  // ----- the whole -----

  lemma StartKept(s: Store)
    requires StatusOf(s.fram) == BACKUP_STATUS_OK
    ensures Whole(ViewOf(s)) && Kept(ViewOf(s), ViewOf(s))
  {
    PartsOf(s);
    hide ViewOf, Used;
  }

  lemma ChangeKeeps(s: Store, resets: bool, k: Block, drawn: Draw, luck: Luck)
    requires StatusOf(s.fram) == BACKUP_STATUS_OK && MapFits(s.fram)
    ensures Whole(ViewOf(s)) && Always(KeepFronts(ViewOf(s)), s, ChangeKeySteps(s, resets, k, drawn, luck))
  {
    StartKept(s);
    hide Always, RunSteps, ViewOf, RekeyThenCard, RekeyIds, MapFits, HeadOf, ApplyAll, DrawWrites, DrawBytes, Singly;
    hide Kept, KeepFronts, AllUsed, SameOutside, Within;
    var v0, ws, temp := ViewOf(s), DrawWrites(drawn), ToCardTemp(DrawBytes(drawn));
    forall t | SameOutside(s, t, 0, 0)
      ensures KeepFronts(v0)(t) && ViewOf(t) == v0
    {
      ViewAfterPool(s, t);
      KeepFrontsIs(v0, t);
    }
    DrawsWithin(drawn, 0, 0);
    AlwaysWithin(KeepFronts(v0), s, ws, 0, 0);
    var s0 := ApplyAll(s, ws);
    if luck.ready {
      var s1 := Apply(s0, temp);
      CardInView(s0, temp.key);
      KeysKeep(v0, v0, v0.card, temp.key, v0.eeprom);
      KeepFrontsIs(v0, s0);
      KeepFrontsIs(v0, s1);
      AlwaysOneWrite(KeepFronts(v0), s0, temp);
      PartsOf(s);
      MapInView(s, resets);
      LoopIds(s.fram, v0.head, 0, resets);
      var ids := RekeyIds(s.fram, 0, resets);
      RekeyThenCardKeeps(v0, s1, ids, k, temp.key, luck);
      var rest := RekeyThenCard(s1, ids, k, temp.key, luck);
      AlwaysAppend(KeepFronts(v0), s0, [[temp]], rest);
      AlwaysAppend(KeepFronts(v0), s, Singly(ws), [[temp]] + rest);
    } else {
      assert Singly(ws) + [] == Singly(ws);
    }
  }

  /** A change of key, with the loop as written or as intended, cut after any step and its
    recovery any number of times, keeps the head and the front of every block. */
  lemma CutChangeKeeps(s: Store, resets: bool, key: Block, drawn: Draw, luck: Luck, k: nat, runs: seq<PowerOn>)
    requires StatusOf(s.fram) == BACKUP_STATUS_OK && MapFits(s.fram)
    requires k <= |ChangeKeySteps(s, resets, key, drawn, luck)|
    ensures
      var cut := Restarted(RunSteps(s, ChangeKeySteps(s, resets, key, drawn, luck)[..k]), resets, runs);
      && HeadOf(cut.fram) == HeadOf(s.fram)
      && forall id: nat | id < CAPACITY ::
           BlockOf(cut.fram, id)[..PWD_OFFSET_PWD_IV] == BlockOf(s.fram, id)[..PWD_OFFSET_PWD_IV]
  {
    hide *;
    var v0, steps := ViewOf(s), ChangeKeySteps(s, resets, key, drawn, luck);
    ChangeKeeps(s, resets, key, drawn, luck);
    var s1 := RunSteps(s, steps[..k]);
    AlwaysCut(KeepFronts(v0), s, steps, k);
    KeepFrontsIs(v0, s1);
    PartsOf(s);
    MapInView(s, resets);
    RestartsKeep(v0, s1, resets, runs);
    KeptParts(s, Restarted(s1, resets, runs));
  }

  lemma KeptParts(s: Store, t: Store)
    requires Whole(ViewOf(s)) && Kept(ViewOf(s), ViewOf(t))
    ensures HeadOf(t.fram) == HeadOf(s.fram)
    ensures forall id: nat | id < CAPACITY :: BlockOf(t.fram, id)[..PWD_OFFSET_PWD_IV] == BlockOf(s.fram, id)[..PWD_OFFSET_PWD_IV]
  {
    PartsOf(s);
    PartsOf(t);
    hide HeadOf, Used;
    forall id: nat | id < CAPACITY
      ensures BlockOf(t.fram, id)[..PWD_OFFSET_PWD_IV] == BlockOf(s.fram, id)[..PWD_OFFSET_PWD_IV]
    {
      BlockInView(s, id);
      BlockInView(t, id);
      FrontIs(BlockOf(s.fram, id), BlockOf(t.fram, id));
    }
  }
}
