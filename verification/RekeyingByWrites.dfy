/** A change of the master key with every write a step of its own, also id and status of
  the backup: safe if and only if no second credential is processed. */
module RekeyingByWrites {
  import opened Bytes
  import opened Aes
  import opened Cbc
  import opened Memory
  import opened MemoryMap
  import opened Crash
  import opened Random
  import opened Backup
  import opened Views
  import opened Encryption
  import opened Rekeying
  import opened RekeyingSafety
  import opened RekeyingLimits

  ghost predicate SingleSteps(steps: seq<Step>) {
    forall i: nat | i < |steps| :: |steps[i]| == 1
  }

  lemma {:induction false} FlattenSingle(steps: seq<Step>)
    requires SingleSteps(steps)
    ensures Singly(Flatten(steps)) == steps
  {
    if steps != [] {
      FlattenSingle(steps[1..]);
      SinglyBoth(steps[0], Flatten(steps[1..]));
      assert steps[0] == [steps[0][0]];
      assert Singly(steps[0]) == [steps[0]];
      assert steps == [steps[0]] + steps[1..];
    }
  }

  lemma SinglyBoth(a: seq<Write>, b: seq<Write>)
    ensures Singly(a + b) == Singly(a) + Singly(b)
  {
  }

  lemma {:induction false} AlwaysParts(p: Store -> bool, s: Store, a: seq<Step>, b: seq<Step>)
    requires Always(p, s, a + b)
    ensures Always(p, s, a) && Always(p, RunSteps(s, a), b)
    decreases |a|
  {
    if a == [] {
      assert a + b == b;
    } else {
      assert (a + b)[0] == a[0] && (a + b)[1..] == a[1..] + b;
      AlwaysParts(p, ApplyAll(s, a[0]), a[1..], b);
    }
  }

  /** A step that is safe write by write may be taken apart. */
  lemma StepApart(p: Store -> bool, s: Store, a: seq<Step>, step: Step, b: seq<Step>)
    requires Always(p, s, a + [step] + b) && Always(p, RunSteps(s, a), Singly(step))
    requires SingleSteps(a) && SingleSteps(b)
    ensures Always(p, s, Singly(Flatten(a + [step] + b)))
  {
    hide Always, RunSteps, Flatten, Singly, ApplyAll;
    var t := RunSteps(s, a);
    AlwaysParts(p, s, a + [step], b);
    AlwaysParts(p, s, a, [step]);
    RunAppend(s, a, [step]);
    RunOne(t, step);
    RunSingly(t, step);
    AlwaysAppend(p, s, a, Singly(step));
    RunAppend(s, a, Singly(step));
    AlwaysAppend(p, s, a + Singly(step), b);
    FlattenAppend(a + [step], b);
    FlattenAppend(a, [step]);
    FlattenOne(step);
    SinglyBoth(Flatten(a) + step, Flatten(b));
    SinglyBoth(Flatten(a), step);
    FlattenSingle(a);
    FlattenSingle(b);
  }

  lemma SinglySingle(ws: seq<Write>)
    ensures SingleSteps(Singly(ws))
  {
  }

  lemma SingleBoth(a: seq<Step>, b: seq<Step>)
    requires SingleSteps(a) && SingleSteps(b)
    ensures SingleSteps(a + b)
  {
  }

  lemma CardSingle(k: Block, luck: Luck)
    ensures SingleSteps(CardSteps(k, luck))
  {
    hide Singly, ValidationWrites, FreeWrites, SingleSteps;
    SinglySingle(ValidationWrites(k, luck.random));
    SinglySingle(FreeWrites());
    SingleBoth(Singly(ValidationWrites(k, luck.random)), Singly(FreeWrites()));
    if luck.writes {
      var head: seq<Step> := [[ToCard(k)]] + [[StatusWrite(BACKUP_STATUS_CHANGE_KEY_VALIDATION)]];
      assert SingleSteps(head) by { TwoSingle(ToCard(k), StatusWrite(BACKUP_STATUS_CHANGE_KEY_VALIDATION)); }
      SingleBoth(head, FinishSteps(k, luck));
    } else {
      NoneSingle();
    }
  }

  lemma TwoSingle(a: Write, b: Write)
    ensures SingleSteps([[a]] + [[b]]) && SingleSteps([[a]])
  {
  }

  lemma NoneSingle()
    ensures SingleSteps([])
  {
  }

  /** The beginning of a change: the new key is drawn and goes to the card. */
  function BeginSteps(drawn: Draw): seq<Step> {
    Singly(DrawWrites(drawn)) + [[ToCardTemp(DrawBytes(drawn))]]
  }

  function Begun(s: Store, drawn: Draw): Store {
    Apply(ApplyAll(s, DrawWrites(drawn)), ToCardTemp(DrawBytes(drawn)))
  }

  lemma BeginsReady(s: Store, drawn: Draw, i: nat)
    requires StatusOf(s.fram) == BACKUP_STATUS_OK && forall id: nat | id < i && id < CAPACITY :: !Used(s.fram, id)
    ensures
      var c, s1 := Change(ViewOf(s), s.card, DrawBytes(drawn)), Begun(s, drawn);
      && Shaped(c.start) && RunSteps(s, BeginSteps(drawn)) == s1 && Ready(c, ViewOf(s1), i)
      && !AfterChunk(c, ViewOf(s1)) && SingleSteps(BeginSteps(drawn))
  {
    hide RunSteps, ApplyAll, DrawWrites, DrawBytes, Singly, HeadOf, SameOutside, Always, Keep, SingleSteps;
    var c := Change(ViewOf(s), s.card, DrawBytes(drawn));
    var ws, temp := DrawWrites(drawn), ToCardTemp(DrawBytes(drawn));
    assert Shaped(c.start);
    PartsOf(s);
    DrawSafe(c, s, drawn);
    var s0 := ApplyAll(s, ws);
    RunAppend(s, Singly(ws), [[temp]]);
    RunOne(s0, [temp]);
    ApplyOne(s0, temp);
    CardInView(s0, c.newKey);
    SinglySingle(ws);
    TwoSingle(temp, temp);
    SingleBoth(Singly(ws), [[temp]]);
    forall id: nat | InUse(c, id)
      ensures id >= i
    {
      UsedInHead(s.fram, id);
    }
    hide ViewOf;
  }

  /** Once the block is copied, the writes of the commit are safe one by one. */
  lemma CopiedCommit(c: Change, s: Store, i: nat)
    requires Shaped(c.start) && Ready(c, ViewOf(s), i) && InUse(c, i) && !AfterChunk(c, ViewOf(s))
    ensures
      var data := FramWrites(OFFSET_BACKUP_DATA, BlockOf(s.fram, i));
      RunSteps(s, Singly(data)) == ApplyAll(s, data) && Always(Keep(c), ApplyAll(s, data), Singly(Commit(i)))
  {
    hide ApplyAll, Always, RunSteps, ViewOf, Keep, Framed, Split, Singly, FramWrites, BlockOf, Commit;
    var data := FramWrites(OFFSET_BACKUP_DATA, BlockOf(s.fram, i));
    var t := ApplyAll(s, data);
    CopySafe(c, s, i);
    AfterCopy(s, i);
    PartsOf(t);
    BlockInView(s, i);
    BlockInView(t, i);
    CommitByBytes(c, t, i);
  }

  /** A change whose first chunk is safe is safe when the commit of that chunk is taken apart. */
  lemma ChunkApart(c: Change, s: Store, begin: seq<Step>, i: nat, ivs: nat -> Draw, end: seq<Step>)
    requires Shaped(c.start) && SingleSteps(begin) && SingleSteps(end)
    requires
      var s1 := RunSteps(s, begin);
      && Ready(c, ViewOf(s1), i) && InUse(c, i) && !AfterChunk(c, ViewOf(s1))
      && Always(Keep(c), s, begin + ChunkSteps(s1.fram, i, c.oldKey, c.newKey, ivs) + end)
    ensures
      var s1 := RunSteps(s, begin);
      Always(Keep(c), s, Singly(Flatten(begin + ChunkSteps(s1.fram, i, c.oldKey, c.newKey, ivs) + end)))
  {
    hide ApplyAll, Always, RunSteps, ViewOf, Keep, Ready, AfterChunk, Singly, FramWrites, SecretWrites, BlockOf;
    hide Commit, Flatten, SingleSteps;
    var s1 := RunSteps(s, begin);
    var data := FramWrites(OFFSET_BACKUP_DATA, BlockOf(s1.fram, i));
    var secret := SecretWrites(s1.fram, i, c.oldKey, c.newKey, ivs);
    var last := StatusWrite(BACKUP_STATUS_CHANGE_KEY_CHUNK_OK);
    CopiedCommit(c, s1, i);
    RunAppend(s, begin, Singly(data));
    SinglySingle(data);
    SingleBoth(begin, Singly(data));
    SinglySingle(secret);
    TwoSingle(last, last);
    SingleBoth(Singly(secret), [[last]]);
    SingleBoth(Singly(secret) + [[last]], end);
    ChunkParts(begin, Singly(data), Commit(i), Singly(secret), [[last]], end);
    StepApart(Keep(c), s, begin + Singly(data), Commit(i), Singly(secret) + [[last]] + end);
  }

  lemma ChunkParts(begin: seq<Step>, data: seq<Step>, commit: Step, secret: seq<Step>, last: seq<Step>, end: seq<Step>)
    ensures begin + (data + [commit] + secret + last) + end == (begin + data) + [commit] + (secret + last + end)
  {
  }

  /** With one credential, or none, to process, id and status of the backup need not be one step. */
  lemma FewAreSafe(s: Store, resets: bool, drawn: Draw, luck: Luck)
    requires StatusOf(s.fram) == BACKUP_STATUS_OK && MapFits(s.fram) && Covers(s.fram, resets)
    requires |RekeyIds(s.fram, 0, resets)| <= 1 && luck.ready
    ensures
      var c := Change(ViewOf(s), s.card, DrawBytes(drawn));
      Shaped(c.start) && Always(Keep(c), s, Singly(Flatten(ChangeKeySteps(s, resets, s.card, drawn, luck))))
  {
    hide RunSteps, ApplyAll, DrawWrites, DrawBytes, Singly, HeadOf, Always, Keep, SingleSteps, ViewOf, Flatten;
    hide RekeySteps, ChunkSteps, UsedFrom, RekeyIds, Used, Covers, MapFits, BeginSteps, EndSteps, ChangeKeySteps, Begun;
    hide Ready, AfterChunk, StatusOf, Finished;
    var ids := RekeyIds(s.fram, 0, resets);
    ChangeSafe(s, resets, drawn, luck);
    ChangeParts(s, resets, drawn, luck);
    if ids == [] {
      NoneIsSafe(s, resets, drawn, luck);
    } else {
      assert ids == [ids[0]];
      FirstIdIs(s.fram, resets);
      FirstApart(s, resets, drawn, luck, ids[0]);
    }
  }

  lemma NoneIsSafe(s: Store, resets: bool, drawn: Draw, luck: Luck)
    requires StatusOf(s.fram) == BACKUP_STATUS_OK && MapFits(s.fram) && luck.ready
    requires RekeyIds(s.fram, 0, resets) == []
    ensures
      var steps := ChangeKeySteps(s, resets, s.card, drawn, luck);
      Singly(Flatten(steps)) == steps
  {
    hide RunSteps, ApplyAll, DrawBytes, Singly, SingleSteps, ViewOf, Flatten, ChunkSteps, UsedFrom, RekeyIds;
    hide MapFits, BeginSteps, EndSteps, ChangeKeySteps, Begun, Ready, AfterChunk;
    ChangeParts(s, resets, drawn, luck);
    var begin, end := BeginSteps(drawn), EndSteps(DrawBytes(drawn), luck);
    BeginsReady(s, drawn, 0);
    EndSingle(DrawBytes(drawn), luck);
    assert begin + [] + end == begin + end;
    SingleBoth(begin, end);
    FlattenSingle(begin + end);
  }

  lemma FirstApart(s: Store, resets: bool, drawn: Draw, luck: Luck, i: nat)
    requires StatusOf(s.fram) == BACKUP_STATUS_OK && i < CAPACITY && Used(s.fram, i)
    requires forall id: nat | id < i :: !Used(s.fram, id)
    requires
      var c := Change(ViewOf(s), s.card, DrawBytes(drawn));
      var chunk := RekeySteps(Begun(s, drawn), [i], s.card, c.newKey, luck.ivs);
      Shaped(c.start) && Always(Keep(c), s, BeginSteps(drawn) + chunk + EndSteps(c.newKey, luck))
    ensures
      var c := Change(ViewOf(s), s.card, DrawBytes(drawn));
      var chunk := RekeySteps(Begun(s, drawn), [i], s.card, c.newKey, luck.ivs);
      Always(Keep(c), s, Singly(Flatten(BeginSteps(drawn) + chunk + EndSteps(c.newKey, luck))))
  {
    hide RunSteps, ApplyAll, DrawBytes, Singly, Always, Keep, SingleSteps, ViewOf, Flatten, ChunkSteps, RekeySteps;
    hide Used, BeginSteps, EndSteps, Begun, Ready, AfterChunk, StatusOf, InUse;
    var c := Change(ViewOf(s), s.card, DrawBytes(drawn));
    EndSingle(c.newKey, luck);
    FirstInUse(s, c, i);
    BeginsReady(s, drawn, i);
    OneRekeyed(Begun(s, drawn), i, s.card, c.newKey, luck.ivs);
    ChunkApart(c, s, BeginSteps(drawn), i, luck.ivs, EndSteps(c.newKey, luck));
  }

  /** The rest of a change when all credentials are done. */
  function EndSteps(k: Block, luck: Luck): seq<Step> {
    [[StatusWrite(BACKUP_STATUS_CHANGE_KEY_UPDATE_CARD)]] + CardSteps(k, luck)
  }

  lemma EndSingle(k: Block, luck: Luck)
    ensures SingleSteps(EndSteps(k, luck))
  {
    hide CardSteps, SingleSteps;
    var status := StatusWrite(BACKUP_STATUS_CHANGE_KEY_UPDATE_CARD);
    TwoSingle(status, status);
    CardSingle(k, luck);
    SingleBoth([[status]], CardSteps(k, luck));
  }

  lemma ChangeParts(s: Store, resets: bool, drawn: Draw, luck: Luck)
    requires MapFits(s.fram) && luck.ready
    ensures
      var k', ids := DrawBytes(drawn), RekeyIds(s.fram, 0, resets);
      && AllFit(ids)
      && ChangeKeySteps(s, resets, s.card, drawn, luck) ==
           BeginSteps(drawn) + RekeySteps(Begun(s, drawn), ids, s.card, k', luck.ivs) + EndSteps(k', luck)
  {
    hide DrawBytes, DrawWrites, RekeySteps, CardSteps, Singly, ApplyAll, MapFits, UsedFrom;
    var k', ids, ws := DrawBytes(drawn), RekeyIds(s.fram, 0, resets), Singly(DrawWrites(drawn));
    var rekey := RekeySteps(Begun(s, drawn), ids, s.card, k', luck.ivs);
    var temp: seq<Step> := [[ToCardTemp(k')]];
    var status: seq<Step> := [[StatusWrite(BACKUP_STATUS_CHANGE_KEY_UPDATE_CARD)]];
    assert ws + (temp + (rekey + status + CardSteps(k', luck))) == (ws + temp) + rekey + (status + CardSteps(k', luck));
  }

  lemma FirstIdIs(m: Image, resets: bool)
    requires |RekeyIds(m, 0, resets)| >= 1 && MapFits(m)
    ensures
      var i := RekeyIds(m, 0, resets)[0];
      i < CAPACITY && Used(m, i) && forall id: nat | id < i :: !Used(m, id)
  {
    var ids, hi := RekeyIds(m, 0, resets), RekeyLimit(0, resets);
    assert AllFit(ids) && ids[0] < hi;
    UsedAscending(m, 0, hi);
    hide Used, UsedFrom;
    forall id: nat | id < ids[0]
      ensures !Used(m, id)
    {
      FirstIsLeast(ids, id);
    }
  }

  lemma FirstIsLeast(ids: seq<nat>, id: nat)
    requires Ascending(ids) && ids != [] && id < ids[0]
    ensures id !in ids
  {
    forall j: nat | j < |ids|
      ensures ids[j] != id
    {
      assert j > 0 ==> ids[0] < ids[j];
    }
  }

  lemma FirstInUse(s: Store, c: Change, i: nat)
    requires c.start == ViewOf(s) && Shaped(c.start) && i < CAPACITY && Used(s.fram, i)
    ensures InUse(c, i)
  {
    PartsOf(s);
    UsedInHead(s.fram, i);
    hide ViewOf, Used;
  }

  lemma OneRekeyed(s: Store, i: nat, k: Block, k': Block, ivs: nat -> Draw)
    requires i < CAPACITY
    ensures AllFit([i]) && RekeySteps(s, [i], k, k', ivs) == ChunkSteps(s.fram, i, k, k', ivs)
  {
    hide ChunkSteps, RunSteps;
    assert [i][1..] == [];
  }

  // ----- a second credential -----

  lemma {:induction false} SkipTo(c: Change, v: View, i: nat, j: nat)
    requires Shaped(c.start) && Ready(c, v, i) && i <= j && forall id: nat | i <= id < j :: !InUse(c, id)
    ensures Ready(c, v, j)
    decreases j - i
  {
    hide Ready, InUse;
    if i < j {
      SkipUnused(c, v, i);
      SkipTo(c, v, i + 1, j);
    }
  }

  /** After a chunk, with the next credential in use: what CutInsideCommit asks for. */
  lemma ChunkDone(c: Change, s: Store, i: nat, j: nat, ivs: nat -> Draw)
    requires Shaped(c.start) && Ready(c, ViewOf(s), i) && InUse(c, i) && InUse(c, j)
    requires i < j && forall id: nat | i < id < j :: !InUse(c, id)
    ensures
      var t := RunSteps(s, ChunkSteps(s.fram, i, c.oldKey, c.newKey, ivs));
      AfterChunk(c, ViewOf(t)) && Ready(c, ViewOf(t), j) && t.eeprom == s.eeprom && t.card == s.card
  {
    hide RunSteps, ChunkSteps, ViewOf, Framed, Split, Always, Keep, Used, RekeyedIn;
    var t := RunSteps(s, ChunkSteps(s.fram, i, c.oldKey, c.newKey, ivs));
    ChunkSafe(c, s, i, ivs);
    ChunkView(s, i, c.oldKey, c.newKey, ivs);
    PartsOf(s);
    PartsOf(t);
    SkipTo(c, ViewOf(t), i + 1, j);
  }

  /** The commit cut before its status, when the backup says of another credential that it is done. */
  lemma CutIsUnsafe(c: Change, s: Store, j: nat)
    requires Shaped(c.start) && AfterChunk(c, ViewOf(s)) && Ready(c, ViewOf(s), j) && InUse(c, j)
    requires !SameSecrets(c.start.blocks[j], c.oldKey, c.start.blocks[j], c.newKey)
    ensures !Keep(c)(ApplyAll(s, SaveWrites(s.fram, j, BACKUP_STATUS_CHANGE_KEY)[..SIZE_OF_PWD_BLOCK + 2]))
  {
    hide ApplyAll, ViewOf, SameSecrets, SaveWrites, Used, KeyMatches, Keep;
    SaveBegins(s.fram, j, BACKUP_STATUS_CHANGE_KEY);
    var t := ApplyAll(s, SaveWrites(s.fram, j, BACKUP_STATUS_CHANGE_KEY)[..SIZE_OF_PWD_BLOCK + 2]);
    CutSave(s, j);
    KeepIs(c, t);
    assert IsOld(c, ViewOf(s), j);
    StillOld(c, ViewOf(t), j);
  }

  lemma StillOld(c: Change, v: View, j: nat)
    requires Shaped(c.start) && Shaped(v) && InUse(c, j) && IsOld(c, v, j)
    requires v.status == BACKUP_STATUS_CHANGE_KEY_CHUNK_OK && v.savedId == j
    requires !SameSecrets(c.start.blocks[j], c.oldKey, c.start.blocks[j], c.newKey)
    ensures !Safe(c, v)
  {
    hide SameSecrets, Used, KeyMatches;
    assert !IsNew(c, v, j);
  }

  /** Where a run of single writes stands after some of them. */
  lemma CutWithin(p: Store -> bool, s: Store, a: seq<Write>, b: seq<Write>, rest: seq<Write>, n: nat)
    requires n <= |b| && Always(p, s, Singly(a + b + rest))
    ensures p(ApplyAll(ApplyAll(s, a), b[..n]))
  {
    hide Always, ApplyAll, RunSteps;
    var all := a + b + rest;
    AlwaysCut(p, s, Singly(all), |a| + n);
    assert Singly(all)[..|a| + n] == Singly(a + b[..n]);
    RunSingly(s, a + b[..n]);
    ApplyAppend(s, a, b[..n]);
  }

  lemma {:induction false} TwoRekeyed(s: Store, ids: seq<nat>, k: Block, k': Block, ivs: nat -> Draw) returns (rest: seq<Step>)
    requires AllFit(ids) && |ids| >= 2
    ensures
      var chunk := ChunkSteps(s.fram, ids[0], k, k', ivs);
      RekeySteps(s, ids, k, k', ivs) == chunk + (ChunkSteps(RunSteps(s, chunk).fram, ids[1], k, k', ivs) + rest)
  {
    hide ChunkSteps, RunSteps;
    var s1 := RunSteps(s, ChunkSteps(s.fram, ids[0], k, k', ivs));
    var s2 := RunSteps(s1, ChunkSteps(s1.fram, ids[1], k, k', ivs));
    rest := RekeySteps(s2, ids[1..][1..], k, k', ivs);
  }

  /** The writes of a change up to the save of its second credential, and what is left. */
  lemma SecondChunk(begin: seq<Step>, s: Store, ids: seq<nat>, k: Block, k': Block, ivs: nat -> Draw, end: seq<Step>)
    returns (rest: seq<Write>)
    requires AllFit(ids) && |ids| >= 2
    ensures
      var chunk := ChunkSteps(s.fram, ids[0], k, k', ivs);
      Flatten(begin + RekeySteps(s, ids, k, k', ivs) + end) == Flatten(begin + chunk)
        + SaveWrites(RunSteps(s, chunk).fram, ids[1], BACKUP_STATUS_CHANGE_KEY) + rest
  {
    hide ChunkSteps, RunSteps, Flatten, SaveWrites, RekeySteps, SecretWrites;
    var chunk := ChunkSteps(s.fram, ids[0], k, k', ivs);
    var m := RunSteps(s, chunk).fram;
    var next := ChunkSteps(m, ids[1], k, k', ivs);
    var save := SaveWrites(m, ids[1], BACKUP_STATUS_CHANGE_KEY);
    var after := SecretWrites(m, ids[1], k, k', ivs) + [StatusWrite(BACKUP_STATUS_CHANGE_KEY_CHUNK_OK)];
    var others := TwoRekeyed(s, ids, k, k', ivs);
    assert begin + RekeySteps(s, ids, k, k', ivs) + end == (begin + chunk) + (next + (others + end));
    FlattenAppend(begin + chunk, next + (others + end));
    FlattenAppend(next, others + end);
    ChunkFlat(m, ids[1], k, k', ivs);
    rest := after + Flatten(others + end);
    assert Flatten(begin + chunk) + ((save + after) + Flatten(others + end)) == Flatten(begin + chunk) + save + rest;
  }

  lemma SecondIdIs(m: Image, resets: bool)
    requires |RekeyIds(m, 0, resets)| >= 2 && MapFits(m)
    ensures
      var ids := RekeyIds(m, 0, resets);
      && ids[0] < ids[1] < CAPACITY && Used(m, ids[1])
      && forall id: nat | ids[0] < id < ids[1] :: !Used(m, id)
  {
    var ids, hi := RekeyIds(m, 0, resets), RekeyLimit(0, resets);
    assert AllFit(ids) && ids[1] < hi && Used(m, ids[1]);
    UsedAscending(m, 0, hi);
    hide Used, UsedFrom;
    forall id: nat | ids[0] < id < ids[1]
      ensures !Used(m, id)
    {
      NothingBetween(ids, id);
    }
  }

  lemma NothingBetween(ids: seq<nat>, id: nat)
    requires Ascending(ids) && |ids| >= 2 && ids[0] < id < ids[1]
    ensures id !in ids
  {
    forall j: nat | j < |ids|
      ensures ids[j] != id
    {
      assert j > 1 ==> ids[1] < ids[j];
    }
  }

  /** A change that processes two credentials comes to where CutInsideCommit begins. */
  lemma SecondIsReached(s: Store, resets: bool, drawn: Draw, luck: Luck) returns (t: Store)
    requires StatusOf(s.fram) == BACKUP_STATUS_OK && MapFits(s.fram) && luck.ready
    requires |RekeyIds(s.fram, 0, resets)| >= 2
    ensures
      var c, ids := Change(ViewOf(s), s.card, DrawBytes(drawn)), RekeyIds(s.fram, 0, resets);
      var chunk := ChunkSteps(Begun(s, drawn).fram, ids[0], c.oldKey, c.newKey, luck.ivs);
      && Shaped(c.start) && t == RunSteps(s, BeginSteps(drawn) + chunk) == RunSteps(Begun(s, drawn), chunk)
      && AfterChunk(c, ViewOf(t)) && Ready(c, ViewOf(t), ids[1]) && InUse(c, ids[1])
      && t.eeprom == s.eeprom && t.card == s.card
  {
    hide RunSteps, ApplyAll, DrawBytes, ViewOf, ChunkSteps, Used, BeginSteps, Begun, Ready, AfterChunk, StatusOf;
    hide RekeyIds, MapFits;
    var c, ids := Change(ViewOf(s), s.card, DrawBytes(drawn)), RekeyIds(s.fram, 0, resets);
    var s1 := Begun(s, drawn);
    var chunk := ChunkSteps(s1.fram, ids[0], c.oldKey, c.newKey, luck.ivs);
    FirstIdIs(s.fram, resets);
    SecondIdIs(s.fram, resets);
    FirstInUse(s, c, ids[0]);
    FirstInUse(s, c, ids[1]);
    BeginsReady(s, drawn, ids[0]);
    NotInUse(s, c, ids[0], ids[1]);
    ChunkDone(c, s1, ids[0], ids[1], luck.ivs);
    RunAppend(s, BeginSteps(drawn), chunk);
    t := RunSteps(s1, chunk);
    BeginKeeps(s, drawn);
  }

  lemma NotInUse(s: Store, c: Change, i: nat, j: nat)
    requires c.start == ViewOf(s) && Shaped(c.start) && j < CAPACITY && forall id: nat | i < id < j :: !Used(s.fram, id)
    ensures forall id: nat | i < id < j :: !InUse(c, id)
  {
    hide ViewOf, Used;
    PartsOf(s);
    forall id: nat | i < id < j
      ensures !InUse(c, id)
    {
      UsedInHead(s.fram, id);
    }
  }

  lemma BeginKeeps(s: Store, drawn: Draw)
    ensures Begun(s, drawn).eeprom == s.eeprom && Begun(s, drawn).card == s.card
  {
    hide ApplyAll, DrawBytes, DrawWrites;
    DrawsWithin(drawn, 0, 0);
    WritesStayWithin(s, DrawWrites(drawn), 0, 0);
  }

  /** With every write a step, some cut of a change with two credentials is unsafe. */
  lemma ManyAreNot(s: Store, resets: bool, drawn: Draw, luck: Luck)
    requires StatusOf(s.fram) == BACKUP_STATUS_OK && MapFits(s.fram) && luck.ready
    requires |RekeyIds(s.fram, 0, resets)| >= 2
    requires SecondDiffers(s, resets, DrawBytes(drawn))
    ensures
      var c := Change(ViewOf(s), s.card, DrawBytes(drawn));
      Shaped(c.start) && !Always(Keep(c), s, Singly(Flatten(ChangeKeySteps(s, resets, s.card, drawn, luck))))
  {
    hide RunSteps, ApplyAll, DrawBytes, ViewOf, ChunkSteps, Used, BeginSteps, Begun, Ready, AfterChunk, StatusOf;
    hide RekeyIds, MapFits, ChangeKeySteps, RekeySteps, EndSteps, Flatten, Singly, Always, Keep, SameSecrets, SaveWrites;
    var c, ids := Change(ViewOf(s), s.card, DrawBytes(drawn)), RekeyIds(s.fram, 0, resets);
    assert ids == [ids[0]] + ids[1..];
    FirstIdIs(s.fram, resets);
    SecondIdIs(s.fram, resets);
    FirstInUse(s, c, ids[0]);
    FirstInUse(s, c, ids[1]);
    NotInUse(s, c, ids[0], ids[1]);
    BeginsReady(s, drawn, ids[0]);
    ChangeParts(s, resets, drawn, luck);
    BlockInView(s, ids[1]);
    SecondUnsafe(c, s, BeginSteps(drawn), ids[0], ids[1..], luck.ivs, EndSteps(c.newKey, luck));
  }

  /** The block of the second credential does not read the same under both keys as it is. */
  ghost predicate SecondDiffers(s: Store, resets: bool, newKey: Block)
    requires MapFits(s.fram) && |RekeyIds(s.fram, 0, resets)| >= 2
  {
    var b := BlockOf(s.fram, RekeyIds(s.fram, 0, resets)[1]);
    !SameSecrets(b, s.card, b, newKey)
  }

  /** With every write a step of its own, every cut of a change of key is safe if and only if
    the change processes no second credential. */
  lemma SafeByWrites(s: Store, resets: bool, drawn: Draw, luck: Luck)
    requires StatusOf(s.fram) == BACKUP_STATUS_OK && MapFits(s.fram) && Covers(s.fram, resets) && luck.ready
    requires |RekeyIds(s.fram, 0, resets)| >= 2 ==> SecondDiffers(s, resets, DrawBytes(drawn))
    ensures
      var c := Change(ViewOf(s), s.card, DrawBytes(drawn));
      && Shaped(c.start)
      && (Always(Keep(c), s, Singly(Flatten(ChangeKeySteps(s, resets, s.card, drawn, luck))))
          <==> |RekeyIds(s.fram, 0, resets)| <= 1)
  {
    hide ApplyAll, DrawBytes, ViewOf, StatusOf, Covers, SecondDiffers;
    hide RekeyIds, MapFits, ChangeKeySteps, Flatten, Singly, Always, Keep;
    if |RekeyIds(s.fram, 0, resets)| <= 1 {
      FewAreSafe(s, resets, drawn, luck);
    } else {
      ManyAreNot(s, resets, drawn, luck);
    }
  }

  // ----- recovery -----

  /** The credentials that a recovery processes behind the one in the backup. */
  ghost function Others(c: Change, v: View): (ids: seq<nat>)
    requires Shaped(c.start) && MapFits(c.start.head)
    ensures AllFit(ids)
  {
    if v.status in {BACKUP_STATUS_CHANGE_KEY, BACKUP_STATUS_CHANGE_KEY_CHUNK_OK}
    then
      UsedFit(c.start.head, v.savedId + 1, MAXIMUM_NUMBER_OF_PWD);
      UsedFrom(c.start.head, v.savedId + 1, MAXIMUM_NUMBER_OF_PWD)
    else []
  }

  /** The first of them does not read the same under both keys as it is. */
  ghost predicate NextDiffers(c: Change, v: View)
    requires Shaped(c.start) && MapFits(c.start.head)
  {
    var ids := Others(c, v);
    ids != [] ==> !SameSecrets(c.start.blocks[ids[0]], c.oldKey, c.start.blocks[ids[0]], c.newKey)
  }

  lemma FirstOther(head: seq<bv8>, lo: nat)
    requires |head| >= OFFSET_BACKUP_STATUS && UsedFrom(head, lo, MAXIMUM_NUMBER_OF_PWD) != []
    ensures
      var j := UsedFrom(head, lo, MAXIMUM_NUMBER_OF_PWD)[0];
      lo <= j < MAXIMUM_NUMBER_OF_PWD && Used(head, j) && forall id: nat | lo <= id < j :: !Used(head, id)
  {
    var ids := UsedFrom(head, lo, MAXIMUM_NUMBER_OF_PWD);
    assert lo <= ids[0] < MAXIMUM_NUMBER_OF_PWD && Used(head, ids[0]);
    UsedAscending(head, lo, MAXIMUM_NUMBER_OF_PWD);
    hide Used, UsedFrom;
    forall id: nat | lo <= id < ids[0]
      ensures !Used(head, id)
    {
      FirstIsLeast(ids, id);
    }
  }

  lemma NextInUse(c: Change, lo: nat)
    requires Shaped(c.start) && MapFits(c.start.head) && UsedFrom(c.start.head, lo, MAXIMUM_NUMBER_OF_PWD) != []
    ensures
      var j := UsedFrom(c.start.head, lo, MAXIMUM_NUMBER_OF_PWD)[0];
      lo <= j && InUse(c, j) && forall id: nat | lo <= id < j :: !InUse(c, id)
  {
    hide Used, UsedFrom;
    var head := c.start.head;
    UsedFit(head, lo, MAXIMUM_NUMBER_OF_PWD);
    FirstOther(head, lo);
    var j := UsedFrom(head, lo, MAXIMUM_NUMBER_OF_PWD)[0];
    assert InUse(c, j);
    forall id: nat | lo <= id < j
      ensures !InUse(c, id)
    {
      assert !Used(head, id);
    }
  }

  lemma FlatEnd(steps: seq<Step>, k: Block, luck: Luck)
    requires steps == [] || steps == FinishSteps(k, luck) || steps == CardSteps(k, luck) || steps == EndSteps(k, luck)
    ensures Singly(Flatten(steps)) == steps
  {
    hide FinishSteps, CardSteps, EndSteps, Singly, Flatten, SingleSteps;
    NoneSingle();
    FinishSingle(k, luck);
    CardSingle(k, luck);
    EndSingle(k, luck);
    FlattenSingle(steps);
  }

  lemma FinishSingle(k: Block, luck: Luck)
    ensures SingleSteps(FinishSteps(k, luck))
  {
    hide Singly, ValidationWrites, FreeWrites, SingleSteps;
    SinglySingle(ValidationWrites(k, luck.random));
    SinglySingle(FreeWrites());
    SingleBoth(Singly(ValidationWrites(k, luck.random)), Singly(FreeWrites()));
  }

  /** What is left to do after a chunk: nothing but the end, or the next commit is unsafe. */
  lemma ResumeAfterChunk(c: Change, s: Store, resets: bool, luck: Luck)
    requires Shaped(c.start) && MapFits(c.start.head) && Covers(c.start.head, resets)
    requires AfterChunk(c, ViewOf(s)) && Recoverable(s.fram) && NextDiffers(c, ViewOf(s))
    requires Always(Keep(c), s, ResumeSteps(s, resets, luck))
    ensures Always(Keep(c), s, Singly(Flatten(ResumeSteps(s, resets, luck)))) <==> Others(c, ViewOf(s)) == []
  {
    PartsOf(s);
    hide RunSteps, ApplyAll, ViewOf, ChunkSteps, Used, UsedFrom, Covers, MapFits, RekeySteps, EndSteps, Flatten, Singly;
    hide Always, Keep, SameSecrets, SaveWrites, Framed, Split, SavedId, HeadOf, StatusOf, RekeyIds;
    var start, head := SavedId(s.fram) + 1, c.start.head;
    var ids := Others(c, ViewOf(s));
    SafeHead(c, s);
    SameIds(s.fram, head, start, resets);
    CoverageFrom(head, start, resets);
    LastParts(s, ids, c.oldKey, c.newKey, luck);
    if ids == [] {
      FlatEnd(EndSteps(c.newKey, luck), c.newKey, luck);
    } else {
      NextInUse(c, start);
      AfterIsReady(c, ViewOf(s), ids[0]);
      CutIsUnsafe(c, s, ids[0]);
      SaveBegins(s.fram, ids[0], BACKUP_STATUS_CHANGE_KEY);
      var rest := FirstChunk(s, ids, c.oldKey, c.newKey, luck.ivs, EndSteps(c.newKey, luck));
      NotAlways(Keep(c), s, [], SaveWrites(s.fram, ids[0], BACKUP_STATUS_CHANGE_KEY), rest, SIZE_OF_PWD_BLOCK + 2);
    }
  }

  lemma LastParts(s: Store, ids: seq<nat>, k: Block, k': Block, luck: Luck)
    requires AllFit(ids)
    ensures RekeyThenCard(s, ids, k, k', luck) == RekeySteps(s, ids, k, k', luck.ivs) + EndSteps(k', luck)
    ensures ids == [] ==> RekeyThenCard(s, ids, k, k', luck) == EndSteps(k', luck)
  {
    hide CardSteps, ChunkSteps, RunSteps;
    var rekey: seq<Step> := RekeySteps(s, ids, k, k', luck.ivs);
    var status: seq<Step> := [[StatusWrite(BACKUP_STATUS_CHANGE_KEY_UPDATE_CARD)]];
    assert rekey + status + CardSteps(k', luck) == rekey + (status + CardSteps(k', luck));
    assert ids == [] ==> rekey == [] && rekey + EndSteps(k', luck) == EndSteps(k', luck);
  }

  lemma AfterIsReady(c: Change, v: View, j: nat)
    requires Shaped(c.start) && AfterChunk(c, v) && v.savedId < j && forall id: nat | v.savedId < id < j :: !InUse(c, id)
    ensures Ready(c, v, j)
  {
    assert Ready(c, v, v.savedId + 1);
    hide Ready, InUse;
    SkipTo(c, v, v.savedId + 1, j);
  }

  lemma NotAlways(p: Store -> bool, s: Store, a: seq<Write>, b: seq<Write>, rest: seq<Write>, n: nat)
    requires n <= |b| && !p(ApplyAll(ApplyAll(s, a), b[..n]))
    ensures !Always(p, s, Singly(a + b + rest))
  {
    hide Always, ApplyAll, Singly;
    if Always(p, s, Singly(a + b + rest)) {
      CutWithin(p, s, a, b, rest, n);
      assert false;
    }
  }

  /** The writes of a chunk begin with a save. */
  lemma FirstChunk(s: Store, ids: seq<nat>, k: Block, k': Block, ivs: nat -> Draw, end: seq<Step>) returns (rest: seq<Write>)
    requires AllFit(ids) && ids != []
    ensures Flatten(RekeySteps(s, ids, k, k', ivs) + end) ==
      [] + SaveWrites(s.fram, ids[0], BACKUP_STATUS_CHANGE_KEY) + rest
    ensures ApplyAll(s, []) == s
  {
    hide ChunkSteps, RunSteps, Flatten, SaveWrites, SecretWrites;
    var chunk := ChunkSteps(s.fram, ids[0], k, k', ivs);
    var others := RekeySteps(RunSteps(s, chunk), ids[1..], k, k', ivs);
    var save := SaveWrites(s.fram, ids[0], BACKUP_STATUS_CHANGE_KEY);
    var after := SecretWrites(s.fram, ids[0], k, k', ivs) + [StatusWrite(BACKUP_STATUS_CHANGE_KEY_CHUNK_OK)];
    assert (chunk + others) + end == chunk + (others + end);
    FlattenAppend(chunk, others + end);
    ChunkFlat(s.fram, ids[0], k, k', ivs);
    rest := after + Flatten(others + end);
    assert (save + after) + Flatten(others + end) == [] + save + rest;
  }

  /** The same with a chunk to be begun again: that one may be cut anywhere. */
  lemma ResumeInChunk(c: Change, s: Store, resets: bool, luck: Luck)
    requires Shaped(c.start) && MapFits(c.start.head) && Covers(c.start.head, resets)
    requires InChunk(c, ViewOf(s)) && Recoverable(s.fram) && NextDiffers(c, ViewOf(s))
    requires Always(Keep(c), s, ResumeSteps(s, resets, luck))
    ensures Always(Keep(c), s, Singly(Flatten(ResumeSteps(s, resets, luck)))) <==> Others(c, ViewOf(s)) == []
  {
    hide RunSteps, ApplyAll, ViewOf, ChunkSteps, Used, UsedFrom, Covers, MapFits, RekeySteps, EndSteps, Flatten, Singly;
    hide Always, Keep, SameSecrets, SaveWrites, SavedId, ResumeSteps, Others, InChunk, AfterChunk, Ready, SingleSteps;
    hide Recoverable, PartialRestoreWrites;
    var i, ids := SavedId(s.fram), Others(c, ViewOf(s));
    var restore, end := Singly(PartialRestoreWrites(s.fram)), EndSteps(c.newKey, luck);
    var s1 := RunSteps(s, restore);
    ResumeParts(c, s, resets, luck);
    if ids == [] {
      assert [i] + ids == [i];
      OneRekeyed(s1, i, c.oldKey, c.newKey, luck.ivs);
      ChunkApart(c, s, restore, i, luck.ivs, end);
    } else {
      OthersFollow(c, s);
      SecondUnsafe(c, s, restore, i, ids, luck.ivs, end);
    }
  }

  /** The parts of a recovery that begins a chunk again. */
  lemma ResumeParts(c: Change, s: Store, resets: bool, luck: Luck)
    requires Shaped(c.start) && MapFits(c.start.head) && Covers(c.start.head, resets)
    requires InChunk(c, ViewOf(s)) && Recoverable(s.fram)
    ensures
      var i, ids := SavedId(s.fram), Others(c, ViewOf(s));
      var restore, end := Singly(PartialRestoreWrites(s.fram)), EndSteps(c.newKey, luck);
      var s1 := RunSteps(s, restore);
      && AllFit([i] + ids) && InUse(c, i) && Ready(c, ViewOf(s1), i) && !AfterChunk(c, ViewOf(s1))
      && SingleSteps(restore) && SingleSteps(end)
      && ResumeSteps(s, resets, luck) == restore + RekeySteps(s1, [i] + ids, c.oldKey, c.newKey, luck.ivs) + end
  {
    PartsOf(s);
    hide RunSteps, ApplyAll, ViewOf, ChunkSteps, Used, UsedFrom, Covers, MapFits, RekeySteps, EndSteps, Singly;
    hide Framed, Split, SavedId, HeadOf, StatusOf, RekeyIds, PartialRestoreWrites, SingleSteps, RekeyThenCard;
    var i, head := SavedId(s.fram), c.start.head;
    var restore, end, ids := Singly(PartialRestoreWrites(s.fram)), EndSteps(c.newKey, luck), Others(c, ViewOf(s));
    var s1 := RunSteps(s, restore);
    SafeHead(c, s);
    SameIds(s.fram, head, i, resets);
    CoverageFrom(head, i, resets);
    UsedFromStep(head, i, MAXIMUM_NUMBER_OF_PWD);
    LastParts(s1, [i] + ids, c.oldKey, c.newKey, luck);
    RestoreSafe(c, s);
    StillInChunk(c, s);
    SinglySingle(PartialRestoreWrites(s.fram));
    EndSingle(c.newKey, luck);
    var rekey := RekeySteps(s1, [i] + ids, c.oldKey, c.newKey, luck.ivs);
    assert restore + (rekey + end) == restore + rekey + end;
  }

  lemma OthersFollow(c: Change, s: Store)
    requires Shaped(c.start) && MapFits(c.start.head) && InChunk(c, ViewOf(s)) && Others(c, ViewOf(s)) != []
    ensures
      var i, j := SavedId(s.fram), Others(c, ViewOf(s))[0];
      i < j && InUse(c, j) && forall id: nat | i < id < j :: !InUse(c, id)
  {
    PartsOf(s);
    hide ViewOf, Used, UsedFrom, Framed, Split;
    NextInUse(c, SavedId(s.fram) + 1);
  }

  /** Behind a first chunk, the commit of the next credential has an unsafe cut. */
  lemma SecondUnsafe(c: Change, s: Store, begin: seq<Step>, i: nat, ids: seq<nat>, ivs: nat -> Draw, end: seq<Step>)
    requires Shaped(c.start) && AllFit([i] + ids) && ids != []
    requires Ready(c, ViewOf(RunSteps(s, begin)), i) && InUse(c, i) && InUse(c, ids[0])
    requires i < ids[0] && forall id: nat | i < id < ids[0] :: !InUse(c, id)
    requires !SameSecrets(c.start.blocks[ids[0]], c.oldKey, c.start.blocks[ids[0]], c.newKey)
    ensures
      var rekey := RekeySteps(RunSteps(s, begin), [i] + ids, c.oldKey, c.newKey, ivs);
      !Always(Keep(c), s, Singly(Flatten(begin + rekey + end)))
  {
    hide RunSteps, ApplyAll, ViewOf, ChunkSteps, Used, RekeySteps, Flatten, Singly, Always, Keep, SameSecrets, SaveWrites;
    hide AfterChunk, Ready;
    var s1 := RunSteps(s, begin);
    var chunk := ChunkSteps(s1.fram, i, c.oldKey, c.newKey, ivs);
    var t := RunSteps(s1, chunk);
    ChunkDone(c, s1, i, ids[0], ivs);
    CutIsUnsafe(c, t, ids[0]);
    SaveBegins(t.fram, ids[0], BACKUP_STATUS_CHANGE_KEY);
    var rest := SecondChunk(begin, s1, [i] + ids, c.oldKey, c.newKey, ivs, end);
    RunAppend(s, begin, chunk);
    RunIsApply(s, begin + chunk);
    NotAlways(Keep(c), s, Flatten(begin + chunk), SaveWrites(t.fram, ids[0], BACKUP_STATUS_CHANGE_KEY), rest,
      SIZE_OF_PWD_BLOCK + 2);
  }

  /** A restored block leaves the status as it is. */
  lemma StillInChunk(c: Change, s: Store)
    requires Shaped(c.start) && InChunk(c, ViewOf(s))
    ensures !AfterChunk(c, ViewOf(RunSteps(s, Singly(PartialRestoreWrites(s.fram)))))
  {
    hide RunSteps, ViewOf, Framed, Split, ApplyAll, Singly, BlockOf, SavedData, SavedId, SameOutside;
    var id, t := SavedId(s.fram), ApplyAll(s, PartialRestoreWrites(s.fram));
    PartsOf(s);
    RunSingly(s, PartialRestoreWrites(s.fram));
    WritesStayWithin(s, PartialRestoreWrites(s.fram), PwdAddr(id, 0), PwdAddr(id, SIZE_OF_PWD_BLOCK));
    ViewAfterBlock(s, t, id, 0);
  }

  /** With every write a step of its own, every cut of a recovery is safe if and only if the
    recovery is refused or processes no credential but the one whose chunk it begins again. */
  lemma RecoverySafeByWrites(c: Change, s: Store, resets: bool, luck: Luck)
    requires Shaped(c.start) && MapFits(c.start.head) && Covers(c.start.head, resets)
    requires Safe(c, ViewOf(s)) && Recoverable(s.fram) && NextDiffers(c, ViewOf(s))
    ensures Always(Keep(c), s, Singly(Flatten(RecoverSteps(s, resets, luck))))
      <==> Refused(s, luck.ready) || Others(c, ViewOf(s)) == []
  {
    hide Always, RunSteps, ViewOf, Framed, Split, ResumeSteps, CardSteps, FinishSteps, MapFits, Covers, KeyMatches;
    hide Keep, Singly, Flatten, SameSecrets, UsedFrom, Used, Recoverable;
    PartsOf(s);
    SafeStatus(c, s);
    RecoverySafe(c, s, resets, luck);
    FlatEnd([], c.newKey, luck);
    FlatEnd(CardSteps(c.newKey, luck), c.newKey, luck);
    FlatEnd(FinishSteps(c.newKey, luck), c.newKey, luck);
    if InChunk(c, ViewOf(s)) && !Refused(s, luck.ready) {
      ResumeInChunk(c, s, resets, luck);
    } else if AfterChunk(c, ViewOf(s)) && !Refused(s, luck.ready) {
      ResumeAfterChunk(c, s, resets, luck);
    }
  }

  /** A store with the credentials 0 and 1, and the pair of the key k. */
  function TwoCredentials(k: Block): Store {
    Store(seq(FRAM_BYTE_SIZE, a => if a == OFFSET_MEMORY_MAP then 3 else 0), k, k,
      Zeros(16) + Validation(k, Zeros(16)))
  }

  /** There are states in which a cut inside the commit makes recovery skip a credential. */
  lemma CutInsideCommitExists(k: Block, resets: bool, drawn: Draw, luck: Luck) returns (c: Change, t: Store)
    requires luck.ready
    ensures Shaped(c.start) && AfterChunk(c, ViewOf(t)) && MapFits(c.start.head) && KeyMatches(t.eeprom, t.card)
    ensures Ready(c, ViewOf(t), 1) && InUse(c, 1) && c.start == ViewOf(TwoCredentials(k)) && c.newKey == DrawBytes(drawn)
  {
    hide DrawBytes, ViewOf, Used, Ready, AfterChunk, ChunkSteps, Begun, BeginSteps, RunSteps, Validation, UsedFrom, HeadOf;
    var s := TwoCredentials(k);
    TwoInUse(k, resets);
    c := Change(ViewOf(s), s.card, DrawBytes(drawn));
    t := SecondIsReached(s, resets, drawn, luck);
    MapInView(s, resets);
    assert s.eeprom[..16] == Zeros(16) && s.eeprom[16..] == Validation(k, Zeros(16));
  }

  lemma TwoInUse(k: Block, resets: bool)
    ensures
      var s := TwoCredentials(k);
      && StatusOf(s.fram) == BACKUP_STATUS_OK && MapFits(s.fram) && RekeyIds(s.fram, 0, resets) == [0, 1]
  {
    hide Validation, Used, UsedFrom;
    var m, hi := TwoCredentials(k).fram, RekeyLimit(0, resets);
    forall id: nat | id < MAXIMUM_NUMBER_OF_PWD
      ensures Used(m, id) <==> id < 2
    {
      UsedIfBelowTwo(k, id);
    }
    UsedFromStep(m, 0, hi);
    UsedFromStep(m, 1, hi);
    NoneUsed(m, 2, hi);
  }

  lemma UsedIfBelowTwo(k: Block, id: nat)
    requires id < MAXIMUM_NUMBER_OF_PWD
    ensures Used(TwoCredentials(k).fram, id) <==> id < 2
  {
    hide Bit, Validation;
    ThreeHasTwo(id % 8);
  }

  lemma ThreeHasTwo(j: nat)
    requires j < 8
    ensures Bit(3, j) <==> j < 2
    ensures !Bit(0, j)
  {
  }
}
