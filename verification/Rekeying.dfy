/** Changing the master key (user_change_key in Code/src/Security/Authentification.c) and
  picking up an interrupted change (backup_recover in Code/src/Security/Backup.c), as the
  steps between which the power can be cut. */
module Rekeying {
  import opened Bytes
  import opened Aes
  import opened Memory
  import opened MemoryMap
  import opened Crash
  import opened Random
  import opened Device
  import opened Backup
  import opened Views
  import opened Encryption

  /** What the world decides: the random bytes, whether the card is there and takes part
    in the first exchange, and whether it accepts the new key. */
  datatype Luck = Luck(ivs: nat -> Draw, random: Draw, ready: bool, writes: bool)

  // ----- the steps -----

  /** From status VALIDATION on. */
  function FinishSteps(k: Block, luck: Luck): seq<Step> {
    Singly(ValidationWrites(k, luck.random)) + Singly(FreeWrites())
  }

  /** From status UPDATE_CARD on. */
  function CardSteps(k: Block, luck: Luck): seq<Step> {
    if !luck.writes then []
    else [[ToCard(k)]] + [[StatusWrite(BACKUP_STATUS_CHANGE_KEY_VALIDATION)]] + FinishSteps(k, luck)
  }

  /** From a credential on. */
  function RekeyThenCard(s: Store, ids: seq<nat>, k: Block, k': Block, luck: Luck): seq<Step>
    requires AllFit(ids)
  {
    RekeySteps(s, ids, k, k', luck.ivs) + [[StatusWrite(BACKUP_STATUS_CHANGE_KEY_UPDATE_CARD)]] + CardSteps(k', luck)
  }

  /** user_change_key: the new key is drawn before anything else. */
  function ChangeKeySteps(s: Store, resets: bool, k: Block, drawn: Draw, luck: Luck): seq<Step>
    requires MapFits(s.fram)
  {
    Singly(DrawWrites(drawn)) +
    if !luck.ready then []
    else
      var s1 := Apply(ApplyAll(s, DrawWrites(drawn)), ToCardTemp(DrawBytes(drawn)));
      [[ToCardTemp(DrawBytes(drawn))]] + RekeyThenCard(s1, RekeyIds(s.fram, 0, resets), k, DrawBytes(drawn), luck)
  }

  /** What recovery takes for granted: a status that some operation writes, the id of a
    block where it uses one, and in the middle of a change of key a map that fits. */
  predicate Recoverable(m: Image) {
    && StatusOf(m) <= BACKUP_STATUS_CHANGE_KEY_VALIDATION
    && (StatusOf(m) in {BACKUP_STATUS_UPDATE, BACKUP_STATUS_CHANGE_KEY, BACKUP_STATUS_CHANGE_KEY_CHUNK_OK} ==>
          SavedId(m) < CAPACITY)
    && (StatusOf(m) in {BACKUP_STATUS_CHANGE_KEY, BACKUP_STATUS_CHANGE_KEY_CHUNK_OK} ==> MapFits(m))
  }

  /** From status CHANGE_KEY or CHUNK_OK on. */
  function ResumeSteps(s: Store, resets: bool, luck: Luck): seq<Step>
    requires Recoverable(s.fram)
    requires StatusOf(s.fram) in {BACKUP_STATUS_CHANGE_KEY, BACKUP_STATUS_CHANGE_KEY_CHUNK_OK}
  {
    if StatusOf(s.fram) == BACKUP_STATUS_CHANGE_KEY then
      var restore := Singly(PartialRestoreWrites(s.fram));
      restore + RekeyThenCard(RunSteps(s, restore), RekeyIds(s.fram, SavedId(s.fram), resets), s.card, s.temp, luck)
    else
      RekeyThenCard(s, RekeyIds(s.fram, SavedId(s.fram) + 1, resets), s.card, s.temp, luck)
  }

  /** The card cannot be read, or the key on it does not pass where it has to. */
  predicate Refused(s: Store, ready: bool) {
    !ready || (StatusOf(s.fram) < BACKUP_STATUS_CHANGE_KEY_VALIDATION && !KeyMatches(s.eeprom, s.card))
  }

  /** backup_recover */
  function RecoverSteps(s: Store, resets: bool, luck: Luck): seq<Step>
    requires Recoverable(s.fram)
  {
    var status := StatusOf(s.fram);
    if status == BACKUP_STATUS_OK then []
    else if status == BACKUP_STATUS_UPDATE then Singly(RestoreWrites(s.fram))
    else if Refused(s, luck.ready) then []
    else if status == BACKUP_STATUS_CHANGE_KEY_VALIDATION then FinishSteps(s.temp, luck)
    else if status == BACKUP_STATUS_CHANGE_KEY_UPDATE_CARD then CardSteps(s.temp, luck)
    else ResumeSteps(s, resets, luck)
  }

  /** Power-ons one after the other, each recovery cut after some steps. */
  datatype PowerOn = PowerOn(luck: Luck, steps: nat)

  ghost function Restarted(s: Store, resets: bool, runs: seq<PowerOn>): Store
    decreases |runs|
  {
    if runs == [] || !Recoverable(s.fram) then s
    else
      var steps := RecoverSteps(s, resets, runs[0].luck);
      Restarted(RunSteps(s, if runs[0].steps <= |steps| then steps[..runs[0].steps] else steps), resets, runs[1..])
  }

  // ----- the operations -----

  /** The end of both operations, from the point where `status` says whether the card
    has the new key; returns false if the card does not accept it. */
  method UpdateCardAndFinish(w: Wallet, status: bv8, writes: bool, ghost before: Luck) returns (done: bool, ghost luck: Luck)
    requires w.Valid()
    requires status in {BACKUP_STATUS_CHANGE_KEY_UPDATE_CARD, BACKUP_STATUS_CHANGE_KEY_VALIDATION}
    modifies w.key, w.fram, w.eeprom, w`card, w`log, w`poolSize, w`ticks
    ensures w.key[..] == old(w.key[..])
    ensures luck == before.(random := luck.random, writes := writes)
    ensures done <==> status == BACKUP_STATUS_CHANGE_KEY_VALIDATION || writes
    ensures w.Since(old(w.Persistent()), old(w.log),
      Flatten(if status == BACKUP_STATUS_CHANGE_KEY_UPDATE_CARD then CardSteps(w.key[..], luck)
              else FinishSteps(w.key[..], luck)))
  {
    hide ApplyAll, ValidationWrites, FreeWrites, FinishSteps, CardSteps, Flatten;
    ghost var s, l, k := w.Persistent(), w.log, w.key[..];
    ghost var card, status': seq<Write> := [ToCard(k)], [StatusWrite(BACKUP_STATUS_CHANGE_KEY_VALIDATION)];
    ghost var ws: seq<Write> := [];
    luck := before.(writes := writes);
    NoWrites(s);
    if status == BACKUP_STATUS_CHANGE_KEY_UPDATE_CARD {
      if !writes {
        CardFlat(k, luck);
        return false, luck;
      }
      w.WriteKeyToCard(w.key);
      w.FramWriteByte(OFFSET_BACKUP_STATUS, BACKUP_STATUS_CHANGE_KEY_VALIDATION);
      w.SinceBoth(s, l, card, status');
      ws := card + status';
    }
    ghost var random := Finish(w);
    luck := luck.(random := random);
    CardFlat(k, luck);
    w.SinceBoth(s, l, ws, ValidationWrites(k, random) + FreeWrites());
    NoneBefore(ws, ValidationWrites(k, random) + FreeWrites());
    done := true;
  }

  lemma NoneBefore(ws: seq<Write>, end: seq<Write>)
    ensures ws == [] ==> ws + end == end
  {
  }

  /** The end of both operations, from status VALIDATION on. */
  method Finish(w: Wallet) returns (ghost random: Draw)
    requires w.Valid()
    modifies w.key, w.fram, w.eeprom, w`log, w`poolSize, w`ticks
    ensures w.key[..] == old(w.key[..])
    ensures w.Since(old(w.Persistent()), old(w.log), ValidationWrites(w.key[..], random) + FreeWrites())
  {
    hide ApplyAll, ValidationWrites, FreeWrites;
    ghost var s, l := w.Persistent(), w.log;
    random := UpdateValidation(w);
    BackupFree(w);
    w.SinceBoth(s, l, ValidationWrites(w.key[..], random), FreeWrites());
  }

  lemma FinishFlat(k: Block, luck: Luck)
    ensures Flatten(FinishSteps(k, luck)) == ValidationWrites(k, luck.random) + FreeWrites()
  {
    hide Singly, Flatten, ValidationWrites, FreeWrites;
    FlattenAppend(Singly(ValidationWrites(k, luck.random)), Singly(FreeWrites()));
    FlattenSingly(ValidationWrites(k, luck.random));
    FlattenSingly(FreeWrites());
  }

  lemma CardFlat(k: Block, luck: Luck)
    ensures Flatten(FinishSteps(k, luck)) == ValidationWrites(k, luck.random) + FreeWrites()
    ensures Flatten(CardSteps(k, luck)) ==
      if !luck.writes then []
      else [ToCard(k)] + [StatusWrite(BACKUP_STATUS_CHANGE_KEY_VALIDATION)] + (ValidationWrites(k, luck.random) + FreeWrites())
  {
    hide ValidationWrites, FreeWrites, FinishSteps;
    FinishFlat(k, luck);
    if luck.writes {
      var a, b := [[ToCard(k)]], [[StatusWrite(BACKUP_STATUS_CHANGE_KEY_VALIDATION)]];
      FlattenAppend(a + b, FinishSteps(k, luck));
      FlattenAppend(a, b);
      FlattenOne(a[0]);
      FlattenOne(b[0]);
    }
  }

  lemma RekeyThenCardFlat(s: Store, ids: seq<nat>, k: Block, k': Block, luck: Luck)
    requires AllFit(ids)
    ensures Flatten(RekeyThenCard(s, ids, k, k', luck)) ==
      Flatten(RekeySteps(s, ids, k, k', luck.ivs)) + [StatusWrite(BACKUP_STATUS_CHANGE_KEY_UPDATE_CARD)]
      + Flatten(CardSteps(k', luck))
  {
    hide RekeySteps, CardSteps, Flatten;
    var rekey, status := RekeySteps(s, ids, k, k', luck.ivs), [[StatusWrite(BACKUP_STATUS_CHANGE_KEY_UPDATE_CARD)]];
    FlattenAppend(rekey + status, CardSteps(k', luck));
    FlattenAppend(rekey, status);
    FlattenOne(status[0]);
  }

  /** encryption_update_key followed by the end of both operations. */
  method UpdateKeyAndFinish(w: Wallet, newKey: array<bv8>, start: nat, resets: bool, writes: bool, ghost before: Luck)
    returns (done: bool, ghost luck: Luck)
    requires w.Valid() && newKey.Length == 16 && newKey !in {w.fram, w.eeprom, w.key}
    requires start < 8 * 256 && MapFits(w.fram[..])
    modifies newKey, w.key, w.fram, w.eeprom, w`card, w`log, w`poolSize, w`ticks
    ensures w.key[..] == old(newKey[..]) && (done <==> writes)
    ensures luck == before.(ivs := luck.ivs, random := luck.random, writes := writes)
    ensures w.Since(old(w.Persistent()), old(w.log),
      Flatten(RekeyThenCard(old(w.Persistent()), RekeyIds(old(w.fram[..]), start, resets),
        old(w.key[..]), old(newKey[..]), luck)))
  {
    hide ApplyAll, RekeySteps, CardSteps, FinishSteps, RekeyThenCard, RekeyIds, MapFits, Flatten;
    ghost var s, l, k, k' := w.Persistent(), w.log, w.key[..], newKey[..];
    ghost var ids, status := RekeyIds(s.fram, start, resets), [StatusWrite(BACKUP_STATUS_CHANGE_KEY_UPDATE_CARD)];
    ghost var ivs := UpdateKey(w, newKey, start, resets);
    ghost var rekey := Flatten(RekeySteps(s, ids, k, k', ivs));
    w.FramWriteByte(OFFSET_BACKUP_STATUS, BACKUP_STATUS_CHANGE_KEY_UPDATE_CARD);
    w.SinceBoth(s, l, rekey, status);
    done, luck := UpdateCardAndFinish(w, BACKUP_STATUS_CHANGE_KEY_UPDATE_CARD, writes, before.(ivs := ivs));
    w.SinceBoth(s, l, rekey + status, Flatten(CardSteps(k', luck)));
    RekeyThenCardFlat(s, ids, k, k', luck);
  }

  /** user_change_key, after the confirmation. */
  method UserChangeKey(w: Wallet, resets: bool, ready: bool, writes: bool)
    returns (done: bool, ghost drawn: Draw, ghost luck: Luck)
    requires w.Valid() && MapFits(w.fram[..])
    modifies w.key, w.fram, w.eeprom, w`card, w`temp, w`log, w`poolSize, w`ticks
    ensures luck.ready == ready && luck.writes == writes
    ensures done <==> ready && writes
    ensures !ready ==> SameOutside(old(w.Persistent()), w.Persistent(), 0, 0)
    ensures w.key[..] == if ready then DrawBytes(drawn) else old(w.key[..])
    ensures w.Since(old(w.Persistent()), old(w.log),
      Flatten(ChangeKeySteps(old(w.Persistent()), resets, old(w.key[..]), drawn, luck)))
  {
    hide ApplyAll, RekeyThenCard, RekeyIds, MapFits, DrawWrites, DrawBytes, Flatten, Singly, HeadOf, SameOutside;
    ghost var s, l, k := w.Persistent(), w.log, w.key[..];
    luck := Luck(_ => seq(16, _ => Drawn(0, [])), seq(16, _ => Drawn(0, [])), ready, writes);
    var newKey;
    newKey, drawn := w.DrawBlock();
    ghost var k', ws := DrawBytes(drawn), DrawWrites(drawn);
    DrawKeepsMap(s, drawn, resets);
    FlattenSingly(ws);
    OnlyPool(s, drawn);
    if !ready {
      assert Singly(ws) + [] == Singly(ws);
      return false, drawn, luck;
    }
    w.WriteTempKeyToCard(newKey);
    w.SinceBoth(s, l, ws, [ToCardTemp(k')]);
    ghost var s1 := Apply(ApplyAll(s, ws), ToCardTemp(k'));
    ApplyOne(ApplyAll(s, ws), ToCardTemp(k'));
    ApplyAppend(s, ws, [ToCardTemp(k')]);
    done, luck := UpdateKeyAndFinish(w, newKey, 0, resets, writes, luck);
    ghost var rest := RekeyThenCard(s1, RekeyIds(s.fram, 0, resets), k, k', luck);
    w.SinceBoth(s, l, ws + [ToCardTemp(k')], Flatten(rest));
    FlattenAppend(Singly(ws), [[ToCardTemp(k')]] + rest);
    FlattenAppend([[ToCardTemp(k')]], rest);
    FlattenOne([ToCardTemp(k')]);
    assert ws + [ToCardTemp(k')] + Flatten(rest) == ws + ([ToCardTemp(k')] + Flatten(rest));
  }

  /** Drawing leaves the memory map alone. */
  lemma DrawKeepsMap(s: Store, d: Draw, resets: bool)
    ensures
      var t := ApplyAll(s, DrawWrites(d));
      && HeadOf(t.fram) == HeadOf(s.fram) && MapFits(t.fram) == MapFits(s.fram)
      && RekeyIds(t.fram, 0, resets) == RekeyIds(s.fram, 0, resets)
  {
    hide ApplyAll, DrawWrites, HeadOf, UsedFrom;
    var t := ApplyAll(s, DrawWrites(d));
    OnlyPool(s, d);
    HeadKept(s, t, 0, 0);
    SameMapFits(s.fram, t.fram);
    SameUsed(s.fram, t.fram, 0, RekeyLimit(0, resets));
  }

  lemma SameMapFits(m: seq<bv8>, m': seq<bv8>)
    requires |m| >= OFFSET_BACKUP_STATUS && |m'| >= OFFSET_BACKUP_STATUS && HeadOf(m) == HeadOf(m')
    ensures MapFits(m) == MapFits(m')
  {
    hide HeadOf, Used;
    UsedInHead(m, CAPACITY);
    UsedInHead(m', CAPACITY);
  }

  /** A restored block leaves the memory map alone. */
  lemma RestoreKeepsMap(s: Store, start: nat, resets: bool)
    requires SavedId(s.fram) < CAPACITY
    ensures
      var t := ApplyAll(s, PartialRestoreWrites(s.fram));
      && HeadOf(t.fram) == HeadOf(s.fram)
      && RekeyIds(t.fram, start, resets) == RekeyIds(s.fram, start, resets)
      && MapFits(t.fram) == MapFits(s.fram)
  {
    hide ApplyAll, UsedFrom, HeadOf;
    var id := SavedId(s.fram);
    var t := ApplyAll(s, PartialRestoreWrites(s.fram));
    WritesStayWithin(s, PartialRestoreWrites(s.fram), PwdAddr(id, 0), PwdAddr(id, SIZE_OF_PWD_BLOCK));
    HeadKept(s, t, PwdAddr(id, 0), PwdAddr(id, SIZE_OF_PWD_BLOCK));
    SameUsed(s.fram, t.fram, start, RekeyLimit(start, resets));
    SameMapFits(s.fram, t.fram);
  }

  /** The branch of backup_recover for statuses CHANGE_KEY and CHUNK_OK. */
  method Resume(w: Wallet, newKey: array<bv8>, resets: bool, writes: bool, ghost before: Luck) returns (ghost luck: Luck)
    requires w.Valid() && newKey.Length == 16 && newKey !in {w.fram, w.eeprom, w.key}
    requires Recoverable(w.fram[..]) && w.key[..] == w.card && newKey[..] == w.temp
    requires StatusOf(w.fram[..]) in {BACKUP_STATUS_CHANGE_KEY, BACKUP_STATUS_CHANGE_KEY_CHUNK_OK}
    modifies newKey, w.key, w.fram, w.eeprom, w`card, w`log, w`poolSize, w`ticks
    ensures w.key[..] == old(newKey[..])
    ensures luck == before.(ivs := luck.ivs, random := luck.random, writes := writes)
    ensures w.Since(old(w.Persistent()), old(w.log), Flatten(ResumeSteps(old(w.Persistent()), resets, luck)))
  {
    hide ApplyAll, RekeyThenCard, RekeyIds, MapFits, PartialRestoreWrites, Flatten, Singly, RunSteps, HeadOf, SameOutside;
    hide BlockOf, SavedData, ToNat, IdOf;
    ghost var s, l := w.Persistent(), w.log;
    var id := w.ReadId(OFFSET_BACKUP_ID);
    var done;
    if w.fram[OFFSET_BACKUP_STATUS] == BACKUP_STATUS_CHANGE_KEY {
      ghost var restore := PartialRestoreWrites(s.fram);
      RestoreKeepsMap(s, id, resets);
      RunSingly(s, restore);
      BackupPartialRestore(w);
      ghost var s1 := w.Persistent();
      done, luck := UpdateKeyAndFinish(w, newKey, id, resets, writes, before);
      ghost var rest := RekeyThenCard(s1, RekeyIds(s.fram, id, resets), s.card, s.temp, luck);
      FlattenAppend(Singly(restore), rest);
      FlattenSingly(restore);
      w.SinceBoth(s, l, restore, Flatten(rest));
    } else {
      done, luck := UpdateKeyAndFinish(w, newKey, id + 1, resets, writes, before);
    }
  }

  /** backup_recover: an interrupted edit is undone, whatever the card does; nothing is
    written with nothing to recover or a card that is refused. */
  method BackupRecover(w: Wallet, resets: bool, ready: bool, writes: bool) returns (ghost luck: Luck)
    requires w.Valid() && Recoverable(w.fram[..])
    modifies w.key, w.fram, w.eeprom, w`card, w`log, w`poolSize, w`ticks
    ensures luck.ready == ready && luck.writes == writes
    ensures old(StatusOf(w.fram[..])) == BACKUP_STATUS_UPDATE ==>
      && StatusOf(w.fram[..]) == BACKUP_STATUS_OK
      && BlockOf(w.fram[..], old(SavedId(w.fram[..]))) == old(SavedData(w.fram[..]))
      && OnlyEdited(old(w.Persistent()), old(SavedId(w.fram[..])), w.Persistent())
    ensures old(StatusOf(w.fram[..])) == BACKUP_STATUS_OK ==> w.log == old(w.log) && w.Persistent() == old(w.Persistent())
    ensures old(StatusOf(w.fram[..])) !in {BACKUP_STATUS_OK, BACKUP_STATUS_UPDATE} && old(Refused(w.Persistent(), ready)) ==>
      w.log == old(w.log) && w.Persistent() == old(w.Persistent())
    ensures w.Since(old(w.Persistent()), old(w.log), Flatten(RecoverSteps(old(w.Persistent()), resets, luck)))
    ensures w.key[..] ==
      if old(StatusOf(w.fram[..])) in {BACKUP_STATUS_OK, BACKUP_STATUS_UPDATE} || !ready then old(w.key[..])
      else if old(Refused(w.Persistent(), ready)) then old(w.card)
      else old(w.temp)
  {
    hide ApplyAll, KeyMatches, CardSteps, FinishSteps, ResumeSteps, RestoreWrites, MapFits, Singly, Flatten, OnlyEdited;
    ghost var s := w.Persistent();
    luck := Luck(_ => seq(16, _ => Drawn(0, [])), seq(16, _ => Drawn(0, [])), ready, writes);
    NoWrites(s);
    NothingFlat();
    var backupStatus := w.fram[OFFSET_BACKUP_STATUS];
    if backupStatus == BACKUP_STATUS_OK {
      return;
    }
    if backupStatus == BACKUP_STATUS_UPDATE {
      BackupRestore(w);
      FlattenSingly(RestoreWrites(s.fram));
      return;
    }
    if !ready {
      return;
    }
    var temp, card := w.temp, w.card;
    var newKey := new bv8[16](i requires 0 <= i < 16 => temp[i]);
    var lastKey := new bv8[16](i requires 0 <= i < 16 => card[i]);
    assert newKey[..] == w.temp && lastKey[..] == w.card;
    CopyKey(lastKey, w.key);
    if backupStatus < BACKUP_STATUS_CHANGE_KEY_VALIDATION {
      var ok := CheckKey(w);
      if !ok {
        return;
      }
    }
    if backupStatus == BACKUP_STATUS_CHANGE_KEY || backupStatus == BACKUP_STATUS_CHANGE_KEY_CHUNK_OK {
      luck := Resume(w, newKey, resets, writes, luck);
    } else {
      CopyKey(newKey, w.key);
      var done;
      done, luck := UpdateCardAndFinish(w, backupStatus, writes, luck);
    }
  }

  lemma NothingFlat()
    ensures Flatten([]) == []
  {
  }
}
