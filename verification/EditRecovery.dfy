/** Edits of one credential under power cuts: whatever power-ons do in between, and wherever
  their recoveries are cut, the first recovery that runs to its end leaves the credential
  as it was or as edited. */
module EditRecovery {
  import opened Aes
  import opened Cbc
  import opened Memory
  import opened Crash
  import opened Random
  import opened Device
  import opened Backup
  import opened Edits
  import opened Rekeying

  /** What one power-on does in a phase, itself cut after some steps: it undoes an edit that
    is pending, and nothing else. */
  lemma PowerOnPhases(s0: Store, id: nat, b: seq<bv8>, s: Store, phase: Phase, resets: bool, luck: Luck, steps: nat)
    returns (after: Phase)
    requires id < CAPACITY && InPhase(s0, id, b, s, phase)
    ensures Recoverable(s.fram)
    ensures
      var all := RecoverSteps(s, resets, luck);
      && InPhase(s0, id, b, RunSteps(s, if steps <= |all| then all[..steps] else all), after)
      && (steps >= |all| ==> after != Pending)
    ensures after == Committed <==> phase == Committed
  {
    RecoveryIsRestore(s0, id, b, s, phase, resets, luck);
    hide InPhase, RestoreWrites, ApplyAll, RecoverSteps, Singly, Recoverable;
    var ws := RestoreWrites(s.fram);
    var k := if steps <= |ws| then steps else |ws|;
    RestoreLength(s0, id, b, s, phase);
    RecoveryPhases(s0, id, b, s, phase, k);
    SinglyPrefix(ws, k);
    RunSingly(s, ws[..k]);
    after := if phase == Pending && k > SIZE_OF_PWD_BLOCK then Untouched else phase;
  }

  lemma SinglyPrefix(ws: seq<Write>, k: nat)
    requires k <= |ws|
    ensures Singly(ws)[..k] == Singly(ws[..k]) && Singly(ws)[..|ws|] == Singly(ws)
  {
  }

  /** In every phase of an edit the steps of backup_recover are those of backup_restore. */
  lemma RecoveryIsRestore(s0: Store, id: nat, b: seq<bv8>, s: Store, phase: Phase, resets: bool, luck: Luck)
    requires id < CAPACITY && InPhase(s0, id, b, s, phase)
    ensures Recoverable(s.fram) && RecoverSteps(s, resets, luck) == Singly(RestoreWrites(s.fram))
  {
    hide OnlyEdited, BlockOf, SavedId, SavedData, PartialRestoreWrites, FreeWrites;
  }

  lemma {:induction false} PowerOnsKeepPhase(s0: Store, id: nat, b: seq<bv8>, s: Store, phase: Phase, resets: bool,
                                             runs: seq<PowerOn>) returns (after: Phase)
    requires id < CAPACITY && InPhase(s0, id, b, s, phase)
    ensures InPhase(s0, id, b, Restarted(s, resets, runs), after)
    ensures after == Committed <==> phase == Committed
    decreases |runs|
  {
    if runs == [] {
      after := phase;
    } else {
      hide InPhase, RecoverSteps, RunSteps;
      var all := RecoverSteps(s, resets, runs[0].luck);
      var between := PowerOnPhases(s0, id, b, s, phase, resets, runs[0].luck, runs[0].steps);
      var s1 := RunSteps(s, if runs[0].steps <= |all| then all[..runs[0].steps] else all);
      after := PowerOnsKeepPhase(s0, id, b, s1, between, resets, runs[1..]);
    }
  }

  /** An edit cut after any write, then any number of power-ons with recoveries cut anywhere,
    then one that is not cut: nothing outside the block has changed, no backup is pending,
    and the block is wholly old or wholly new. It is new exactly if the edit got as far as
    freeing the backup. What the card does plays no part. */
  lemma EditIsAtomic(s: Store, id: nat, ws: seq<Write>, cut: nat, resets: bool, runs: seq<PowerOn>, last: Luck)
    requires id < CAPACITY && StatusOf(s.fram) == BACKUP_STATUS_OK
    requires Within(ws, PwdAddr(id, 0), PwdAddr(id, SIZE_OF_PWD_BLOCK))
    requires cut <= |EditWrites(s.fram, id, ws)|
    ensures
      var left := Restarted(ApplyAll(s, EditWrites(s.fram, id, ws)[..cut]), resets, runs);
      && Recoverable(left.fram)
      && var end := RunSteps(left, RecoverSteps(left, resets, last));
         && OnlyEdited(s, id, end) && StatusOf(end.fram) == BACKUP_STATUS_OK
         && BlockOf(end.fram, id) ==
              if cut > SIZE_OF_PWD_BLOCK + 3 + |ws| then EditedBlock(s, id, ws) else BlockOf(s.fram, id)
  {
    hide RecoverSteps, RunSteps, ApplyAll, OnlyEdited, BlockOf, SavedData, SavedId, EditedBlock, EditWrites, Restarted;
    var b := EditedBlock(s, id, ws);
    EditPhases(s, id, ws, cut);
    var saved := SIZE_OF_PWD_BLOCK + 3;
    var phase := if cut < saved then Untouched else if cut <= saved + |ws| then Pending else Committed;
    var s1 := ApplyAll(s, EditWrites(s.fram, id, ws)[..cut]);
    var left := Restarted(s1, resets, runs);
    var between := PowerOnsKeepPhase(s, id, b, s1, phase, resets, runs);
    RecoveryIsRestore(s, id, b, left, between, resets, last);
    var after := PowerOnPhases(s, id, b, left, between, resets, last, |RecoverSteps(left, resets, last)|);
    assert RecoverSteps(left, resets, last)[..|RecoverSteps(left, resets, last)|] == RecoverSteps(left, resets, last);
  }

  // ----- the texts -----

  /** The three edits: a password or a user name that was typed, and a password that was drawn. */
  datatype Edit = TypedPwd(text: seq<bv8>) | TypedUsr(text: seq<bv8>) | DrawnPwd(draws: seq<Drawn>)

  /** Texts have the size of their fields. */
  predicate Fits(e: Edit) {
    match e
    case TypedPwd(text) => |text| == 32
    case TypedUsr(text) => |text| == 64
    case DrawnPwd(draws) => |Printable(draws)| == 32
  }

  function OwnWrites(e: Edit, id: nat, k: Block, iv: Draw): seq<Write> {
    match e
    case TypedPwd(text) => DataWrites(id, text, k, iv)
    case TypedUsr(text) => UsrWrites(id, text, k, iv)
    case DrawnPwd(draws) => RegenerateWrites(id, draws, k, iv)
  }

  /** What the new text reads as. */
  function NewText(e: Edit): seq<bv8> {
    match e
    case TypedPwd(text) => Strip(text)
    case TypedUsr(text) => Strip(text)
    case DrawnPwd(draws) => Printable(draws)
  }

  /** The new text if `edited`, else everything as it was; links, counter, name and the other
    text as they were either way. */
  ghost predicate ReadsAs(m0: Image, m: Image, id: nat, e: Edit, k: Block, edited: bool)
    requires id < CAPACITY
  {
    && BlockOf(m, id)[..PWD_OFFSET_PWD_IV] == BlockOf(m0, id)[..PWD_OFFSET_PWD_IV]
    && DataOf(m, id, k) == (if edited && !e.TypedUsr? then NewText(e) else DataOf(m0, id, k))
    && UsrOf(m, id, k) == (if edited && e.TypedUsr? then NewText(e) else UsrOf(m0, id, k))
  }

  lemma EditReads(s: Store, id: nat, e: Edit, k: Block, iv: Draw)
    requires id < CAPACITY && Fits(e)
    ensures
      var ws := OwnWrites(e, id, k, iv);
      && Within(ws, PwdAddr(id, 0), PwdAddr(id, SIZE_OF_PWD_BLOCK))
      && ReadsAs(s.fram, ApplyAll(s, EditWrites(s.fram, id, ws)).fram, id, e, k, true)
  {
    hide ApplyAll, EditWrites, BlockOf, DataOf, UsrOf, DataWrites, UsrWrites, RegenerateWrites, Strip, Printable, Within;
    match e
    case TypedPwd(text) => DataEdited(s, id, text, k, iv);
    case TypedUsr(text) => UsrEdited(s, id, text, k, iv);
    case DrawnPwd(draws) => RegeneratedEdit(s, id, draws, k, iv);
  }

  /** Blocks that are equal read the same. */
  lemma SameBlockReads(m0: Image, m: Image, m': Image, id: nat, e: Edit, k: Block, edited: bool)
    requires id < CAPACITY && BlockOf(m', id) == BlockOf(m, id) && ReadsAs(m0, m, id, e, k, edited)
    ensures ReadsAs(m0, m', id, e, k, edited)
  {
    hide BlockOf, TextIn, NewText;
  }

  lemma OldReads(m0: Image, id: nat, e: Edit, k: Block)
    requires id < CAPACITY
    ensures ReadsAs(m0, m0, id, e, k, false)
  {
  }

  /** So after a cut edit the text reads, once a recovery has run to its end, as typed or
    drawn or as it was, which depends on where the edit was cut only. */
  lemma TextIsAtomic(s: Store, id: nat, e: Edit, k: Block, iv: Draw, cut: nat, resets: bool, runs: seq<PowerOn>, last: Luck)
    requires id < CAPACITY && Fits(e) && StatusOf(s.fram) == BACKUP_STATUS_OK
    requires cut <= |EditWrites(s.fram, id, OwnWrites(e, id, k, iv))|
    ensures
      var ws := OwnWrites(e, id, k, iv);
      var left := Restarted(ApplyAll(s, EditWrites(s.fram, id, ws)[..cut]), resets, runs);
      && Recoverable(left.fram)
      && var end := RunSteps(left, RecoverSteps(left, resets, last));
         && OnlyEdited(s, id, end) && StatusOf(end.fram) == BACKUP_STATUS_OK
         && ReadsAs(s.fram, end.fram, id, e, k, cut > SIZE_OF_PWD_BLOCK + 3 + |ws|)
  {
    hide *;
    var ws := OwnWrites(e, id, k, iv);
    EditReads(s, id, e, k, iv);
    EditIsAtomic(s, id, ws, cut, resets, runs, last);
    var left := Restarted(ApplyAll(s, EditWrites(s.fram, id, ws)[..cut]), resets, runs);
    var end := RunSteps(left, RecoverSteps(left, resets, last));
    if cut > SIZE_OF_PWD_BLOCK + 3 + |ws| {
      WholeEdit(s, id, ws);
      SameBlockReads(s.fram, ApplyAll(s, EditWrites(s.fram, id, ws)).fram, end.fram, id, e, k, true);
    } else {
      OldReads(s.fram, id, e, k);
      SameBlockReads(s.fram, s.fram, end.fram, id, e, k, false);
    }
  }
}
