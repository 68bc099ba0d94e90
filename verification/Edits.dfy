/** The single-credential edits of Code/src/Options/Options_Callback_Password.c. What the
  user typed is a parameter. */
module Edits {
  import opened Bytes
  import opened Aes
  import opened Cbc
  import opened Memory
  import opened Crash
  import opened Random
  import opened Device
  import opened Backup
  import opened Views

  /** opt_callback_change_pwd: the log is that of an edit under the backup, and afterwards the
    password reads as typed and the user name as before. */
  method ChangePwd(w: Wallet, id: nat, text: array<bv8>) returns (ghost iv: Draw)
    requires w.Valid() && id < CAPACITY && text.Length == 32
    requires text !in {w.fram, w.eeprom, w.key}
    modifies text, w.key, w.fram, w`log, w`poolSize, w`ticks
    ensures w.key[..] == old(w.key[..])
    ensures w.Since(old(w.Persistent()), old(w.log),
      EditWrites(old(w.fram[..]), id, DataWrites(id, old(text[..]), w.key[..], iv)))
    ensures DataOf(w.fram[..], id, w.key[..]) == Strip(old(text[..]))
    ensures UsrOf(w.fram[..], id, w.key[..]) == old(UsrOf(w.fram[..], id, w.key[..]))
    ensures OnlyEdited(old(w.Persistent()), id, w.Persistent()) && StatusOf(w.fram[..]) == BACKUP_STATUS_OK
    ensures BlockOf(w.fram[..], id)[..PWD_OFFSET_PWD_IV] == BlockOf(old(w.fram[..]), id)[..PWD_OFFSET_PWD_IV]
  {
    hide ApplyAll, SaveWrites, FreeWrites, DataWrites, DataOf, UsrOf, Strip, OnlyEdited, BlockOf, SameOutside, SavedData, SavedId;
    ghost var s, l := w.Persistent(), w.log;
    ghost var save := SaveWrites(s.fram, id, BACKUP_STATUS_UPDATE);
    BackupSave(w, id, BACKUP_STATUS_UPDATE);
    iv := w.SetData(id, text, w.key);
    ghost var ws := DataWrites(id, old(text[..]), w.key[..], iv);
    w.SinceBoth(s, l, save, ws);
    BackupFree(w);
    w.SinceBoth(s, l, save + ws, FreeWrites());
    DataEdited(s, id, old(text[..]), w.key[..], iv);
  }

  /** opt_callback_change_usr_name */
  method ChangeUsrName(w: Wallet, id: nat, text: array<bv8>) returns (ghost iv: Draw)
    requires w.Valid() && id < CAPACITY && text.Length == 64
    requires text !in {w.fram, w.eeprom, w.key}
    modifies text, w.key, w.fram, w`log, w`poolSize, w`ticks
    ensures w.key[..] == old(w.key[..])
    ensures w.Since(old(w.Persistent()), old(w.log),
      EditWrites(old(w.fram[..]), id, UsrWrites(id, old(text[..]), w.key[..], iv)))
    ensures UsrOf(w.fram[..], id, w.key[..]) == Strip(old(text[..]))
    ensures DataOf(w.fram[..], id, w.key[..]) == old(DataOf(w.fram[..], id, w.key[..]))
    ensures OnlyEdited(old(w.Persistent()), id, w.Persistent()) && StatusOf(w.fram[..]) == BACKUP_STATUS_OK
    ensures BlockOf(w.fram[..], id)[..PWD_OFFSET_PWD_IV] == BlockOf(old(w.fram[..]), id)[..PWD_OFFSET_PWD_IV]
  {
    hide ApplyAll, SaveWrites, FreeWrites, UsrWrites, DataOf, UsrOf, Strip, OnlyEdited, BlockOf, SameOutside, SavedData, SavedId;
    ghost var s, l := w.Persistent(), w.log;
    ghost var save := SaveWrites(s.fram, id, BACKUP_STATUS_UPDATE);
    BackupSave(w, id, BACKUP_STATUS_UPDATE);
    iv := w.SetUsrName(id, text, w.key);
    ghost var ws := UsrWrites(id, old(text[..]), w.key[..], iv);
    w.SinceBoth(s, l, save, ws);
    BackupFree(w);
    w.SinceBoth(s, l, save + ws, FreeWrites());
    UsrEdited(s, id, old(text[..]), w.key[..], iv);
  }

  lemma DataEdited(s: Store, id: nat, text: seq<bv8>, k: Block, iv: Draw)
    requires id < CAPACITY && |text| == 32
    ensures
      var ws := DataWrites(id, text, k, iv);
      var t := ApplyAll(s, EditWrites(s.fram, id, ws));
      && Within(ws, PwdAddr(id, 0), PwdAddr(id, SIZE_OF_PWD_BLOCK))
      && OnlyEdited(s, id, t) && StatusOf(t.fram) == BACKUP_STATUS_OK
      && BlockOf(t.fram, id)[..PWD_OFFSET_PWD_IV] == BlockOf(s.fram, id)[..PWD_OFFSET_PWD_IV]
      && DataOf(t.fram, id, k) == Strip(text) && UsrOf(t.fram, id, k) == UsrOf(s.fram, id, k)
  {
    hide TextWrites, DrawBytes, ApplyAll, SaveWrites, FreeWrites, TextIn, WithText, Strip, OnlyEdited, BlockOf;
    var s1 := ApplyAll(s, SaveWrites(s.fram, id, BACKUP_STATUS_UPDATE));
    TextWritten(s1, id, PWD_OFFSET_PWD_IV, PWD_OFFSET_PWD_DATA, text, k, iv);
    EditEnds(s, id, DataWrites(id, text, k, iv));
    var bytes := DrawBytes(iv);
    WithTextKeepsFront(BlockOf(s.fram, id), PWD_OFFSET_PWD_IV, PWD_OFFSET_PWD_DATA, text, k, bytes, PWD_OFFSET_PWD_IV);
    CredentialRoundTrip(BlockOf(s.fram, id), PWD_OFFSET_PWD_IV, PWD_OFFSET_PWD_DATA, text, k, bytes);
    OtherTextKept(BlockOf(s.fram, id), PWD_OFFSET_PWD_IV, PWD_OFFSET_PWD_DATA, text, k, bytes,
      PWD_OFFSET_USR_IV, PWD_OFFSET_USR_NAME, 64, k);
  }

  lemma UsrEdited(s: Store, id: nat, text: seq<bv8>, k: Block, iv: Draw)
    requires id < CAPACITY && |text| == 64
    ensures
      var ws := UsrWrites(id, text, k, iv);
      var t := ApplyAll(s, EditWrites(s.fram, id, ws));
      && Within(ws, PwdAddr(id, 0), PwdAddr(id, SIZE_OF_PWD_BLOCK))
      && OnlyEdited(s, id, t) && StatusOf(t.fram) == BACKUP_STATUS_OK
      && BlockOf(t.fram, id)[..PWD_OFFSET_PWD_IV] == BlockOf(s.fram, id)[..PWD_OFFSET_PWD_IV]
      && UsrOf(t.fram, id, k) == Strip(text) && DataOf(t.fram, id, k) == DataOf(s.fram, id, k)
  {
    hide TextWrites, DrawBytes, ApplyAll, SaveWrites, FreeWrites, TextIn, WithText, Strip, OnlyEdited, BlockOf;
    var s1 := ApplyAll(s, SaveWrites(s.fram, id, BACKUP_STATUS_UPDATE));
    TextWritten(s1, id, PWD_OFFSET_USR_IV, PWD_OFFSET_USR_NAME, text, k, iv);
    EditEnds(s, id, UsrWrites(id, text, k, iv));
    var bytes := DrawBytes(iv);
    WithTextKeepsFront(BlockOf(s.fram, id), PWD_OFFSET_USR_IV, PWD_OFFSET_USR_NAME, text, k, bytes, PWD_OFFSET_PWD_IV);
    CredentialRoundTrip(BlockOf(s.fram, id), PWD_OFFSET_USR_IV, PWD_OFFSET_USR_NAME, text, k, bytes);
    OtherTextKept(BlockOf(s.fram, id), PWD_OFFSET_USR_IV, PWD_OFFSET_USR_NAME, text, k, bytes,
      PWD_OFFSET_PWD_IV, PWD_OFFSET_PWD_DATA, 32, k);
  }

  /** What an uninterrupted edit leaves in the block: what its own writes make of it. */
  lemma EditEnds(s: Store, id: nat, ws: seq<Write>)
    requires id < CAPACITY && Within(ws, PwdAddr(id, 0), PwdAddr(id, SIZE_OF_PWD_BLOCK))
    ensures
      var s1 := ApplyAll(s, SaveWrites(s.fram, id, BACKUP_STATUS_UPDATE));
      var t := ApplyAll(s, EditWrites(s.fram, id, ws));
      && BlockOf(s1.fram, id) == BlockOf(s.fram, id)
      && OnlyEdited(s, id, t) && StatusOf(t.fram) == BACKUP_STATUS_OK
      && BlockOf(t.fram, id) == BlockOf(ApplyAll(s1, ws).fram, id)
  {
    var save, all := SaveWrites(s.fram, id, BACKUP_STATUS_UPDATE), EditWrites(s.fram, id, ws);
    assert |all| == 2 * (SIZE_OF_PWD_BLOCK + 3) + |ws|;
    hide SaveWrites, FreeWrites, ApplyAll, OnlyEdited, BlockOf, EditWrites, SavedData, SavedId;
    assert all[..|all|] == all;
    EditPhases(s, id, ws, |all|);
    ApplyAppend(s, save, ws);
    SaveCompletes(s, id, BACKUP_STATUS_UPDATE);
    BackupAreaApart(s, ApplyAll(s, save), id);
  }

  /** The last writes of an edit leave the block as its own writes have made it. */
  lemma WholeEdit(s: Store, id: nat, ws: seq<Write>)
    requires id < CAPACITY && Within(ws, PwdAddr(id, 0), PwdAddr(id, SIZE_OF_PWD_BLOCK))
    ensures BlockOf(ApplyAll(s, EditWrites(s.fram, id, ws)).fram, id) == EditedBlock(s, id, ws)
  {
    var all := EditWrites(s.fram, id, ws);
    assert |all| == 2 * (SIZE_OF_PWD_BLOCK + 3) + |ws|;
    hide ApplyAll, OnlyEdited, BlockOf, EditWrites, EditedBlock, SavedData, SavedId;
    assert all[..|all|] == all;
    EditPhases(s, id, ws, |all|);
  }

  // ----- a random password -----

  /** random_request_printable: bytes are drawn until half of one is below 94. */
  predicate Accepted(random: bv8) {
    random / 2 < 94
  }

  /** The printable bytes that come out of some draws. */
  function Printable(draws: seq<Drawn>): (text: seq<bv8>)
    ensures forall i: nat | i < |text| :: text[i] >= 32
  {
    if draws == [] then []
    else (if Accepted(draws[0].byte) then [draws[0].byte / 2 + 32] else []) + Printable(draws[1..])
  }

  /** The next byte that is drawn gives half of it plus 32 if that half is below 94, else nothing. */
  lemma {:induction false} PrintableGrows(draws: seq<Drawn>, r: Drawn)
    ensures ToNat(r.byte) / 2 >= 94 ==> Printable(draws + [r]) == Printable(draws)
    ensures ToNat(r.byte) / 2 < 94 ==>
      exists c: bv8 :: ToNat(c) == ToNat(r.byte) / 2 + 32 && Printable(draws + [r]) == Printable(draws) + [c]
    decreases |draws|
  {
    HalfOfByte(r.byte);
    hide ToNat;
    if draws == [] {
      assert draws + [r] == [r] && [r][1..] == [];
    } else {
      assert (draws + [r])[1..] == draws[1..] + [r];
      PrintableGrows(draws[1..], r);
    }
  }

  lemma HalfOfByte(b: bv8)
    ensures Accepted(b) <==> ToNat(b) / 2 < 94
    ensures Accepted(b) ==> ToNat(b / 2 + 32) == ToNat(b) / 2 + 32
  {
  }

  /** password_regenerate, when `draws` have given 32 printable bytes: all draws, then the text. */
  function RegenerateWrites(id: nat, draws: seq<Drawn>, k: Block, iv: Draw): seq<Write> {
    DrawWrites(draws) + DataWrites(id, Printable(draws), k, iv)
  }

  lemma RegeneratedEdit(s: Store, id: nat, draws: seq<Drawn>, k: Block, iv: Draw)
    requires id < CAPACITY && |Printable(draws)| == 32
    ensures
      var ws := RegenerateWrites(id, draws, k, iv);
      var t := ApplyAll(s, EditWrites(s.fram, id, ws));
      && Within(ws, PwdAddr(id, 0), PwdAddr(id, SIZE_OF_PWD_BLOCK))
      && BlockOf(t.fram, id)[..PWD_OFFSET_PWD_IV] == BlockOf(s.fram, id)[..PWD_OFFSET_PWD_IV]
      && DataOf(t.fram, id, k) == Printable(draws) && UsrOf(t.fram, id, k) == UsrOf(s.fram, id, k)
  {
    hide TextWrites, DrawBytes, DrawWrites, ApplyAll, SaveWrites, FreeWrites, TextIn, WithText, Strip, OnlyEdited, BlockOf;
    hide Printable, Within, EditWrites, SameOutside;
    var text, bytes, di, d := Printable(draws), DrawBytes(iv), PWD_OFFSET_PWD_IV, PWD_OFFSET_PWD_DATA;
    var data := DataWrites(id, text, k, iv);
    var s1 := ApplyAll(s, SaveWrites(s.fram, id, BACKUP_STATUS_UPDATE));
    var s2 := ApplyAll(s1, DrawWrites(draws));
    DrawsWithin(draws, PwdAddr(id, 0), PwdAddr(id, SIZE_OF_PWD_BLOCK));
    DrawsApart(s1, draws, id);
    TextWritten(s2, id, di, d, text, k, iv);
    WithinWider(data, PwdAddr(id, di), PwdAddr(id, 0), PwdAddr(id, SIZE_OF_PWD_BLOCK));
    WithinAppend(DrawWrites(draws), data, PwdAddr(id, 0), PwdAddr(id, SIZE_OF_PWD_BLOCK));
    ApplyAppend(s1, DrawWrites(draws), data);
    EditEnds(s, id, RegenerateWrites(id, draws, k, iv));
    var b := BlockOf(s.fram, id);
    WithTextKeepsFront(b, di, d, text, k, bytes, di);
    CredentialRoundTrip(b, di, d, text, k, bytes);
    OtherTextKept(b, di, d, text, k, bytes, PWD_OFFSET_USR_IV, PWD_OFFSET_USR_NAME, 64, k);
    PrintableIsText(draws);
  }

  lemma PrintableIsText(draws: seq<Drawn>)
    ensures Strip(Printable(draws)) == Printable(draws)
  {
    var text := Printable(draws);
    hide Printable, Strip;
    assert IsTextOf(text, |text|);
    StripIsText(text);
  }

  lemma WithinWider(ws: seq<Write>, lo: nat, lo': nat, hi: nat)
    requires Within(ws, lo, hi) && lo' <= lo
    ensures Within(ws, lo', hi)
  {
  }
}
