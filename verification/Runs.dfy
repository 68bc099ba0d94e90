/** Whole runs: from a zeroed FRAM, every sequence of operations has the effects that the
  operations promise one by one, and memory map, counter and both lists agree all along;
  they also agree after every power cut. */
module Runs {
  import opened Aes
  import opened Cbc
  import opened Memory
  import opened Crash
  import opened Random
  import opened Device
  import opened Backup
  import opened Views
  import opened Edits
  import opened EditRecovery
  import opened Encryption
  import opened Rekeying
  import opened RekeyingLimits
  import opened RekeyingFronts
  import opened Index
  import opened Sorting
  import opened Links
  import opened ListSort
  import opened Consistency
  import opened Navigation
  import opened PasswordList
  import opened Operations

  /** What a user can do; texts and the sorting mode come with it. A change of the master
    key comes with whether its loop resets its counter, whether the card is ready, and whether
    it accepts the new key. Gather is what the device does by itself: moving a random number
    to the entropy pool. */
  datatype Op =
    | Add(name: seq<bv8>, data: seq<bv8>, usr: seq<bv8>)
    | Delete(mode: Mode)
    | Rename(name: seq<bv8>)
    | Send
    | ChangeData(text: seq<bv8>)
    | ChangeUsr(text: seq<bv8>)
    | ChangeKey(resets: bool, ready: bool, writes: bool)
    | GoBack(mode: Mode)
    | GoOn(mode: Mode)
    | Gather

  /** When the card does not accept the new key, the device stops until it is restarted. */
  predicate Stops(op: Op) {
    op.ChangeKey? && op.ready && !op.writes
  }

  /** Texts have the size of their fields, and names end within it. */
  predicate Fitting(op: Op) {
    && (op.Add? || op.Rename? ==> |op.name| == 32 && Terminated(op.name))
    && (op.Add? ==> |op.data| == 32 && |op.usr| == 64)
    && (op.ChangeData? ==> |op.text| == 32)
    && (op.ChangeUsr? ==> |op.text| == 64)
  }

  /** Memory map, counter in FRAM and in RAM, both lists and the current id agree. */
  ghost predicate Sound(w: Wallet, use: seq<nat>, alpha: seq<nat>)
    requires w.Valid()
    reads w, w.fram
  {
    && w.numPwd == |use| && (if use == [] then w.current == 0 else w.current in use)
    && Consistent(w.fram[..], use, alpha)
  }

  // ----- what the operations do -----

  /** A store between two operations: FRAM, master key, current id, and the two lists read off it. */
  datatype Snapshot = Snapshot(fram: Image, key: Block, current: nat, use: seq<nat>, alpha: seq<nat>)

  ghost function Seen(w: Wallet, use: seq<nat>, alpha: seq<nat>): Snapshot
    requires w.Valid()
    reads w, w.fram, w.key
  {
    Snapshot(w.fram[..], w.key[..], w.current, use, alpha)
  }

  /** A credential is added under some free id, or the store is full and nothing happens. */
  ghost predicate Adds(a: Snapshot, op: Op, b: Snapshot)
    requires op.Add?
  {
    if |a.use| >= CAPACITY then b == a
    else
      && |b.use| == |a.use| + 1 && b.current == a.current && b.key == a.key
      && var id := b.use[|a.use|];
         && IsAdded(a.fram, b.fram, a.use, a.alpha, id, op.name, op.data, op.usr, a.key)
         && b.use == a.use + [id] && b.alpha == Insert(KeysOf(IndexOf(b.fram), ByName), a.alpha, id)
  }

  /** The current credential goes; the one before it in the order of the mode is the next current one. */
  ghost predicate Deletes(a: Snapshot, mode: Mode, b: Snapshot) {
    && IsDeleted(a.fram, b.fram, a.use, a.alpha, a.current) && b.key == a.key
    && b.use == Removed(a.use, a.current) && b.alpha == Removed(a.alpha, a.current)
    && if b.use == [] then b.current == 0 else IsPrevious(a.fram, mode, a.use, a.alpha, a.current, b.current)
  }

  /** The entry of the current credential becomes `e`, and one list is sorted again. */
  ghost predicate Reorders(a: Snapshot, o: Order, e: Entry, b: Snapshot) {
    && IsReordered(a.fram, b.fram, o, a.use, a.alpha, a.current, e)
    && b.current == a.current && b.key == a.key && (b.use, b.alpha) == SortedAgain(b.fram, o, a.use, a.alpha)
  }

  /** Both lists, the one of order `o` sorted by the keys in the image. */
  ghost function SortedAgain(m: Image, o: Order, use: seq<nat>, alpha: seq<nat>): (seq<nat>, seq<nat>) {
    var keys := KeysOf(IndexOf(m), o);
    if !Keyed(keys, ListOf(o, use, alpha)) then (use, alpha)
    else
      var sorted := ISort(keys, ListOf(o, use, alpha));
      (ListOf(o, sorted, use), ListOf(o, alpha, sorted))
  }

  /** Password or user name of the current credential is replaced, and nothing else but
    backup area and entropy pool. */
  ghost predicate Replaces(a: Snapshot, usr: bool, text: seq<bv8>, b: Snapshot) {
    && b == a.(fram := b.fram) && a.current < CAPACITY && StatusOf(b.fram) == BACKUP_STATUS_OK
    && DataOf(b.fram, a.current, a.key) == (if usr then DataOf(a.fram, a.current, a.key) else Strip(text))
    && UsrOf(b.fram, a.current, a.key) == (if usr then Strip(text) else UsrOf(a.fram, a.current, a.key))
    && BlockOf(b.fram, a.current)[..PWD_OFFSET_PWD_IV] == BlockOf(a.fram, a.current)[..PWD_OFFSET_PWD_IV]
    && forall x: nat | x < FRAM_BYTE_SIZE && !InPool(x) && !(OFFSET_BACKUP_STATUS <= x < OFFSET_FIRST_PWD)
         && !(PwdAddr(a.current, 0) <= x < PwdAddr(a.current, SIZE_OF_PWD_BLOCK)) :: b.fram[x] == a.fram[x]
  }

  ghost predicate OnlyGathers(a: Snapshot, b: Snapshot) {
    b == a.(fram := b.fram) && forall x: nat | x < FRAM_BYTE_SIZE && !InPool(x) :: b.fram[x] == a.fram[x]
  }

  /** The credentials that the loop reaches read under the new key as under the old one,
    the others are as they were, and so are both lists, the counter and the memory map. If the
    card does not accept the new key, the status says so. */
  ghost predicate Rekeys(a: Snapshot, resets: bool, ready: bool, writes: bool, b: Snapshot) {
    if !ready then OnlyGathers(a, b)
    else
      && b == a.(fram := b.fram, key := b.key) && HeadOf(b.fram) == HeadOf(a.fram)
      && StatusOf(b.fram) == (if writes then BACKUP_STATUS_OK else BACKUP_STATUS_CHANGE_KEY_UPDATE_CARD)
      && forall id: nat | id < CAPACITY ::
           if Used(a.fram, id) && (resets || id < 8)
           then SameSecrets(BlockOf(a.fram, id), a.key, BlockOf(b.fram, id), b.key)
           else BlockOf(b.fram, id) == BlockOf(a.fram, id)
  }

  ghost predicate Moves(a: Snapshot, mode: Mode, on: bool, b: Snapshot) {
    var l := OrderOf(a.fram, mode, a.use, a.alpha);
    && b == a.(current := b.current) && a.current in l
    && b.current == if on then NextIn(l, a.current) else PrevIn(l, a.current)
  }

  /** An empty store allows adding and changing the key only. */
  predicate Allowed(op: Op, use: seq<nat>) {
    use != [] || op.Add? || op.ChangeKey? || op.Gather?
  }

  /** What an operation does. */
  ghost predicate Effect(a: Snapshot, op: Op, b: Snapshot) {
    if !Allowed(op, a.use) then b == a
    else
      match op
      case Add(_, _, _) => Adds(a, op, b)
      case Delete(mode) => Deletes(a, mode, b)
      case Rename(name) =>
        && a.current < CAPACITY && Reorders(a, ByName, Renamed(a.fram, a.current, name), b)
        && var e, e' := EntryAt(IndexOf(a.fram), a.current), EntryAt(IndexOf(b.fram), a.current);
           e'.name == name && e'.count == e.count && e'.secret == e.secret
      case Send =>
        && a.current < CAPACITY && Reorders(a, ByUse, UsedOnceMore(a.fram, a.current), b)
        && var e, e' := EntryAt(IndexOf(a.fram), a.current), EntryAt(IndexOf(b.fram), a.current);
           && e'.count == (if e.count == 65535 then 0 else e.count + 1)
           && e'.name == e.name && e'.secret == e.secret
      case ChangeData(text) => Replaces(a, false, text, b)
      case ChangeUsr(text) => Replaces(a, true, text, b)
      case ChangeKey(resets, ready, writes) => Rekeys(a, resets, ready, writes, b)
      case GoBack(mode) => Moves(a, mode, false, b)
      case GoOn(mode) => Moves(a, mode, true, b)
      case Gather => OnlyGathers(a, b)
  }

  // ----- the operations one by one -----

  method Buffer(s: seq<bv8>) returns (a: array<bv8>)
    ensures fresh(a) && a[..] == s
  {
    a := new bv8[|s|](i requires 0 <= i < |s| => s[i]);
  }

  method PerformAdd(w: Wallet, op: Op, ghost use: seq<nat>, ghost alpha: seq<nat>)
    returns (ghost use': seq<nat>, ghost alpha': seq<nat>)
    requires w.Valid() && op.Add? && Fitting(op) && Sound(w, use, alpha)
    modifies w.key, w.fram, w`log, w`numPwd, w`poolSize, w`ticks
    ensures Sound(w, use', alpha')
    ensures Adds(old(Seen(w, use, alpha)), op, Seen(w, use', alpha'))
  {
    hide Consistent, IsAdded, Terminated, IndexOf, KeysOf, Insert;
    ghost var m, k := w.fram[..], w.key[..];
    var a := Buffer(op.name);
    var b := Buffer(op.data);
    var c := Buffer(op.usr);
    var ok, id := OptAddPwd(w, a, b, c, use, alpha);
    use', alpha' := use, alpha;
    if ok {
      use', alpha' := AfterAdd(m, w.fram[..], use, alpha, id, op.name, op.data, op.usr, k);
      assert use'[|use|] == id;
    }
  }

  method PerformDelete(w: Wallet, mode: Mode, ghost use: seq<nat>, ghost alpha: seq<nat>)
    returns (ghost use': seq<nat>, ghost alpha': seq<nat>)
    requires w.Valid() && w.numPwd != 0 && Sound(w, use, alpha)
    modifies w.fram, w`log, w`numPwd, w`current
    ensures Sound(w, use', alpha') && Deletes(old(Seen(w, use, alpha)), mode, Seen(w, use', alpha'))
  {
    hide Consistent, IsDeleted, IsPrevious, Removed;
    ghost var m, id := w.fram[..], w.current;
    OptDeletePwd(w, mode, use, alpha);
    use', alpha' := Removed(use, id), Removed(alpha, id);
    AfterDelete(m, w.fram[..], use, alpha, id);
  }

  method PerformRename(w: Wallet, name: seq<bv8>, ghost use: seq<nat>, ghost alpha: seq<nat>)
    returns (ghost use': seq<nat>, ghost alpha': seq<nat>)
    requires w.Valid() && w.numPwd != 0 && |name| == 32 && Terminated(name) && Sound(w, use, alpha)
    modifies w.fram, w`log
    ensures Sound(w, use', alpha') && w.current < CAPACITY
    ensures Reorders(old(Seen(w, use, alpha)), ByName, Renamed(old(w.fram[..]), w.current, name), Seen(w, use', alpha'))
    ensures
      var e, e' := EntryAt(IndexOf(old(w.fram[..])), w.current), EntryAt(IndexOf(w.fram[..]), w.current);
      e'.name == name && e'.count == e.count && e'.secret == e.secret
  {
    hide Consistent, IsReordered, Terminated, Renamed, SortedAgain, IndexOf;
    ghost var m := w.fram[..];
    var a := Buffer(name);
    OptChangeName(w, a, use, alpha);
    use', alpha' := AfterReorder(m, w.fram[..], ByName, use, alpha, w.current, Renamed(m, w.current, name));
  }

  method PerformSend(w: Wallet, ghost use: seq<nat>, ghost alpha: seq<nat>)
    returns (ghost use': seq<nat>, ghost alpha': seq<nat>)
    requires w.Valid() && w.numPwd != 0 && Sound(w, use, alpha)
    modifies w.key, w.fram, w`log
    ensures Sound(w, use', alpha') && w.current < CAPACITY
    ensures Reorders(old(Seen(w, use, alpha)), ByUse, UsedOnceMore(old(w.fram[..]), w.current), Seen(w, use', alpha'))
    ensures
      var e, e' := EntryAt(IndexOf(old(w.fram[..])), w.current), EntryAt(IndexOf(w.fram[..]), w.current);
      && e'.count == (if e.count == 65535 then 0 else e.count + 1)
      && e'.name == e.name && e'.secret == e.secret
  {
    hide Consistent, IsReordered, DataOf, CStr, UsedOnceMore, SortedAgain, IndexOf;
    ghost var m := w.fram[..];
    var _ := OptSendPwd(w, use, alpha);
    use', alpha' := AfterReorder(m, w.fram[..], ByUse, use, alpha, w.current, UsedOnceMore(m, w.current));
  }

  method PerformEdit(w: Wallet, usr: bool, text: seq<bv8>, ghost use: seq<nat>, ghost alpha: seq<nat>)
    requires w.Valid() && w.numPwd != 0 && |text| == (if usr then 64 else 32) && Sound(w, use, alpha)
    modifies w.key, w.fram, w`log, w`poolSize, w`ticks
    ensures Sound(w, use, alpha)
    ensures Replaces(old(Seen(w, use, alpha)), usr, text, Seen(w, use, alpha))
  {
    hide Consistent, DataOf, UsrOf, EditWrites, BlockOf, Strip, ApplyAll, OnlyEdited, Replaces, DataWrites, UsrWrites;
    ghost var s, k := w.Persistent(), w.key[..];
    CurrentFits(w.fram[..], use, alpha, w.current);
    var a := Buffer(text);
    if usr {
      ghost var _ := ChangeUsrName(w, w.current, a);
    } else {
      ghost var _ := ChangePwd(w, w.current, a);
    }
    EditKeepsConsistent(s, w.Persistent(), w.current, use, alpha);
    EditReplaces(s, w.Persistent(), Snapshot(s.fram, k, w.current, use, alpha), usr, text);
  }

  lemma EditReplaces(s: Store, t: Store, a: Snapshot, usr: bool, text: seq<bv8>)
    requires a.current < CAPACITY && a.fram == s.fram && OnlyEdited(s, a.current, t) && StatusOf(t.fram) == BACKUP_STATUS_OK
    requires DataOf(t.fram, a.current, a.key) == (if usr then DataOf(s.fram, a.current, a.key) else Strip(text))
    requires UsrOf(t.fram, a.current, a.key) == (if usr then Strip(text) else UsrOf(s.fram, a.current, a.key))
    requires BlockOf(t.fram, a.current)[..PWD_OFFSET_PWD_IV] == BlockOf(s.fram, a.current)[..PWD_OFFSET_PWD_IV]
    ensures Replaces(a, usr, text, a.(fram := t.fram))
  {
    hide DataOf, UsrOf, BlockOf, Strip;
  }

  method PerformMove(w: Wallet, mode: Mode, on: bool, ghost use: seq<nat>, ghost alpha: seq<nat>)
    requires w.Valid() && w.numPwd != 0 && Sound(w, use, alpha)
    modifies w`current
    ensures Sound(w, use, alpha) && Moves(old(Seen(w, use, alpha)), mode, on, Seen(w, use, alpha))
  {
    hide Consistent, OrderOf, NextIn, PrevIn;
    var id;
    if on {
      id := NextPwdId(w, mode, w.current, use, alpha);
      NeighboursIn(OrderOf(w.fram[..], mode, use, alpha), w.current);
    } else {
      id := PrevPwdId(w, mode, w.current, use, alpha);
      NeighboursIn(OrderOf(w.fram[..], mode, use, alpha), w.current);
    }
    OrderMember(w.fram[..], mode, use, alpha, id);
    w.current := id;
  }

  lemma NeighboursIn(l: seq<nat>, id: nat)
    requires id in l
    ensures NextIn(l, id) in l && PrevIn(l, id) in l
  {
  }

  method PerformGather(w: Wallet, ghost use: seq<nat>, ghost alpha: seq<nat>)
    requires w.Valid() && Sound(w, use, alpha)
    modifies w.fram, w`log, w`poolSize, w`ticks
    ensures Sound(w, use, alpha) && OnlyGathers(old(Seen(w, use, alpha)), Seen(w, use, alpha))
  {
    hide Consistent, ApplyAll, PoolWrites;
    ghost var s := w.Persistent();
    ghost var pool := w.RandomSaveEntropy();
    PooledWithin(s, pool);
    GatheringKeepsConsistent(s, w.Persistent(), use, alpha);
  }

  lemma PooledWithin(s: Store, pool: seq<PoolWrite>)
    ensures SameOutside(s, ApplyAll(s, PoolWrites(pool)), 0, 0)
  {
    assert Within(PoolWrites(pool), 0, 0);
    hide ApplyAll;
    WritesStayWithin(s, PoolWrites(pool), 0, 0);
  }

  lemma GatheringKeepsConsistent(s: Store, t: Store, use: seq<nat>, alpha: seq<nat>)
    requires Consistent(s.fram, use, alpha) && SameOutside(s, t, 0, 0)
    ensures Consistent(t.fram, use, alpha)
  {
    hide Consistent, BlockOf, HeadOf, SameOutside, WithPool, PoolOf;
    PoolChanged(s, t);
    HeadKept(s, t, 0, 0);
    forall id: nat | id < CAPACITY
      ensures BlockOf(t.fram, id) == BlockOf(s.fram, id)
    {
      PoolApart(s.fram, PoolOf(t.fram), id);
    }
    FrontsKeepConsistent(s.fram, t.fram, use, alpha);
  }

  method PerformChangeKey(w: Wallet, resets: bool, ready: bool, writes: bool, ghost use: seq<nat>, ghost alpha: seq<nat>)
    requires w.Valid() && Sound(w, use, alpha)
    modifies w.key, w.fram, w.eeprom, w`card, w`temp, w`log, w`poolSize, w`ticks
    ensures Sound(w, use, alpha)
    ensures Rekeys(old(Seen(w, use, alpha)), resets, ready, writes, Seen(w, use, alpha))
  {
    hide Consistent, ApplyAll, ChangeKeySteps, Flatten, DrawBytes, Used, HeadOf, BlockOf, SameSecrets, Rekeys, DrawWrites;
    ghost var s, k := w.Persistent(), w.key[..];
    ConsistentFits(w.fram[..], use, alpha);
    var done;
    ghost var drawn, luck;
    done, drawn, luck := UserChangeKey(w, resets, ready, writes);
    RunIsApply(s, ChangeKeySteps(s, resets, k, drawn, luck));
    ghost var a, b := Snapshot(s.fram, k, w.current, use, alpha), Seen(w, use, alpha);
    KeyChanged(s, w.Persistent(), resets, drawn, luck, a, b);
    RekeyingKeepsConsistent(a, resets, ready, writes, b);
  }

  lemma KeyChanged(s: Store, t: Store, resets: bool, drawn: Draw, luck: Luck, a: Snapshot, b: Snapshot)
    requires MapFits(s.fram) && a.fram == s.fram && b == a.(fram := t.fram, key := b.key)
    requires t == RunSteps(s, ChangeKeySteps(s, resets, a.key, drawn, luck))
    requires b.key == if luck.ready then DrawBytes(drawn) else a.key
    ensures Rekeys(a, resets, luck.ready, luck.writes, b)
  {
    hide RunSteps, BlockOf, SameSecrets, RekeyThenCard, DrawWrites, DrawBytes, HeadOf, Used, MapFits, RekeyIds;
    if luck.ready {
      forall id: nat | id < CAPACITY
        ensures HeadOf(t.fram) == HeadOf(s.fram)
        ensures
          if Used(s.fram, id) && (resets || id < 8)
          then SameSecrets(BlockOf(s.fram, id), a.key, BlockOf(t.fram, id), b.key)
          else BlockOf(t.fram, id) == BlockOf(s.fram, id)
      {
        ChangeOutcome(s, resets, a.key, drawn, luck, id);
      }
      ChangeOutcome(s, resets, a.key, drawn, luck, 0);
    } else {
      var ws := DrawWrites(drawn);
      assert Singly(ws) + [] == Singly(ws);
      RunSingly(s, ws);
      OnlyPool(s, drawn);
    }
  }

  lemma RekeyingKeepsConsistent(a: Snapshot, resets: bool, ready: bool, writes: bool, b: Snapshot)
    requires Rekeys(a, resets, ready, writes, b) && Consistent(a.fram, a.use, a.alpha)
    ensures Consistent(b.fram, b.use, b.alpha)
  {
    hide Consistent, HeadOf, Used;
    if ready {
      FrontsKeepConsistent(a.fram, b.fram, a.use, a.alpha);
    } else {
      SameHead(a.fram, b.fram);
      forall id: nat | id < CAPACITY
        ensures BlockOf(b.fram, id) == BlockOf(a.fram, id)
      {
      }
      hide BlockOf;
      FrontsKeepConsistent(a.fram, b.fram, a.use, a.alpha);
    }
  }

  // ----- one after the other -----

  /** One operation. */
  method Perform(w: Wallet, op: Op, ghost use: seq<nat>, ghost alpha: seq<nat>)
    returns (ghost use': seq<nat>, ghost alpha': seq<nat>)
    requires w.Valid() && Fitting(op) && Sound(w, use, alpha)
    modifies w, w.key, w.fram, w.eeprom
    ensures Sound(w, use', alpha')
    ensures Effect(old(Seen(w, use, alpha)), op, Seen(w, use', alpha'))
  {
    hide Consistent, Terminated, Adds, Deletes, Reorders, Replaces, Moves, Renamed, UsedOnceMore, Rekeys, OnlyGathers, IndexOf;
    use', alpha' := use, alpha;
    if w.numPwd == 0 && !(op.Add? || op.ChangeKey? || op.Gather?) {
      return;
    }
    match op
    case Add(_, _, _) =>
      use', alpha' := PerformAdd(w, op, use, alpha);
    case Delete(mode) =>
      use', alpha' := PerformDelete(w, mode, use, alpha);
    case Rename(name) =>
      use', alpha' := PerformRename(w, name, use, alpha);
    case Send =>
      use', alpha' := PerformSend(w, use, alpha);
    case ChangeData(text) =>
      PerformEdit(w, false, text, use, alpha);
    case ChangeUsr(text) =>
      PerformEdit(w, true, text, use, alpha);
    case ChangeKey(resets, ready, writes) =>
      PerformChangeKey(w, resets, ready, writes, use, alpha);
    case GoBack(mode) =>
      PerformMove(w, mode, false, use, alpha);
    case GoOn(mode) =>
      PerformMove(w, mode, true, use, alpha);
    case Gather =>
      PerformGather(w, use, alpha);
  }

  lemma AfterAdd(m: Image, m': Image, use: seq<nat>, alpha: seq<nat>, id: nat,
                 name: seq<bv8>, data: seq<bv8>, usr: seq<bv8>, k: Block) returns (use': seq<nat>, alpha': seq<nat>)
    requires IsAdded(m, m', use, alpha, id, name, data, usr, k)
    ensures Keyed(KeysOf(IndexOf(m'), ByName), alpha) && id < CAPACITY == |KeysOf(IndexOf(m'), ByName)|
    ensures use' == use + [id] && alpha' == Insert(KeysOf(IndexOf(m'), ByName), alpha, id)
    ensures Consistent(m', use', alpha') && (use == [] ==> id == 0)
  {
    hide Consistent, IndexOf, OthersKept, Insert, FirstFree, DataOf, UsrOf;
    use' := use + [id];
    alpha' := Insert(KeysOf(IndexOf(m'), ByName), alpha, id);
  }

  lemma AfterDelete(m: Image, m': Image, use: seq<nat>, alpha: seq<nat>, id: nat)
    requires IsDeleted(m, m', use, alpha, id)
    ensures Consistent(m', Removed(use, id), Removed(alpha, id))
  {
    hide Consistent;
  }

  lemma AfterReorder(m: Image, m': Image, o: Order, use: seq<nat>, alpha: seq<nat>, id: nat, e: Entry)
    returns (use': seq<nat>, alpha': seq<nat>)
    requires IsReordered(m, m', o, use, alpha, id, e)
    ensures (use', alpha') == SortedAgain(m', o, use, alpha)
    ensures Consistent(m', use', alpha') && |use'| == |use| && forall i | i in use :: i in use'
  {
    hide Consistent, IndexOf, OthersKept, KeysOf, Keyed, ISort, Sorted;
    var keys := KeysOf(IndexOf(m'), o);
    var sorted := ISort(keys, ListOf(o, use, alpha));
    use', alpha' := ListOf(o, sorted, use), ListOf(o, alpha, sorted);
    SortIsStable(keys, ListOf(o, use, alpha));
    forall i | i in use
      ensures i in use'
    {
      SameMembers(ListOf(o, use, alpha), sorted, i);
    }
  }

  /** Between two operations no backup is pending, as long as no card has stopped the device. */
  lemma NothingPending(a: Snapshot, op: Op, b: Snapshot)
    requires Effect(a, op, b) && StatusOf(a.fram) == BACKUP_STATUS_OK && !Stops(op)
    ensures StatusOf(b.fram) == BACKUP_STATUS_OK
  {
    hide Consistent, FirstFree, Keyed, DataOf, UsrOf, SameSecrets, BlockOf, HeadOf, KeysOf, Insert, ISort, IndexOf;
    if IndexOf(b.fram).backup == IndexOf(a.fram).backup {
      SameBackup(a.fram, b.fram);
    }
  }

  lemma SameBackup(m: Image, m': Image)
    requires IndexOf(m').backup == IndexOf(m).backup
    ensures StatusOf(m') == StatusOf(m)
  {
    assert IndexOf(m).backup[0] == StatusOf(m) && IndexOf(m').backup[0] == StatusOf(m');
  }

  /** The states that a sequence of operations goes through, each the effect of its operation
    on the one before, and all of them consistent, with no backup pending. */
  ghost predicate IsHistory(ops: seq<Op>, states: seq<Snapshot>) {
    && |states| == |ops| + 1
    && (forall i: nat | i < |states| :: i == 0 || !Stops(ops[i - 1]) ==> StatusOf(states[i].fram) == BACKUP_STATUS_OK)
    && (forall i: nat | i < |states| :: Consistent(states[i].fram, states[i].use, states[i].alpha))
    && (forall i: nat | i < |ops| :: Effect(states[i], ops[i], states[i + 1]))
  }

  lemma HistoryGrows(ops: seq<Op>, states: seq<Snapshot>, op: Op, b: Snapshot)
    requires IsHistory(ops, states) && (ops != [] ==> !Stops(ops[|ops| - 1]))
    requires Effect(states[|ops|], op, b) && Consistent(b.fram, b.use, b.alpha)
    ensures IsHistory(ops + [op], states + [b])
  {
    hide Effect, Consistent, StatusOf, Stops;
    if !Stops(op) {
      NothingPending(states[|ops|], op, b);
    }
  }

  lemma HistoryBegins(a: Snapshot)
    requires Consistent(a.fram, a.use, a.alpha) && StatusOf(a.fram) == BACKUP_STATUS_OK
    ensures IsHistory([], [a])
  {
    hide Consistent;
  }

  /** From a zeroed FRAM, every sequence of operations does what each of them says and keeps
    everything in agreement. */
  method Run(w: Wallet, ops: seq<Op>) returns (ghost use: seq<nat>, ghost alpha: seq<nat>, ghost states: seq<Snapshot>)
    requires w.Valid() && w.numPwd == 0 && w.current == 0
    requires forall a: nat | a < FRAM_BYTE_SIZE :: w.fram[a] == 0
    requires forall i: nat | i < |ops| :: Fitting(ops[i]) && (i + 1 < |ops| ==> !Stops(ops[i]))
    modifies w, w.key, w.fram, w.eeprom
    ensures Sound(w, use, alpha) && IsHistory(ops, states)
    ensures states[0] == old(Seen(w, [], [])) && states[|ops|] == Seen(w, use, alpha)
  {
    hide Consistent, Fitting, Effect, Stops, IsHistory;
    ZeroedIsConsistent(w.fram[..]);
    use, alpha := [], [];
    states := [Seen(w, use, alpha)];
    HistoryBegins(states[0]);
    assert ops[..0] == [];
    for i := 0 to |ops|
      invariant Sound(w, use, alpha) && |states| == i + 1
      invariant states[0] == old(Seen(w, [], [])) && states[i] == Seen(w, use, alpha)
      invariant IsHistory(ops[..i], states)
    {
      use, alpha := Perform(w, ops[i], use, alpha);
      HistoryGrows(ops[..i], states, ops[i], Seen(w, use, alpha));
      states := states + [Seen(w, use, alpha)];
      assert ops[..i + 1] == ops[..i] + [ops[i]];
    }
    assert ops[..|ops|] == ops;
  }

  // ----- and cut anywhere -----

  /** Wherever an edit and its recoveries have been cut, memory map, counter and both lists
    agree once a recovery has run to its end. */
  lemma CutEditKeepsConsistent(s: Store, id: nat, e: Edit, k: Block, iv: Draw, cut: nat, resets: bool, runs: seq<PowerOn>,
                               last: Luck, use: seq<nat>, alpha: seq<nat>)
    requires Consistent(s.fram, use, alpha) && id < CAPACITY && Fits(e) && StatusOf(s.fram) == BACKUP_STATUS_OK
    requires cut <= |EditWrites(s.fram, id, OwnWrites(e, id, k, iv))|
    ensures
      var left := Restarted(ApplyAll(s, EditWrites(s.fram, id, OwnWrites(e, id, k, iv))[..cut]), resets, runs);
      Recoverable(left.fram) && Consistent(RunSteps(left, RecoverSteps(left, resets, last)).fram, use, alpha)
  {
    hide *;
    TextIsAtomic(s, id, e, k, iv, cut, resets, runs, last);
    var left := Restarted(ApplyAll(s, EditWrites(s.fram, id, OwnWrites(e, id, k, iv))[..cut]), resets, runs);
    ReadsFront(s.fram, RunSteps(left, RecoverSteps(left, resets, last)).fram, id, e, k,
      cut > SIZE_OF_PWD_BLOCK + 3 + |OwnWrites(e, id, k, iv)|);
    EditKeepsConsistent(s, RunSteps(left, RecoverSteps(left, resets, last)), id, use, alpha);
  }

  lemma ReadsFront(m0: Image, m: Image, id: nat, e: Edit, k: Block, edited: bool)
    requires id < CAPACITY && ReadsAs(m0, m, id, e, k, edited)
    ensures BlockOf(m, id)[..PWD_OFFSET_PWD_IV] == BlockOf(m0, id)[..PWD_OFFSET_PWD_IV]
  {
    hide BlockOf, DataOf, UsrOf;
  }

  /** Wherever a change of key and its recoveries have been cut, with the loop as written or
    as intended, memory map, counter and both lists agree. */
  lemma CutChangeKeepsConsistent(s: Store, resets: bool, key: Block, drawn: Draw, luck: Luck, k: nat, runs: seq<PowerOn>,
                                 use: seq<nat>, alpha: seq<nat>)
    requires StatusOf(s.fram) == BACKUP_STATUS_OK && Consistent(s.fram, use, alpha)
    requires MapFits(s.fram) && k <= |ChangeKeySteps(s, resets, key, drawn, luck)|
    ensures
      var cut := Restarted(RunSteps(s, ChangeKeySteps(s, resets, key, drawn, luck)[..k]), resets, runs);
      Consistent(cut.fram, use, alpha)
  {
    hide *;
    CutChangeKeeps(s, resets, key, drawn, luck, k, runs);
    var cut := Restarted(RunSteps(s, ChangeKeySteps(s, resets, key, drawn, luck)[..k]), resets, runs);
    FrontsKeepConsistent(s.fram, cut.fram, use, alpha);
  }
}
