/** The operations of the user interface on the store (Code/src/Options/Options_Callback_Password.c,
  Code/src/FSM/States/State_Main.c). */
module Operations {
  import opened Bytes
  import opened Aes
  import opened Memory
  import opened MemoryMap
  import opened Device
  import opened Backup
  import opened Index
  import opened Lists
  import opened ListEdits
  import opened Sorting
  import opened Links
  import opened ListSort
  import opened Consistency
  import opened Navigation
  import opened PasswordList

  // ----- navigation in a sorting mode -----

  /** The two bits of the options flag; the fourth value is never set. */
  datatype Mode = SortNone | SortUse | SortAlpha

  /** The ids in the order of a mode. */
  function OrderOf(m: Image, mode: Mode, use: seq<nat>, alpha: seq<nat>): seq<nat> {
    match mode
    case SortNone => AllUsedIds(m)
    case SortUse => use
    case SortAlpha => alpha
  }

  lemma {:induction false} NoLonger(l: seq<nat>, l': seq<nat>)
    requires Distinct(l) && forall id | id in l :: id in l'
    ensures |l| <= |l'|
    decreases |l'|
  {
    if l != [] {
      var id := l[0];
      assert id in l';
      var j :| 0 <= j < |l'| && l'[j] == id;
      DistinctWithout(l, 0);
      forall x | x in Without(l, 0)
        ensures x in Without(l', j)
      {
        assert x in l && x != id;
        var i :| 0 <= i < |l'| && l'[i] == x;
        assert x == Without(l', j)[if i < j then i else i - 1];
      }
      NoLonger(Without(l, 0), Without(l', j));
    }
  }

  /** In every mode the order is a ring of all ids in use, NUM_PWD long: with OneCycle and
    NextUndoesPrev, going on or back visits each of them once. */
  lemma EveryModeIsOneCycle(m: Image, mode: Mode, use: seq<nat>, alpha: seq<nat>)
    requires Consistent(m, use, alpha)
    ensures
      var l := OrderOf(m, mode, use, alpha);
      && Distinct(l) && |l| == IndexOf(m).num
      && forall id: nat | id < 8 * SIZE_MEMORY_MAP :: id in l <==> Used(m, id)
  {
    hide InOrder, Used, ListIs, IndexOf, Comparable, AllUsedIds, Distinct;
    InOrderParts(m, ByUse, use);
    InOrderParts(m, ByName, alpha);
    MapOrderIsCycle(m, use);
  }

  lemma MapOrderIsCycle(m: Image, use: seq<nat>)
    requires AllBelow(use) && Distinct(use) && Holds(m, use)
    ensures Distinct(AllUsedIds(m)) && |AllUsedIds(m)| == |use|
    ensures forall id: nat | id < 8 * SIZE_MEMORY_MAP :: id in AllUsedIds(m) <==> Used(m, id)
  {
    var l := AllUsedIds(m);
    UsedAscending(m, 0, MAXIMUM_NUMBER_OF_PWD);
    AscendingIsDistinct(l);
    hide AllUsedIds, Used, Distinct, Ascending, Holds;
    forall id: nat | id < 8 * SIZE_MEMORY_MAP
      ensures id in l <==> Used(m, id)
    {
      MapOrder(m, use, id);
    }
    forall id | id in l || id in use
      ensures id in use <==> id in l
    {
      MemberBounds(m, use, id);
      MapOrder(m, use, id);
      HoldsAt(m, use, id);
    }
    NoLonger(l, use);
    NoLonger(use, l);
  }

  lemma MemberBounds(m: Image, use: seq<nat>, id: nat)
    requires AllBelow(use) && (id in AllUsedIds(m) || id in use)
    ensures id < MAXIMUM_NUMBER_OF_PWD
  {
    hide Used;
  }

  lemma HoldsAt(m: Image, l: seq<nat>, id: nat)
    requires Holds(m, l) && id < 8 * SIZE_MEMORY_MAP
    ensures id in l <==> Used(m, id)
  {
    hide Used;
  }

  lemma AscendingIsDistinct(l: seq<nat>)
    requires Ascending(l)
    ensures Distinct(l)
  {
  }

  lemma MapOrder(m: Image, use: seq<nat>, id: nat)
    requires id < 8 * SIZE_MEMORY_MAP && AllBelow(use) && Holds(m, use)
    ensures id in AllUsedIds(m) <==> Used(m, id)
  {
    hide Used;
    if id in AllUsedIds(m) {
      var i :| 0 <= i < |AllUsedIds(m)| && AllUsedIds(m)[i] == id;
    }
    if Used(m, id) {
      assert id in use;
    }
  }

  lemma ModeFacts(m: Image, mode: Mode, use: seq<nat>, alpha: seq<nat>, id: nat)
    requires Consistent(m, use, alpha) && id in use
    ensures id < CAPACITY && Used(m, id) && id in OrderOf(m, mode, use, alpha) && Distinct(OrderOf(m, mode, use, alpha))
    ensures ListIs(IndexOf(m), ByUse, use) && ListIs(IndexOf(m), ByName, alpha) && id in alpha
    ensures |OrderOf(m, mode, use, alpha)| == |use|
  {
    InOrderParts(m, ByUse, use);
    InOrderParts(m, ByName, alpha);
    InBoth(m, use, alpha, id);
    EveryModeIsOneCycle(m, mode, use, alpha);
  }

  /** pwd_list_get_prev_pwd_id */
  method PrevPwdId(w: Wallet, mode: Mode, id: nat, ghost use: seq<nat>, ghost alpha: seq<nat>) returns (prev: nat)
    requires w.Valid() && id in use && Consistent(w.fram[..], use, alpha)
    ensures id in OrderOf(w.fram[..], mode, use, alpha) && prev == PrevIn(OrderOf(w.fram[..], mode, use, alpha), id)
    ensures mode.SortUse? ==> forall i: nat | i < |use| && use[i] == id ::
      prev == if i == 0 then use[|use| - 1] else use[i - 1]
    ensures mode.SortAlpha? ==> forall i: nat | i < |alpha| && alpha[i] == id ::
      prev == if i == 0 then alpha[|alpha| - 1] else alpha[i - 1]
    ensures mode.SortNone? ==> prev == PrevEntry(w.fram[..], id)
  {
    hide Consistent, ListIs, IndexOf, Distinct, Used, AllUsedIds, NextIn, PrevIn, FirstEntry, PrevEntry;
    ghost var m := w.fram[..];
    ModeFacts(m, mode, use, alpha, id);
    match mode
    case SortNone =>
      MapIsCycle(m, id);
      prev := PrevSortNone(w, id);
    case SortUse =>
      prev := PrevSorted(w, ByUse, id, use);
    case SortAlpha =>
      prev := PrevSorted(w, ByName, id, alpha);
  }

  /** pwd_list_get_next_pwd_id */
  method NextPwdId(w: Wallet, mode: Mode, id: nat, ghost use: seq<nat>, ghost alpha: seq<nat>) returns (next: nat)
    requires w.Valid() && id in use && Consistent(w.fram[..], use, alpha)
    ensures id in OrderOf(w.fram[..], mode, use, alpha) && next == NextIn(OrderOf(w.fram[..], mode, use, alpha), id)
    ensures mode.SortUse? ==> forall i: nat | i < |use| && use[i] == id ::
      next == if i + 1 == |use| then use[0] else use[i + 1]
    ensures mode.SortAlpha? ==> forall i: nat | i < |alpha| && alpha[i] == id ::
      next == if i + 1 == |alpha| then alpha[0] else alpha[i + 1]
    ensures mode.SortNone? ==> next == FirstEntry(w.fram[..], id + 1)
  {
    hide Consistent, ListIs, IndexOf, Distinct, Used, AllUsedIds, NextIn, PrevIn, FirstEntry, PrevEntry;
    ghost var m := w.fram[..];
    ModeFacts(m, mode, use, alpha, id);
    match mode
    case SortNone =>
      MapIsCycle(m, id);
      next := FirstEntryFrom(w, id + 1);
    case SortUse =>
      next := NextSorted(w, ByUse, id, use);
    case SortAlpha =>
      next := NextSorted(w, ByName, id, alpha);
  }

  /** pwd_list_get_first_pwd_id: the first in the order, or 0. */
  method FirstPwdId(w: Wallet, mode: Mode, ghost use: seq<nat>, ghost alpha: seq<nat>) returns (first: nat)
    requires w.Valid() && Consistent(w.fram[..], use, alpha)
    ensures
      var l := OrderOf(w.fram[..], mode, use, alpha);
      first == if l == [] then 0 else l[0]
    ensures mode.SortUse? ==> first == if use == [] then 0 else use[0]
    ensures mode.SortAlpha? ==> first == if alpha == [] then 0 else alpha[0]
    ensures mode.SortNone? ==> first == FirstEntry(w.fram[..], 0)
  {
    hide InOrder, IndexOf, AllUsedIds, Comparable;
    HeadsAre(w.fram[..], use, alpha);
    match mode
    case SortNone =>
      FirstOfAll(w.fram[..]);
      first := FirstEntryFrom(w, 0);
    case SortUse =>
      first := ReadFirst(w, ByUse);
    case SortAlpha =>
      first := ReadFirst(w, ByName);
  }

  lemma HeadsAre(m: Image, use: seq<nat>, alpha: seq<nat>)
    requires Consistent(m, use, alpha)
    ensures First(IndexOf(m), ByUse) == if use == [] then 0 else use[0]
    ensures First(IndexOf(m), ByName) == if alpha == [] then 0 else alpha[0]
  {
    hide IndexOf, Sorted, Holds, Comparable, Linked, Distinct, First;
  }

  lemma FirstOfAll(m: Image)
    ensures FirstEntry(m, 0) == if AllUsedIds(m) == [] then 0 else AllUsedIds(m)[0]
  {
    hide UsedFrom;
  }

  lemma OrderMember(m: Image, mode: Mode, use: seq<nat>, alpha: seq<nat>, id: nat)
    requires Consistent(m, use, alpha) && id in OrderOf(m, mode, use, alpha)
    ensures id in use
  {
    InOrderParts(m, ByUse, use);
    InOrderParts(m, ByName, alpha);
    EveryModeIsOneCycle(m, mode, use, alpha);
    hide InOrder, Used, ListIs, IndexOf, Comparable, UsedFrom, Distinct;
    assert id < 8 * SIZE_MEMORY_MAP;
  }

  /** With more than one id around, the neighbour is another one. */
  lemma NeighbourIsOther(l: seq<nat>, id: nat)
    requires Distinct(l) && id in l && |l| > 1
    ensures PrevIn(l, id) != id
  {
    var i := PosOf(l, id);
    DistinctPlaces(l, if i == 0 then |l| - 1 else i - 1, i);
  }

  // ----- the operations -----

  ghost predicate IsPrevious(m: Image, mode: Mode, use: seq<nat>, alpha: seq<nat>, id: nat, prev: nat) {
    id in OrderOf(m, mode, use, alpha) && prev == PrevIn(OrderOf(m, mode, use, alpha), id)
  }

  /** opt_callback_delete_pwd: the current id is in use afterwards, or 0 in an empty store. */
  method OptDeletePwd(w: Wallet, mode: Mode, ghost use: seq<nat>, ghost alpha: seq<nat>)
    requires w.Valid() && w.numPwd == |use| && w.current in use && Consistent(w.fram[..], use, alpha)
    modifies w.fram, w`log, w`numPwd, w`current
    ensures IsDeleted(old(w.fram[..]), w.fram[..], use, alpha, old(w.current))
    ensures w.numPwd == |use| - 1 == |Removed(use, old(w.current))|
    ensures if w.numPwd == 0 then w.current == 0 else w.current in Removed(use, old(w.current))
    ensures w.numPwd > 0 ==> IsPrevious(old(w.fram[..]), mode, use, alpha, old(w.current), w.current)
  {
    hide Consistent, IsDeleted, Removed, PrevIn, OrderOf;
    ghost var m := w.fram[..];
    var prevPwd := 0;
    if w.numPwd > 1 {
      PrevRemains(m, mode, use, alpha, w.current);
      prevPwd := PrevPwdId(w, mode, w.current, use, alpha);
    }
    DeletePwd(w, w.current, use, alpha);
    w.current := prevPwd;
  }

  lemma PrevRemains(m: Image, mode: Mode, use: seq<nat>, alpha: seq<nat>, id: nat)
    requires Consistent(m, use, alpha) && id in use && |use| > 1
    ensures id in OrderOf(m, mode, use, alpha)
    ensures PrevIn(OrderOf(m, mode, use, alpha), id) in Removed(use, id)
  {
    hide Consistent, Removed, Distinct, ListIs, PrevIn, IndexOf, OrderOf, Used;
    var l := OrderOf(m, mode, use, alpha);
    ModeFacts(m, mode, use, alpha, id);
    NeighbourIsOther(l, id);
    OrderMember(m, mode, use, alpha, PrevIn(l, id));
    StillThere(m, use, alpha, id, PrevIn(l, id));
  }

  lemma StillThere(m: Image, use: seq<nat>, alpha: seq<nat>, id: nat, other: nat)
    requires Consistent(m, use, alpha) && id in use && other in use && other != id
    ensures other in Removed(use, id)
  {
    InOrderParts(m, ByUse, use);
    hide InOrder, IndexOf, Distinct, Removed;
    var i :| 0 <= i < |use| && use[i] == id;
    RemovedIs(use, i);
    DistinctWithout(use, i);
  }

  /** opt_callback_add_pwd, after the user has typed: refused only if the store is full. */
  method OptAddPwd(w: Wallet, name: array<bv8>, data: array<bv8>, usr: array<bv8>, ghost use: seq<nat>, ghost alpha: seq<nat>)
    returns (ok: bool, id: nat)
    requires w.Valid() && name.Length == data.Length == 32 && usr.Length == 64
    requires name !in {w.fram, w.key} && {data, usr} !! {w.fram, w.eeprom, w.key, name} && data != usr
    requires w.numPwd == |use| && Terminated(name[..]) && Consistent(w.fram[..], use, alpha)
    modifies data, usr, w.key, w.fram, w`log, w`numPwd, w`poolSize, w`ticks
    ensures w.key[..] == old(w.key[..]) && (ok <==> |use| < CAPACITY)
    ensures !ok ==> w.fram[..] == old(w.fram[..]) && w.numPwd == |use|
    ensures ok ==> w.numPwd == |use| + 1
    ensures ok ==>
      IsAdded(old(w.fram[..]), w.fram[..], use, alpha, id, name[..], old(data[..]), old(usr[..]), w.key[..])
  {
    hide InOrder, IsAdded, Comparable;
    Numbered(w.fram[..], ByUse, use);
    if w.numPwd == MAXIMUM_NUMBER_OF_PWD - 1 {
      return false, 0;
    }
    ok, id := AddPwd(w, name, data, usr, use, alpha);
  }

  /** One entry has changed, but not its links. */
  ghost predicate EntryOnly(m: Image, m': Image, id: nat, e: Entry)
    requires id < CAPACITY
  {
    |e.links| == 4 && IndexOf(m') == WithEntry(IndexOf(m), id, e) && e.links == EntryAt(IndexOf(m), id).links
  }

  lemma StillListed(m: Image, m': Image, o: Order, l: seq<nat>, id: nat, e: Entry)
    requires Listed(m, o, l) && id < CAPACITY && EntryOnly(m, m', id, e)
    ensures Listed(m', o, l) && OthersKept(IndexOf(m), IndexOf(m'), id)
    ensures KeyOf(e, o) == KeyOf(EntryAt(IndexOf(m), id), o) && InOrder(m, o, l) ==> InOrder(m', o, l)
  {
    hide IndexOf, Used, KeyOf, Next, Prev, First;
    var x, y := IndexOf(m), IndexOf(m');
    forall j: nat | j < CAPACITY
      ensures Next(y, o, j) == Next(x, o, j) && Prev(y, o, j) == Prev(x, o, j) && First(y, o) == First(x, o)
    {
      SameLinks(x, y, id, e, o, j);
    }
    assert First(y, o) == First(x, o) && Next(y, o, id) == Next(x, o, id);
    ListFrame(x, y, o, l);
    forall j: nat | j < 8 * SIZE_MEMORY_MAP
      ensures Used(m', j) == Used(m, j)
    {
      SameMap(m, m', j);
    }
    hide ListIs, Sorted;
    if KeyOf(e, o) == KeyOf(EntryAt(x, id), o) && InOrder(m, o, l) {
      assert KeysOf(y, o) == KeysOf(x, o);
    }
  }

  lemma SameLinks(x: Index, y: Index, id: nat, e: Entry, o: Order, j: nat)
    requires WellFormed(x) && id < CAPACITY && j < CAPACITY && |e.links| == 4
    requires y == WithEntry(x, id, e) && e.links == EntryAt(x, id).links
    ensures First(y, o) == First(x, o) && Next(y, o, j) == Next(x, o, j) && Prev(y, o, j) == Prev(x, o, j)
  {
  }

  // ----- renaming and sending -----

  function Other(o: Order): Order {
    if o.ByUse? then ByName else ByUse
  }

  function ListOf(o: Order, use: seq<nat>, alpha: seq<nat>): seq<nat> {
    if o.ByUse? then use else alpha
  }

  /** One entry is `e` up to its links, its list is sorted again by the new keys, the other
    list is as it was, and nothing else has changed but links. */
  ghost predicate IsReordered(m: Image, m': Image, o: Order, use: seq<nat>, alpha: seq<nat>, id: nat, e: Entry) {
    && Keyed(KeysOf(IndexOf(m'), o), ListOf(o, use, alpha))
    && var sorted := ISort(KeysOf(IndexOf(m'), o), ListOf(o, use, alpha));
       && Consistent(m', ListOf(o, sorted, use), ListOf(o, alpha, sorted))
       && OthersKept(IndexOf(m), IndexOf(m'), id)
       && id < CAPACITY && EntryAt(IndexOf(m'), id) == e.(links := EntryAt(IndexOf(m'), id).links)
       && IndexOf(m').bits == IndexOf(m).bits && IndexOf(m').num == IndexOf(m).num
       && IndexOf(m').pool == IndexOf(m).pool
  }

  /** A changed entry leaves both lists linked, and the names comparable. */
  lemma StillListedBoth(m: Image, m': Image, use: seq<nat>, alpha: seq<nat>, id: nat, e: Entry)
    requires Consistent(m, use, alpha) && id < CAPACITY && EntryOnly(m, m', id, e) && Terminated(e.name)
    ensures Listed(m', ByUse, use) && Listed(m', ByName, alpha)
    ensures Comparable(IndexOf(m'), ByName, alpha)
    ensures OthersKept(IndexOf(m), IndexOf(m'), id)
  {
    InOrderParts(m, ByName, alpha);
    hide IndexOf, Sorted, KeysOf, KeyOf, Terminated, OthersKept;
    StillListed(m, m', ByUse, use, id, e);
    StillListed(m, m', ByName, alpha, id, e);
    hide Listed, ListIs;
    var x, y := IndexOf(m), IndexOf(m');
    forall i: nat | i < |alpha|
      ensures Terminated(y.entries[alpha[i]].name)
    {
      EntryNamed(x, y, id, e, alpha[i]);
    }
  }

  lemma EntryNamed(x: Index, y: Index, id: nat, e: Entry, j: nat)
    requires WellFormed(x) && id < CAPACITY && |e.links| == 4 && y == WithEntry(x, id, e) && j < CAPACITY
    ensures y.entries[j].name == if j == id then e.name else x.entries[j].name
  {
  }

  /** Sorting one list after an entry has changed. */
  method SortChanged(w: Wallet, o: Order, id: nat, ghost m: Image, ghost e: Entry, ghost use: seq<nat>, ghost alpha: seq<nat>)
    requires w.Valid() && w.numPwd == |use| && id < CAPACITY && Consistent(m, use, alpha)
    requires EntryOnly(m, w.fram[..], id, e) && Terminated(e.name)
    requires KeyOf(e, Other(o)) == KeyOf(EntryAt(IndexOf(m), id), Other(o))
    modifies w.fram, w`log
    ensures IsReordered(m, w.fram[..], o, use, alpha, id, e)
  {
    hide InOrder, Listed, IndexOf, Comparable, Terminated, KeysOf, KeyOf, Relinked, SameButLinks, ListIs;
    hide ISort, OthersKept, EntryOnly, Keyed;
    ghost var m1 := w.fram[..];
    ghost var l, l' := ListOf(o, use, alpha), ListOf(Other(o), use, alpha);
    StillListedBoth(m, m1, use, alpha, id, e);
    OtherInOrder(m, o, use, alpha);
    StillListed(m, m1, Other(o), l', id, e);
    BothBelow(m1, use, alpha);
    NothingCompared(IndexOf(m1), use);
    Sort(w, o, l);
    ghost var m2 := w.fram[..];
    ghost var x1, x2 := IndexOf(m1), IndexOf(m2);
    KeyedBelow(x1, o, l);
    ghost var sorted := ISort(KeysOf(x1, o), l);
    Resorted(m1, m2, o, l, sorted);
    ComparableSorted(x1, alpha);
    RelinkedParts(x1, x2, o, l, if o.ByName? then sorted else alpha);
    SameKeys(x1, x2, o, o);
    OtherOrderKept(m1, m2, o, Other(o), l');
    ChangedThenLinked(m, m1, m2, id, e);
  }

  lemma OtherInOrder(m: Image, o: Order, use: seq<nat>, alpha: seq<nat>)
    requires Consistent(m, use, alpha)
    ensures InOrder(m, Other(o), ListOf(Other(o), use, alpha)) && Listed(m, Other(o), ListOf(Other(o), use, alpha))
  {
    hide Listed, Sorted, Comparable;
  }

  lemma BothBelow(m: Image, use: seq<nat>, alpha: seq<nat>)
    requires Listed(m, ByUse, use) && Listed(m, ByName, alpha)
    ensures AllBelow(use) && AllBelow(alpha) && |use| == |alpha|
    ensures ListIs(IndexOf(m), ByUse, use) && ListIs(IndexOf(m), ByName, alpha)
  {
    hide ListIs, Holds;
  }

  lemma ChangedThenLinked(m: Image, m1: Image, m2: Image, id: nat, e: Entry)
    requires id < CAPACITY && EntryOnly(m, m1, id, e) && LinksOnly(IndexOf(m1), IndexOf(m2))
    ensures OthersKept(IndexOf(m), IndexOf(m2), id)
    ensures EntryAt(IndexOf(m2), id) == e.(links := EntryAt(IndexOf(m2), id).links)
    ensures IndexOf(m2).bits == IndexOf(m).bits && IndexOf(m2).num == IndexOf(m).num
    ensures IndexOf(m2).pool == IndexOf(m).pool
  {
    hide IndexOf;
    var x, y, z := IndexOf(m), IndexOf(m1), IndexOf(m2);
    forall j: nat | j < CAPACITY
      ensures z.entries[j] == y.entries[j].(links := z.entries[j].links)
      ensures j != id ==> y.entries[j] == x.entries[j]
    {
    }
  }

  ghost function Renamed(m: Image, id: nat, name: seq<bv8>): Entry
    requires id < CAPACITY
  {
    EntryAt(IndexOf(m), id).(name := name)
  }

  /** Used once more; the 16-bit counter wraps around. */
  ghost function UsedOnceMore(m: Image, id: nat): Entry
    requires id < CAPACITY
  {
    var e := EntryAt(IndexOf(m), id);
    e.(count := (e.count + 1) % 65536)
  }

  lemma EntryIs(m: Image, m': Image, o: Order, use: seq<nat>, alpha: seq<nat>, id: nat, e: Entry)
    requires IsReordered(m, m', o, use, alpha, id, e)
    ensures
      var e' := EntryAt(IndexOf(m'), id);
      e'.count == e.count && e'.name == e.name && e'.secret == e.secret
  {
    hide IndexOf, Consistent, KeysOf, Keyed, ISort, OthersKept;
  }

  /** The counter of a credential is a 16-bit number. */
  lemma CountOnceMore(m: Image, id: nat)
    requires id < CAPACITY
    ensures
      var c := EntryAt(IndexOf(m), id).count;
      UsedOnceMore(m, id).count == if c == 65535 then 0 else c + 1
  {
    hide IndexOf, IdOf, CountAt, NameAt, ToNat;
    KeyAt(m, id);
    NextCount(EntryAt(IndexOf(m), id).count);
  }

  lemma NextCount(c: nat)
    requires c < 65536
    ensures (c + 1) % 65536 == if c == 65535 then 0 else c + 1
  {
  }

  /** opt_callback_change_name, after the user has typed. */
  method OptChangeName(w: Wallet, name: array<bv8>, ghost use: seq<nat>, ghost alpha: seq<nat>)
    requires w.Valid() && name.Length == 32 && name != w.fram && Terminated(name[..])
    requires w.numPwd == |use| && w.current in use && Consistent(w.fram[..], use, alpha)
    modifies w.fram, w`log
    ensures w.current < CAPACITY
    ensures IsReordered(old(w.fram[..]), w.fram[..], ByName, use, alpha, w.current,
      Renamed(old(w.fram[..]), w.current, name[..]))
    ensures
      var e, e' := EntryAt(IndexOf(old(w.fram[..])), w.current), EntryAt(IndexOf(w.fram[..]), w.current);
      e'.name == name[..] && e'.count == e.count && e'.secret == e.secret
  {
    hide Consistent, IndexOf, Terminated, IsReordered;
    CurrentFits(w.fram[..], use, alpha, w.current);
    ghost var m := w.fram[..];
    SetName(w, w.current, name);
    SortChanged(w, ByName, w.current, m, Renamed(m, w.current, name[..]), use, alpha);
    EntryIs(m, w.fram[..], ByName, use, alpha, w.current, Renamed(m, w.current, name[..]));
  }

  lemma CurrentFits(m: Image, use: seq<nat>, alpha: seq<nat>, id: nat)
    requires Consistent(m, use, alpha) && id in use
    ensures id < CAPACITY && Terminated(EntryAt(IndexOf(m), id).name)
  {
    InOrderParts(m, ByName, alpha);
    hide InOrder, IndexOf, Terminated, ListIs;
    InBoth(m, use, alpha, id);
    var i :| 0 <= i < |alpha| && alpha[i] == id;
  }

  ghost predicate IsSent(m: Image, m': Image, use: seq<nat>, alpha: seq<nat>, id: nat, k: Block, sent: seq<bv8>) {
    && id < CAPACITY && sent == CStr(DataOf(m, id, k))
    && IsReordered(m, m', ByUse, use, alpha, id, UsedOnceMore(m, id))
  }

  /** password_increment_counter: 65535 is followed by 0. */
  method IncrementCounter(w: Wallet, id: nat)
    requires w.Valid() && id < CAPACITY
    modifies w.fram, w`log
    ensures EntryOnly(old(w.fram[..]), w.fram[..], id, UsedOnceMore(old(w.fram[..]), id))
    ensures
      var c := EntryAt(IndexOf(old(w.fram[..])), id).count;
      EntryAt(IndexOf(w.fram[..]), id).count == if c == 65535 then 0 else c + 1
  {
    hide IndexOf, IdOf, CountAt, NameAt, ToNat, UsedOnceMore, EntryOnly, WithEntry;
    ghost var m := w.fram[..];
    KeyAt(m, id);
    var counter := w.ReadId(PwdAddr(id, PWD_OFFSET_PWD_COUNT));
    SetCounter(w, id, (counter + 1) % 65536);
    CounterIncremented(m, w.fram[..], id, counter);
  }

  lemma CounterIncremented(m: Image, m': Image, id: nat, counter: nat)
    requires id < CAPACITY && counter == IndexOf(m).entries[id].count < 65536
    requires IndexOf(m') == WithEntry(IndexOf(m), id, EntryAt(IndexOf(m), id).(count := (counter + 1) % 65536))
    ensures EntryOnly(m, m', id, UsedOnceMore(m, id))
    ensures EntryAt(IndexOf(m'), id).count == if counter == 65535 then 0 else counter + 1
  {
    hide IndexOf;
    NextCount(counter);
  }

  /** opt_callback_send_pwd: the password is typed on the host up to its end, and the
    credential, used once more, moves up in the list by use. */
  method OptSendPwd(w: Wallet, ghost use: seq<nat>, ghost alpha: seq<nat>) returns (sent: seq<bv8>)
    requires w.Valid() && w.numPwd == |use| && w.current in use && Consistent(w.fram[..], use, alpha)
    modifies w.key, w.fram, w`log
    ensures w.key[..] == old(w.key[..])
    ensures IsSent(old(w.fram[..]), w.fram[..], use, alpha, w.current, w.key[..], sent)
    ensures
      var text := DataOf(old(w.fram[..]), w.current, w.key[..]);
      |sent| <= 32 && sent == text[..|sent|] && 0 !in sent && (|sent| < 32 ==> text[|sent|] == 0)
    ensures
      var e, e' := EntryAt(IndexOf(old(w.fram[..])), w.current), EntryAt(IndexOf(w.fram[..]), w.current);
      && e'.count == (if e.count == 65535 then 0 else e.count + 1)
      && e'.name == e.name && e'.secret == e.secret
  {
    hide Consistent, IndexOf, Terminated, IsReordered, DataOf, CStr, EntryOnly;
    CurrentFits(w.fram[..], use, alpha, w.current);
    ghost var m := w.fram[..];
    var pwdData := w.ReadData(w.current, w.key);
    sent := CStr(pwdData[..]);
    CStrEnds(pwdData[..]);
    IncrementCounter(w, w.current);
    SortChanged(w, ByUse, w.current, m, UsedOnceMore(m, w.current), use, alpha);
    CountOnceMore(m, w.current);
    EntryIs(m, w.fram[..], ByUse, use, alpha, w.current, UsedOnceMore(m, w.current));
  }

  // ----- changing password or user name -----

  /** An edit of password or user name leaves memory map, counter and lists alone. */
  lemma EditKeepsConsistent(s: Store, t: Store, id: nat, use: seq<nat>, alpha: seq<nat>)
    requires Consistent(s.fram, use, alpha) && id < CAPACITY && OnlyEdited(s, id, t)
    requires BlockOf(t.fram, id)[..PWD_OFFSET_PWD_IV] == BlockOf(s.fram, id)[..PWD_OFFSET_PWD_IV]
    ensures Consistent(t.fram, use, alpha)
  {
    hide Consistent, HeadOf;
    SameHead(s.fram, t.fram);
    forall j: nat | j < CAPACITY && j != id
      ensures BlockOf(t.fram, j) == BlockOf(s.fram, j)
    {
    }
    hide BlockOf, OnlyEdited;
    FrontsKeepConsistent(s.fram, t.fram, use, alpha);
  }
}
