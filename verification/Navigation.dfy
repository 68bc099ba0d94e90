/** Walking through the credentials (Code/src/Security/Password_List.c): first, next and
  previous in the order of the memory map and of both lists. */
module Navigation {
  import opened Bytes
  import opened Memory
  import opened MemoryMap
  import opened Device
  import opened Index
  import opened Lists
  import opened ListSort
  import opened Links

  // ----- one cycle -----

  /** The neighbours of a position in a list that is closed to a ring. */
  function After(l: seq<nat>, i: nat): nat
    requires i < |l|
  {
    l[if i + 1 == |l| then 0 else i + 1]
  }

  function Before(l: seq<nat>, i: nat): nat
    requires i < |l|
  {
    l[if i == 0 then |l| - 1 else i - 1]
  }

  function PosOf(l: seq<nat>, id: nat): (i: nat)
    requires id in l
    ensures i < |l| && l[i] == id
  {
    if l[0] == id then 0 else 1 + PosOf(l[1..], id)
  }

  function NextIn(l: seq<nat>, id: nat): (r: nat)
    requires id in l
    ensures r in l
  {
    After(l, PosOf(l, id))
  }

  function PrevIn(l: seq<nat>, id: nat): (r: nat)
    requires id in l
    ensures r in l
  {
    Before(l, PosOf(l, id))
  }

  /** k times next. */
  function Steps(l: seq<nat>, id: nat, k: nat): (r: nat)
    requires id in l
    ensures r in l
  {
    if k == 0 then id else NextIn(l, Steps(l, id, k - 1))
  }

  lemma OnlyPlace(l: seq<nat>, i: nat)
    requires Distinct(l) && i < |l|
    ensures PosOf(l, l[i]) == i
  {
  }

  lemma {:induction false} StepsFrom(l: seq<nat>, i: nat, k: nat)
    requires Distinct(l) && i < |l| && k <= |l|
    ensures Steps(l, l[i], k) == l[if i + k < |l| then i + k else i + k - |l|]
  {
    if k > 0 {
      hide Distinct, PosOf;
      StepsFrom(l, i, k - 1);
      OnlyPlace(l, if i + (k - 1) < |l| then i + (k - 1) else i + (k - 1) - |l|);
    }
  }

  lemma NextUndoesPrev(l: seq<nat>, id: nat)
    requires Distinct(l) && id in l
    ensures NextIn(l, PrevIn(l, id)) == id && PrevIn(l, NextIn(l, id)) == id
  {
    var i, n := PosOf(l, id), |l|;
    hide Distinct, PosOf;
    OnlyPlace(l, if i + 1 == n then 0 else i + 1);
    OnlyPlace(l, if i == 0 then n - 1 else i - 1);
  }

  /** The neighbours by position: one further on, or round the end. */
  lemma NeighboursAre(l: seq<nat>, id: nat)
    requires Distinct(l) && id in l
    ensures forall i: nat | i < |l| && l[i] == id ::
      && PrevIn(l, id) == (if i == 0 then l[|l| - 1] else l[i - 1])
      && NextIn(l, id) == (if i + 1 == |l| then l[0] else l[i + 1])
  {
    hide PosOf, Distinct;
    forall i: nat | i < |l| && l[i] == id
      ensures PrevIn(l, id) == (if i == 0 then l[|l| - 1] else l[i - 1])
      ensures NextIn(l, id) == (if i + 1 == |l| then l[0] else l[i + 1])
    {
      OnlyPlace(l, i);
    }
  }

  lemma DistinctPlaces(l: seq<nat>, i: nat, j: nat)
    requires Distinct(l) && i < |l| && j < |l|
    ensures l[i] == l[j] <==> i == j
  {
  }

  /** Going on with next from any id comes to every id exactly once before it returns. */
  lemma OneCycle(l: seq<nat>, id: nat, other: nat) returns (k: nat)
    requires Distinct(l) && id in l && other in l
    ensures Steps(l, id, |l|) == id
    ensures k < |l| && Steps(l, id, k) == other
    ensures forall k': nat | k' < |l| && k' != k :: Steps(l, id, k') != other
  {
    hide *;
    var i, j, n := PosOf(l, id), PosOf(l, other), |l|;
    StepsFrom(l, i, n);
    k := if i <= j then j - i else j - i + n;
    StepsFrom(l, i, k);
    forall k': nat | k' < n && k' != k
      ensures Steps(l, id, k') != other
    {
      StepsFrom(l, i, k');
      DistinctPlaces(l, if i + k' < n then i + k' else i + k' - n, j);
    }
  }

  // ----- along a list -----

  /** pwd_list_get_prev_pwd_id_sort_use, pwd_list_get_prev_pwd_id_sort_alpha: before the
    first id comes the last, found by walking there. */
  method PrevSorted(w: Wallet, o: Order, id: nat, ghost l: seq<nat>) returns (prev: nat)
    requires w.Valid() && id in l && ListIs(IndexOf(w.fram[..]), o, l)
    ensures prev == PrevIn(l, id)
    ensures forall i: nat | i < |l| && l[i] == id :: prev == if i == 0 then l[|l| - 1] else l[i - 1]
  {
    hide IndexOf, ListIs, Next, Prev;
    ghost var i := PosOf(l, id);
    PlaceOf(IndexOf(w.fram[..]), o, l, i);
    prev := ReadPrev(w, o, id);
    BelowMark(IndexOf(w.fram[..]), o, l);
    NeighboursAre(l, id);
    if prev == MAXIMUM_NUMBER_OF_PWD {
      var pwdId := id;
      ghost var p := i;
      while pwdId != MAXIMUM_NUMBER_OF_PWD
        invariant i <= p <= |l| && pwdId == At(l, p) && (p > i ==> prev == l[p - 1])
        decreases |l| - p
      {
        PlaceOf(IndexOf(w.fram[..]), o, l, p);
        prev := pwdId;
        pwdId := ReadNext(w, o, pwdId);
        p := p + 1;
      }
    }
  }

  lemma BelowMark(x: Index, o: Order, l: seq<nat>)
    requires WellFormed(x) && ListIs(x, o, l)
    ensures AllBelow(l) && Distinct(l)
  {
  }

  /** pwd_list_get_next_pwd_id_sort_use, pwd_list_get_next_pwd_id_sort_alpha */
  method NextSorted(w: Wallet, o: Order, id: nat, ghost l: seq<nat>) returns (next: nat)
    requires w.Valid() && id in l && ListIs(IndexOf(w.fram[..]), o, l)
    ensures next == NextIn(l, id)
    ensures forall i: nat | i < |l| && l[i] == id :: next == if i + 1 == |l| then l[0] else l[i + 1]
  {
    hide IndexOf, ListIs, Next, Prev;
    ghost var i := PosOf(l, id);
    PlaceOf(IndexOf(w.fram[..]), o, l, i);
    BelowMark(IndexOf(w.fram[..]), o, l);
    NeighboursAre(l, id);
    FirstIs(IndexOf(w.fram[..]), o, l);
    next := ReadNext(w, o, id);
    if next == MAXIMUM_NUMBER_OF_PWD {
      next := ReadFirst(w, o);
    }
  }

  // ----- along the memory map -----

  function AllUsedIds(m: seq<bv8>): seq<nat>
    requires |m| >= OFFSET_BACKUP_STATUS
  {
    UsedFrom(m, 0, MAXIMUM_NUMBER_OF_PWD)
  }

  /** The first id in use from an index on, else from the start on; 0 if there is none
    (not the index, as the comment in the source has it). */
  function FirstEntry(m: seq<bv8>, index: nat): nat
    requires |m| >= OFFSET_BACKUP_STATUS
  {
    var ids := UsedFrom(m, index, MAXIMUM_NUMBER_OF_PWD);
    if ids != [] then ids[0] else if AllUsedIds(m) != [] then AllUsedIds(m)[0] else 0
  }

  /** The last id in use below an id, else the last of all, else the end mark. */
  function PrevEntry(m: seq<bv8>, id: nat): nat
    requires |m| >= OFFSET_BACKUP_STATUS
  {
    var ids := UsedFrom(m, 0, if id < MAXIMUM_NUMBER_OF_PWD then id else MAXIMUM_NUMBER_OF_PWD);
    if ids != [] then ids[|ids| - 1]
    else if AllUsedIds(m) != [] then AllUsedIds(m)[|AllUsedIds(m)| - 1] else MAXIMUM_NUMBER_OF_PWD
  }

  /** The search from an index on in terms of the memory map: the least id in use from there
    on, if there is none the least of all, if there is none at all 0. */
  lemma FirstEntryIs(m: seq<bv8>, index: nat)
    requires |m| >= OFFSET_BACKUP_STATUS
    ensures
      var n, r := MAXIMUM_NUMBER_OF_PWD, FirstEntry(m, index);
      && ((forall k: nat | k < n :: !Used(m, k)) ==> r == 0)
      && forall k: nat | k < n && Used(m, k) ::
           r < n && Used(m, r) && (k >= index ==> index <= r <= k) && (r < index ==> r <= k)
  {
    hide Used, UsedFrom;
    var n := MAXIMUM_NUMBER_OF_PWD;
    NoneUsed(m, index, n);
    NoneUsed(m, 0, n);
    if UsedFrom(m, index, n) != [] {
      EndsOfUsed(m, index, n);
    } else if AllUsedIds(m) != [] {
      EndsOfUsed(m, 0, n);
    }
  }

  /** The search below an id: the greatest id in use below it, if there is none the greatest
    of all, if there is none at all the end mark. */
  lemma PrevEntryIs(m: seq<bv8>, id: nat)
    requires |m| >= OFFSET_BACKUP_STATUS
    ensures
      var n, r := MAXIMUM_NUMBER_OF_PWD, PrevEntry(m, id);
      && ((forall k: nat | k < n :: !Used(m, k)) ==> r == n)
      && forall k: nat | k < n && Used(m, k) ::
           r < n && Used(m, r) && (k < id ==> k <= r < id) && (r >= id ==> k <= r)
  {
    hide Used, UsedFrom;
    var n := MAXIMUM_NUMBER_OF_PWD;
    var hi := if id < n then id else n;
    NoneUsed(m, 0, hi);
    NoneUsed(m, 0, n);
    if UsedFrom(m, 0, hi) != [] {
      EndsOfUsed(m, 0, hi);
    } else if AllUsedIds(m) != [] {
      EndsOfUsed(m, 0, n);
    }
  }

  lemma FirstUsed(m: seq<bv8>, lo: nat, id: nat)
    requires |m| >= OFFSET_BACKUP_STATUS && lo <= id < MAXIMUM_NUMBER_OF_PWD && Used(m, id)
    requires forall k: nat | lo <= k < id :: !Used(m, k)
    ensures UsedFrom(m, lo, MAXIMUM_NUMBER_OF_PWD) != [] && UsedFrom(m, lo, MAXIMUM_NUMBER_OF_PWD)[0] == id
  {
    hide Used, UsedFrom;
    NoneUsed(m, lo, id);
    UsedSplit(m, lo, id, MAXIMUM_NUMBER_OF_PWD);
    UsedFromStep(m, id, MAXIMUM_NUMBER_OF_PWD);
  }

  lemma LastUsed(m: seq<bv8>, id: nat, hi: nat)
    requires |m| >= OFFSET_BACKUP_STATUS && id < hi <= MAXIMUM_NUMBER_OF_PWD && Used(m, id)
    requires forall k: nat | id < k < hi :: !Used(m, k)
    ensures
      var ids := UsedFrom(m, 0, hi);
      ids != [] && ids[|ids| - 1] == id
  {
    hide Used, UsedFrom;
    NoneUsed(m, id + 1, hi);
    UsedSplit(m, 0, id, hi);
    UsedFromStep(m, id, hi);
  }

  /** get_first_entry_from */
  method FirstEntryFrom(w: Wallet, index: nat) returns (r: nat)
    requires w.Valid()
    ensures r == FirstEntry(w.fram[..], index)
    decreases index
  {
    hide Used, UsedFrom, Bit;
    ghost var m := w.fram[..];
    var i := index / 8;
    label Search: while i < SIZE_MEMORY_MAP
      invariant index / 8 <= i
      invariant forall k: nat | index <= k < 8 * i && k < MAXIMUM_NUMBER_OF_PWD :: !Used(m, k)
    {
      var memoryByte := w.fram[OFFSET_MEMORY_MAP + i];
      var j := if i == index / 8 then index % 8 else 0;
      while j < 8
        invariant j <= 8 && index <= 8 * i + j
        invariant forall k: nat | index <= k < 8 * i + j && k < MAXIMUM_NUMBER_OF_PWD :: !Used(m, k)
      {
        if i * 8 + j >= MAXIMUM_NUMBER_OF_PWD {
          break Search;
        }
        MapBit(m, i, j, memoryByte);
        if Bit(memoryByte, j) {
          FirstUsed(m, index, i * 8 + j);
          return i * 8 + j;
        }
        j := j + 1;
      }
      i := i + 1;
    }
    NoneUsed(m, index, MAXIMUM_NUMBER_OF_PWD);
    if index != 0 {
      r := FirstEntryFrom(w, 0);
      return;
    }
    r := index;
  }

  /** pwd_list_get_prev_pwd_id_sort_none: the counters run down to 0 and then wrap around. */
  method PrevSortNone(w: Wallet, id: nat) returns (r: nat)
    requires w.Valid()
    ensures r == PrevEntry(w.fram[..], id)
  {
    hide Used, UsedFrom, Bit, Searched, PrevEntry;
    ghost var m := w.fram[..];
    var searchFrom := MAXIMUM_NUMBER_OF_PWD - 1;
    var found: nat := MAXIMUM_NUMBER_OF_PWD;
    NothingSearched(m, id);
    var i: int := searchFrom / 8;
    while i != -1
      invariant -1 <= i <= searchFrom / 8
      invariant Searched(m, found, id, 8 * (i + 1))
      decreases i
    {
      var memoryByte := w.fram[OFFSET_MEMORY_MAP + i];
      var j: int := if i == searchFrom / 8 then searchFrom % 8 else 7;
      while j != -1
        invariant -1 <= j <= 7
        invariant Searched(m, found, id, 8 * i + j + 1)
        decreases j
      {
        MapBit(m, i, j, memoryByte);
        SearchedOne(m, found, id, i * 8 + j);
        if Bit(memoryByte, j) {
          var pwdId := i * 8 + j;
          if pwdId < id {
            return pwdId;
          }
          if found == MAXIMUM_NUMBER_OF_PWD {
            found := pwdId;
          }
        }
        j := j - 1;
      }
      i := i - 1;
    }
    SearchedAll(m, found, id);
    r := found;
  }

  lemma NothingSearched(m: seq<bv8>, id: nat)
    requires |m| >= OFFSET_BACKUP_STATUS
    ensures Searched(m, MAXIMUM_NUMBER_OF_PWD, id, MAXIMUM_NUMBER_OF_PWD)
  {
  }

  /** One more id looked at: it is the answer, or the first find, or not in use. */
  lemma SearchedOne(m: seq<bv8>, found: nat, id: nat, at: nat)
    requires |m| >= OFFSET_BACKUP_STATUS && at < MAXIMUM_NUMBER_OF_PWD && Searched(m, found, id, at + 1)
    ensures Used(m, at) && at < id ==> PrevEntry(m, id) == at
    ensures Used(m, at) && at >= id ==>
      Searched(m, if found == MAXIMUM_NUMBER_OF_PWD then at else found, id, at)
    ensures !Used(m, at) ==> Searched(m, found, id, at)
  {
    hide Used, UsedFrom;
    if Used(m, at) && at < id {
      LastUsed(m, at, if id < MAXIMUM_NUMBER_OF_PWD then id else MAXIMUM_NUMBER_OF_PWD);
    }
  }

  lemma SearchedAll(m: seq<bv8>, found: nat, id: nat)
    requires |m| >= OFFSET_BACKUP_STATUS && Searched(m, found, id, 0)
    ensures PrevEntry(m, id) == found
  {
    hide Used, UsedFrom;
    NoneUsed(m, 0, if id < MAXIMUM_NUMBER_OF_PWD then id else MAXIMUM_NUMBER_OF_PWD);
    if found == MAXIMUM_NUMBER_OF_PWD {
      NoneUsed(m, 0, MAXIMUM_NUMBER_OF_PWD);
    } else {
      LastUsed(m, found, MAXIMUM_NUMBER_OF_PWD);
    }
  }

  /** From `at` on, `found` is the last id in use, and none below the bound is in use. */
  ghost predicate Searched(m: seq<bv8>, found: nat, bound: nat, at: int)
    requires |m| >= OFFSET_BACKUP_STATUS
  {
    && (forall k: nat | at <= k < bound && k < MAXIMUM_NUMBER_OF_PWD :: !Used(m, k))
    && found <= MAXIMUM_NUMBER_OF_PWD
    && (found < MAXIMUM_NUMBER_OF_PWD ==> at <= found && Used(m, found))
    && (forall k: nat | at <= k < MAXIMUM_NUMBER_OF_PWD && (found == MAXIMUM_NUMBER_OF_PWD || found < k) :: !Used(m, k))
  }

  /** The searches over the memory map are the same cycle on the ids in ascending order. */
  lemma MapIsCycle(m: seq<bv8>, id: nat)
    requires |m| >= OFFSET_BACKUP_STATUS && id < MAXIMUM_NUMBER_OF_PWD && Used(m, id)
    ensures id in AllUsedIds(m) && Distinct(AllUsedIds(m))
    ensures FirstEntry(m, id + 1) == NextIn(AllUsedIds(m), id)
    ensures PrevEntry(m, id) == PrevIn(AllUsedIds(m), id)
    ensures FirstEntry(m, 0) == AllUsedIds(m)[0]
  {
    hide Used, UsedFrom;
    var n := MAXIMUM_NUMBER_OF_PWD;
    var l, low, high := AllUsedIds(m), UsedFrom(m, 0, id), UsedFrom(m, id + 1, n);
    UsedAscending(m, 0, n);
    UsedSplit(m, 0, id, n);
    UsedFromStep(m, id, n);
    assert l == low + [id] + high;
    assert l[|low|] == id;
    OnlyPlace(l, |low|);
  }

  /** The do-while loop of the memory editor (Utility/memory_editor/src/Command.cpp): it
    shows every credential once. */
  method Show(w: Wallet) returns (shown: seq<nat>)
    requires w.Valid() && exists id: nat | id < MAXIMUM_NUMBER_OF_PWD :: Used(w.fram[..], id)
    ensures shown == AllUsedIds(w.fram[..])
  {
    hide Used, UsedFrom, FirstEntry, AllUsedIds, Distinct;
    ghost var m := w.fram[..];
    ghost var l := AllUsedIds(m);
    ghost var some: nat :| some < MAXIMUM_NUMBER_OF_PWD && Used(m, some);
    MapIsCycle(m, some);
    var first := FirstEntryFrom(w, 0);
    var current := first;
    shown := [];
    assert l[..0] == [];
    while true
      invariant |shown| < |l| && shown == l[..|shown|] && current == l[|shown|] && first == l[0]
      decreases |l| - |shown|
    {
      assert shown + [current] == l[..|shown| + 1];
      ShowNext(m, |shown|);
      shown := shown + [current];
      current := FirstEntryFrom(w, current + 1);
      if current == first {
        break;
      }
    }
  }

  /** Behind an id comes the next one, and behind the last one the first again. */
  lemma ShowNext(m: seq<bv8>, i: nat)
    requires |m| >= OFFSET_BACKUP_STATUS && i < |AllUsedIds(m)|
    ensures
      var l := AllUsedIds(m);
      && FirstEntry(m, l[i] + 1) == l[if i + 1 < |l| then i + 1 else 0]
      && (i + 1 < |l| ==> l[i + 1] != l[0])
  {
    hide Used, UsedFrom, FirstEntry, AllUsedIds, Distinct;
    var l := AllUsedIds(m);
    UsedAt(m, i);
    MapIsCycle(m, l[i]);
    OnlyPlace(l, i);
    if i + 1 < |l| {
      DistinctPlaces(l, i + 1, 0);
    }
  }

  lemma UsedAt(m: seq<bv8>, i: nat)
    requires |m| >= OFFSET_BACKUP_STATUS && i < |AllUsedIds(m)|
    ensures AllUsedIds(m)[i] < MAXIMUM_NUMBER_OF_PWD && Used(m, AllUsedIds(m)[i])
  {
    hide Used;
  }
}
