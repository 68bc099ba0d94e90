/** What memory map, counter and the two lists have to agree on, and that it survives
  adding to, deleting from and sorting the lists. */
module Consistency {
  import opened Bytes
  import opened Memory
  import opened Index
  import opened Lists
  import opened ListEdits
  import opened Sorting
  import opened Links
  import opened ListSort

  /** The list holds exactly the ids whose bit is set. */
  ghost predicate Holds(m: Image, l: seq<nat>) {
    forall id: nat | id < 8 * SIZE_MEMORY_MAP :: Used(m, id) <==> id in l
  }

  /** One list: well linked, over exactly the used ids, as long as the counter says. */
  ghost predicate Listed(m: Image, o: Order, l: seq<nat>) {
    AllBelow(l) && ListIs(IndexOf(m), o, l) && Holds(m, l) && |l| == IndexOf(m).num
  }

  /** And sorted. */
  ghost predicate InOrder(m: Image, o: Order, l: seq<nat>) {
    Listed(m, o, l) && Sorted(KeysOf(IndexOf(m), o), l)
  }

  /** Memory map, counter and both lists agree. */
  ghost predicate Consistent(m: Image, use: seq<nat>, alpha: seq<nat>) {
    && InOrder(m, ByUse, use) && InOrder(m, ByName, alpha)
    && Comparable(IndexOf(m), ByName, alpha)
  }

  /** The list by use in terms of the FRAM: the counters do not grow along it. */
  lemma OrderedByUse(m: Image, use: seq<nat>, i: nat, j: nat)
    requires InOrder(m, ByUse, use) && i < j < |use|
    ensures use[i] < CAPACITY && use[j] < CAPACITY && CountAt(m, use[i]) >= CountAt(m, use[j])
  {
    hide ListIs, IndexOf, CountAt, KeysOf, Precedes;
    ComparedByUse(m, use[j], use[i]);
  }

  /** The list by name in terms of the FRAM: at the first place where two upper-cased names
    differ, the earlier one has ended or has the lower byte. */
  lemma OrderedByName(m: Image, alpha: seq<nat>, i: nat, j: nat)
    requires InOrder(m, ByName, alpha) && i < j < |alpha|
    ensures alpha[i] < CAPACITY && alpha[j] < CAPACITY
    ensures
      var a, b := Upper(CStr(NameAt(m, alpha[i]))), Upper(CStr(NameAt(m, alpha[j])));
      exists n: nat :: n <= |a| && n <= |b| && a[..n] == b[..n] && (n == |a| || (n < |b| && ToNat(a[n]) < ToNat(b[n])))
  {
    hide ListIs, IndexOf, NameAt, KeysOf, Precedes, Upper, CStr, ToNat;
    ComparedByName(m, alpha[j], alpha[i]);
    NotAfterIs(Upper(CStr(NameAt(m, alpha[i]))), Upper(CStr(NameAt(m, alpha[j]))));
  }

  /** A FRAM full of zeros is an empty store. */
  lemma ZeroedIsConsistent(m: Image)
    requires forall a: nat | a < FRAM_BYTE_SIZE :: m[a] == 0
    ensures Consistent(m, [], [])
  {
    forall id: nat | id < 8 * SIZE_MEMORY_MAP
      ensures !Used(m, id)
    {
      NoBitInZero(id % 8);
    }
    ZeroId();
  }

  lemma ZeroId()
    ensures IdOf(0, 0) == 0
  {
    IdRoundTrip(0);
    NatOfByte(0);
  }

  // ----- the memory map -----

  lemma SameMap(m: Image, m': Image, id: nat)
    requires IndexOf(m').bits == IndexOf(m).bits && id < 8 * SIZE_MEMORY_MAP
    ensures Used(m', id) == Used(m, id)
  {
    hide Bit;
    assert IndexOf(m').bits[id / 8] == m'[OFFSET_MEMORY_MAP + id / 8];
    assert IndexOf(m).bits[id / 8] == m[OFFSET_MEMORY_MAP + id / 8];
  }

  /** The byte of the memory map with the bit of an id switched. */
  function Switched(m: Image, id: nat, on: bool): bv8
    requires id < 8 * SIZE_MEMORY_MAP
  {
    var b := m[OFFSET_MEMORY_MAP + id / 8];
    if on then WithBit(b, id % 8) else WithoutBit(b, id % 8)
  }

  lemma MapSwitched(m: Image, id: nat, on: bool, j: nat)
    requires id < 8 * SIZE_MEMORY_MAP && j < 8 * SIZE_MEMORY_MAP
    ensures Used(m[OFFSET_MEMORY_MAP + id / 8 := Switched(m, id, on)], j) == if j == id then on else Used(m, j)
  {
    hide Bit, WithBit, WithoutBit;
    var b := m[OFFSET_MEMORY_MAP + id / 8];
    if j / 8 == id / 8 {
      BitAfterSet(b, id % 8, j % 8);
      BitAfterClear(b, id % 8, j % 8);
    }
  }

  // ----- pigeonhole -----

  /** Distinct ids that include all below k are at least k many. */
  lemma {:induction false} Pigeonhole(l: seq<nat>, k: nat)
    requires Distinct(l) && forall j: nat | j < k :: j in l
    ensures k <= |l|
    decreases k
  {
    if k > 0 {
      assert k - 1 in l;
      var i :| 0 <= i < |l| && l[i] == k - 1;
      DistinctWithout(l, i);
      Pigeonhole(Without(l, i), k - 1);
    }
  }

  // ----- sortedness -----

  lemma SortedByAgreement(keys: seq<Key>, keys': seq<Key>, l: seq<nat>)
    requires Keyed(keys, l) && Keyed(keys', l) && Sorted(keys, l)
    requires forall i: nat | i < |l| :: keys'[l[i]] == keys[l[i]]
    ensures Sorted(keys', l)
  {
    hide Precedes;
  }

  lemma SortedWithout(keys: seq<Key>, l: seq<nat>, i: nat)
    requires Keyed(keys, l) && Sorted(keys, l) && i < |l|
    ensures Keyed(keys, Without(l, i)) && Sorted(keys, Without(l, i))
  {
    hide Precedes, Without;
    var l' := Without(l, i);
    forall j: nat | j < |l'|
      ensures l'[j] == l[if j < i then j else j + 1]
    {
      WithoutAt(l, i, j);
    }
  }

  /** A list after it has been sorted by its new keys. */
  lemma Resorted(m: Image, m': Image, o: Order, l: seq<nat>, l': seq<nat>)
    requires Listed(m, o, l) && Relinked(IndexOf(m), IndexOf(m'), o, l)
    requires l' == ISort(KeysOf(IndexOf(m), o), l) && ListIs(IndexOf(m'), o, l')
    ensures InOrder(m', o, l')
  {
    hide IndexOf, ListIs, ISort, Precedes, Used, KeysOf, Keyed;
    var keys := KeysOf(IndexOf(m), o);
    KeyedBelow(IndexOf(m), o, l);
    SortIsStable(keys, l);
    SameKeys(IndexOf(m), IndexOf(m'), o, o);
    hide SameButLinks;
    SortedBelow(l, l');
    forall id: nat | id < 8 * SIZE_MEMORY_MAP
      ensures Used(m', id) <==> id in l'
    {
      SameBits(m, m', o);
      SameMap(m, m', id);
      SameMembers(l, l', id);
    }
    SameBits(m, m', o);
  }

  lemma SortedBelow(l: seq<nat>, l': seq<nat>)
    requires AllBelow(l) && multiset(l') == multiset(l)
    ensures AllBelow(l')
  {
    forall i: nat | i < |l'|
      ensures l'[i] < CAPACITY
    {
      SameMembers(l, l', l'[i]);
    }
  }

  lemma SameBits(m: Image, m': Image, o: Order)
    requires SameButLinks(IndexOf(m), IndexOf(m'), o)
    ensures IndexOf(m').bits == IndexOf(m).bits && IndexOf(m').num == IndexOf(m).num
  {
  }

  /** The other list does not notice that one list is relinked. */
  lemma OtherListedKept(m: Image, m': Image, o: Order, o': Order, l: seq<nat>)
    requires Listed(m, o', l) && o' != o && SameButLinks(IndexOf(m), IndexOf(m'), o)
    ensures Listed(m', o', l)
  {
    hide IndexOf, Used;
    SameBits(m, m', o);
    forall id: nat | id < 8 * SIZE_MEMORY_MAP
      ensures Used(m', id) == Used(m, id)
    {
      SameMap(m, m', id);
    }
    OtherListKept(IndexOf(m), IndexOf(m'), o, o', l);
    hide SameButLinks, ListIs;
  }

  lemma OtherOrderKept(m: Image, m': Image, o: Order, o': Order, l: seq<nat>)
    requires InOrder(m, o', l) && o' != o && SameButLinks(IndexOf(m), IndexOf(m'), o)
    ensures InOrder(m', o', l)
  {
    hide IndexOf, Precedes, KeysOf, Used, Listed;
    SameKeys(IndexOf(m), IndexOf(m'), o, o');
    OtherListedKept(m, m', o, o', l);
  }

  lemma OtherListKept(x: Index, y: Index, o: Order, o': Order, l: seq<nat>)
    requires WellFormed(x) && ListIs(x, o', l) && o' != o && SameButLinks(x, y, o)
    ensures ListIs(y, o', l)
  {
    hide SameButLinks, ListIs, Next, Prev, First;
    OtherLinks(x, y, o, o', 0);
    forall i: nat | i < |l| && l[i] < CAPACITY
      ensures Next(y, o', l[i]) == Next(x, o', l[i]) && Prev(y, o', l[i]) == Prev(x, o', l[i])
    {
      OtherLinks(x, y, o, o', l[i]);
    }
    ListFrame(x, y, o', l);
  }

  lemma OtherLinks(x: Index, y: Index, o: Order, o': Order, id: nat)
    requires SameButLinks(x, y, o) && o' != o && id < CAPACITY
    ensures WellFormed(y)
    ensures First(y, o') == First(x, o') && Next(y, o', id) == Next(x, o', id) && Prev(y, o', id) == Prev(x, o', id)
  {
  }

  // ----- what does not matter -----

  /** Secrets, backup area and entropy pool may have changed. */
  ghost predicate SameIndexed(x: Index, y: Index) {
    && WellFormed(x) && WellFormed(y) && y.heads == x.heads && y.num == x.num && y.bits == x.bits
    && forall j: nat | j < CAPACITY :: y.entries[j] == x.entries[j].(secret := y.entries[j].secret)
  }

  /** What has the same head and the same fronts of blocks is just as consistent. */
  lemma FrontsKeepConsistent(m: Image, m': Image, use: seq<nat>, alpha: seq<nat>)
    requires Consistent(m, use, alpha) && HeadOf(m') == HeadOf(m)
    requires forall id: nat | id < CAPACITY :: BlockOf(m', id)[..PWD_OFFSET_PWD_IV] == BlockOf(m, id)[..PWD_OFFSET_PWD_IV]
    ensures Consistent(m', use, alpha)
  {
    SameFronts(m, m');
    InOrderKept(m, m', ByUse, use);
    InOrderKept(m, m', ByName, alpha);
    hide InOrder, IndexOf, Terminated, SameIndexed, BlockOf, HeadOf;
    NamesStay(IndexOf(m), IndexOf(m'), alpha);
  }

  lemma NamesStay(x: Index, y: Index, l: seq<nat>)
    requires SameIndexed(x, y) && AllBelow(l) && Comparable(x, ByName, l)
    ensures Comparable(y, ByName, l)
  {
    hide Terminated;
  }

  lemma SameFronts(m: Image, m': Image)
    requires HeadOf(m') == HeadOf(m)
    requires forall id: nat | id < CAPACITY :: BlockOf(m', id)[..PWD_OFFSET_PWD_IV] == BlockOf(m, id)[..PWD_OFFSET_PWD_IV]
    ensures SameIndexed(IndexOf(m), IndexOf(m'))
  {
    hide HeadOf, EntryOf, IdOf, BlockOf;
    SameHead(m, m');
    forall j: nat | j < CAPACITY
      ensures IndexOf(m').entries[j] == IndexOf(m).entries[j].(secret := IndexOf(m').entries[j].secret)
    {
      EntryAfterSecret(BlockOf(m, j), BlockOf(m', j));
    }
    assert m'[OFFSET_MEMORY_MAP..OFFSET_BACKUP_STATUS] == m[OFFSET_MEMORY_MAP..OFFSET_BACKUP_STATUS];
  }

  lemma InOrderKept(m: Image, m': Image, o: Order, l: seq<nat>)
    requires InOrder(m, o, l) && SameIndexed(IndexOf(m), IndexOf(m'))
    ensures InOrder(m', o, l)
  {
    hide IndexOf, Used, KeyOf;
    ListFrame(IndexOf(m), IndexOf(m'), o, l);
    forall j: nat | j < 8 * SIZE_MEMORY_MAP
      ensures Used(m', j) == Used(m, j)
    {
      SameMap(m, m', j);
    }
    SameKeysOf(IndexOf(m), IndexOf(m'), o);
    hide ListIs, Sorted, KeysOf;
  }

  lemma SameKeysOf(x: Index, y: Index, o: Order)
    requires SameIndexed(x, y)
    ensures KeysOf(y, o) == KeysOf(x, o)
  {
    hide CStr, Upper;
  }

  /** The memory map of a consistent store has room at its end. */
  lemma ConsistentFits(m: Image, use: seq<nat>, alpha: seq<nat>)
    requires Consistent(m, use, alpha)
    ensures !Used(m, CAPACITY)
  {
    assert Listed(m, ByUse, use);
    hide Used, ListIs, IndexOf, InOrder, Comparable;
    assert CAPACITY !in use;
  }
}
