/** Adding and deleting credentials (Code/src/Security/Password_List.c). */
module PasswordList {
  import opened Bytes
  import opened Aes
  import opened Cbc
  import opened Memory
  import opened MemoryMap
  import opened Random
  import opened Device
  import opened Index
  import opened Lists
  import opened ListEdits
  import opened Sorting
  import opened Links
  import opened ListSort
  import opened Consistency
  import opened Navigation

  // ----- a free block -----

  ghost predicate AllUsed(m: Image, n: nat)
    requires n <= 8 * SIZE_MEMORY_MAP
  {
    forall j: nat | j < n :: Used(m, j)
  }

  /** The smallest id that is not in use. */
  ghost predicate FirstFree(m: Image, id: nat) {
    id < MAXIMUM_NUMBER_OF_PWD && !Used(m, id) && AllUsed(m, id)
  }

  /** The image with the bit of an id switched. */
  function WithSwitched(m: Image, id: nat, on: bool): Image
    requires id < 8 * SIZE_MEMORY_MAP
  {
    m[OFFSET_MEMORY_MAP + id / 8 := Switched(m, id, on)]
  }

  /** The search of pwd_list_add_pwd: the first clear bit of the memory map is set. */
  method TakeFreeChunk(w: Wallet) returns (chunkFree: bool, id: nat)
    requires w.Valid()
    modifies w.fram, w`log
    ensures chunkFree ==> FirstFree(old(w.fram[..]), id) && w.fram[..] == WithSwitched(old(w.fram[..]), id, true)
    ensures !chunkFree ==> AllUsed(w.fram[..], MAXIMUM_NUMBER_OF_PWD) && w.fram[..] == old(w.fram[..])
    ensures chunkFree ==> forall j: nat | j < 8 * SIZE_MEMORY_MAP ::
      && (j < id ==> Used(old(w.fram[..]), j)) && (j == id ==> !Used(old(w.fram[..]), j))
      && Used(w.fram[..], j) == (j == id || Used(old(w.fram[..]), j))
    ensures forall a: nat | a < FRAM_BYTE_SIZE && !(OFFSET_MEMORY_MAP <= a < OFFSET_BACKUP_STATUS) :: w.fram[a] == old(w.fram[a])
  {
    hide Used, Bit, WithBit;
    ghost var m := w.fram[..];
    chunkFree, id := false, 0;
    var i := 0;
    while i < SIZE_MEMORY_MAP && !chunkFree
      invariant 0 <= i <= SIZE_MEMORY_MAP
      invariant !chunkFree ==> w.fram[..] == m && AllUsed(m, UpTo(8 * i))
      invariant chunkFree ==> FirstFree(m, id) && w.fram[..] == WithSwitched(m, id, true)
    {
      var memoryByte := w.fram[OFFSET_MEMORY_MAP + i];
      var j := 0;
      while j < 8 && !chunkFree
        invariant 0 <= j <= 8
        invariant !chunkFree ==> w.fram[..] == m && AllUsed(m, UpTo(8 * i + j))
        invariant chunkFree ==> FirstFree(m, id) && w.fram[..] == WithSwitched(m, id, true)
      {
        if i * 8 + j >= MAXIMUM_NUMBER_OF_PWD {
          break;
        }
        MapBit(m, i, j, memoryByte);
        if !Bit(memoryByte, j) {
          chunkFree := true;
          id := i * 8 + j;
          assert id / 8 == i && id % 8 == j;
          w.FramWriteByte(OFFSET_MEMORY_MAP + i, WithBit(memoryByte, j));
        }
        j := j + 1;
      }
      i := i + 1;
    }
    if chunkFree {
      FirstFreeTaken(m, id);
    }
  }

  lemma FirstFreeTaken(m: Image, id: nat)
    requires FirstFree(m, id)
    ensures
      var m' := WithSwitched(m, id, true);
      && (forall j: nat | j < 8 * SIZE_MEMORY_MAP ::
           && (j < id ==> Used(m, j)) && (j == id ==> !Used(m, j)) && Used(m', j) == (j == id || Used(m, j)))
      && (forall a: nat | a < FRAM_BYTE_SIZE && !(OFFSET_MEMORY_MAP <= a < OFFSET_BACKUP_STATUS) :: m'[a] == m[a])
  {
    hide Used, Switched;
    forall j: nat | j < 8 * SIZE_MEMORY_MAP
      ensures Used(WithSwitched(m, id, true), j) == (j == id || Used(m, j))
    {
      MapSwitched(m, id, true, j);
    }
  }

  /** The search ends at the last id of the memory map that counts. */
  function UpTo(n: nat): (r: nat)
    ensures r <= n && r <= MAXIMUM_NUMBER_OF_PWD
  {
    if n < MAXIMUM_NUMBER_OF_PWD then n else MAXIMUM_NUMBER_OF_PWD
  }

  // ----- deleting -----

  /** One list in pwd_list_delete_pwd. */
  method UnlinkFrom(w: Wallet, o: Order, prev: nat, next: nat)
    requires w.Valid()
    requires (prev == MAXIMUM_NUMBER_OF_PWD || prev < CAPACITY) && (next == MAXIMUM_NUMBER_OF_PWD || next < CAPACITY)
    modifies w.fram, w`log
    ensures IndexOf(w.fram[..]) == Unlink(IndexOf(old(w.fram[..])), o, prev, next)
  {
    hide IndexOf, PutNext, PutPrev, PutFirst, Next, Prev, First, SameButLinks, WellFormed;
    if next != MAXIMUM_NUMBER_OF_PWD {
      SetPrev(w, o, next, prev);
    }
    if prev == MAXIMUM_NUMBER_OF_PWD {
      if next != MAXIMUM_NUMBER_OF_PWD {
        SetFirst(w, o, next);
      } else {
        SetFirst(w, o, 0);
      }
    } else {
      SetNext(w, o, prev, next);
    }
  }

  /** The list without an id. */
  function Removed(l: seq<nat>, id: nat): seq<nat> {
    if l == [] then [] else if l[0] == id then l[1..] else [l[0]] + Removed(l[1..], id)
  }

  lemma {:induction false} RemovedIs(l: seq<nat>, i: nat)
    requires Distinct(l) && i < |l|
    ensures Removed(l, l[i]) == Without(l, i)
    decreases i
  {
    if i > 0 {
      assert l[1..][i - 1] == l[i] && l[0] != l[i];
      assert Distinct(l[1..]) by {
        forall a: nat, b: nat | a < b < |l[1..]|
          ensures l[1..][a] != l[1..][b]
        {
          assert l[a + 1] != l[b + 1];
        }
      }
      RemovedIs(l[1..], i - 1);
    }
  }

  /** Both lists without an id. */
  ghost function UnlinkedBoth(x: Index, id: nat): (r: Index)
    requires WellFormed(x) && id < CAPACITY
    ensures WellFormed(r)
  {
    var x1 := Unlink(x, ByUse, Prev(x, ByUse, id), Next(x, ByUse, id));
    Unlink(x1, ByName, Prev(x, ByName, id), Next(x, ByName, id))
  }

  /** The index of a store from which a credential is taken. */
  ghost function Deleted(x: Index, id: nat, bits: seq<bv8>, num: nat, e: Entry): Index
    requires WellFormed(x) && id < CAPACITY
  {
    var x2 := UnlinkedBoth(x, id);
    x2.(bits := bits, num := num, entries := x2.entries[id := e])
  }

  /** All entries but one differ at most in their links. (Adding a credential also draws
    random bytes, so nothing is said of the entropy pool.) */
  ghost predicate OthersKept(x: Index, y: Index, id: nat) {
    && WellFormed(x) && WellFormed(y)
    && y.flag == x.flag && y.backup == x.backup && y.tail == x.tail
    && forall j: nat | j < CAPACITY && j != id :: y.entries[j] == x.entries[j].(links := y.entries[j].links)
  }

  /** The list of one order after a credential is taken out. */
  lemma DeletedList(x: Index, o: Order, l: seq<nat>, i: nat, bits: seq<bv8>, num: nat, e: Entry)
    requires WellFormed(x) && ListIs(x, o, l) && i < |l| && AllBelow(l) && |bits| == SIZE_MEMORY_MAP && |e.links| == 4
    ensures
      var y := Deleted(x, l[i], bits, num, e);
      && WellFormed(y) && ListIs(y, o, Without(l, i)) && OthersKept(x, y, l[i])
  {
    hide Unlink, Next, Prev, First, SameButLinks, ListIs, Without;
    var id := l[i];
    var o1: Order, o2: Order := ByUse, ByName;
    var x1 := Unlink(x, o1, Prev(x, o1, id), Next(x, o1, id));
    var x2 := Unlink(x1, o2, Prev(x, o2, id), Next(x, o2, id));
    var y := Deleted(x, id, bits, num, e);
    UnlinkKeepsRest(x, o1, Prev(x, o1, id), Next(x, o1, id));
    UnlinkKeepsRest(x1, o2, Prev(x, o2, id), Next(x, o2, id));
    PlaceOf(x, o, l, i);
    if o == o1 {
      Unlinked(x, o, l, i);
      OtherListKept(x1, x2, o2, o, Without(l, i));
    } else {
      OtherListKept(x, x1, o1, o, l);
      Unlinked(x1, o, l, i);
    }
    OthersKeptTwice(x, x1, x2, o1, o2, id);
    EntryReplaced(x2, y, o, Without(l, i), id);
    GoneFrom(x, o, l, i);
  }

  lemma GoneFrom(x: Index, o: Order, l: seq<nat>, i: nat)
    requires WellFormed(x) && ListIs(x, o, l) && i < |l|
    ensures l[i] !in Without(l, i)
  {
    DistinctWithout(l, i);
  }

  lemma OthersKeptTwice(x: Index, y: Index, z: Index, o: Order, o': Order, id: nat)
    requires SameButLinks(x, y, o) && SameButLinks(y, z, o')
    ensures OthersKept(x, z, id)
  {
    forall j: nat | j < CAPACITY
      ensures z.entries[j] == x.entries[j].(links := z.entries[j].links)
    {
      assert y.entries[j] == x.entries[j].(links := y.entries[j].links);
      assert z.entries[j] == y.entries[j].(links := z.entries[j].links);
    }
  }

  /** A list does not notice the entry of an id it does not hold. */
  lemma EntryReplaced(x: Index, y: Index, o: Order, l: seq<nat>, id: nat)
    requires WellFormed(x) && id < CAPACITY && |y.bits| == SIZE_MEMORY_MAP && |y.entries| == CAPACITY
    requires y == x.(bits := y.bits, num := y.num, entries := x.entries[id := y.entries[id]]) && |y.entries[id].links| == 4
    ensures WellFormed(y)
    ensures ListIs(x, o, l) && id !in l ==> ListIs(y, o, l)
  {
    if ListIs(x, o, l) && id !in l {
      ListFrame(x, y, o, l);
    }
  }

  lemma KeyKept(x: Index, y: Index, o: Order, id: nat, j: nat)
    requires OthersKept(x, y, id) && j < CAPACITY && j != id
    ensures KeysOf(y, o)[j] == KeysOf(x, o)[j] && y.entries[j].name == x.entries[j].name
  {
    hide CStr, Upper;
    assert y.entries[j] == x.entries[j].(links := y.entries[j].links);
  }

  /** One list after a deletion. */
  lemma InOrderDeleted(m: Image, m': Image, o: Order, l: seq<nat>, i: nat, e: Entry)
    requires InOrder(m, o, l) && i < |l| && |e.links| == 4
    requires IndexOf(m') == Deleted(IndexOf(m), l[i], IndexOf(m').bits, |l| - 1, e)
    requires forall j: nat | j < 8 * SIZE_MEMORY_MAP :: Used(m', j) <==> Used(m, j) && j != l[i]
    ensures InOrder(m', o, Without(l, i)) && OthersKept(IndexOf(m), IndexOf(m'), l[i])
  {
    hide IndexOf, Precedes, KeysOf, Used, ListIs, Deleted, OthersKept, Without;
    var x, y, l' := IndexOf(m), IndexOf(m'), Without(l, i);
    DeletedList(x, o, l, i, y.bits, |l| - 1, e);
    ListIsDistinct(x, o, l);
    DistinctWithout(l, i);
    DeletedNum(x, l[i], y.bits, |l| - 1, e);
    SortedWithout(KeysOf(x, o), l, i);
    forall j: nat | j < |l'|
      ensures l'[j] < CAPACITY && KeysOf(y, o)[l'[j]] == KeysOf(x, o)[l'[j]]
    {
      assert l'[j] in l' && l'[j] in l;
      KeyKept(x, y, o, l[i], l'[j]);
    }
    SortedByAgreement(KeysOf(x, o), KeysOf(y, o), l');
    HoldsWithout(m, m', l, i);
  }

  lemma ListIsDistinct(x: Index, o: Order, l: seq<nat>)
    requires WellFormed(x) && ListIs(x, o, l)
    ensures Distinct(l) && AllBelow(l)
  {
  }

  lemma DeletedNum(x: Index, id: nat, bits: seq<bv8>, num: nat, e: Entry)
    requires WellFormed(x) && id < CAPACITY
    ensures Deleted(x, id, bits, num, e).num == num
  {
  }

  lemma HoldsWithout(m: Image, m': Image, l: seq<nat>, i: nat)
    requires Holds(m, l) && i < |l| && Distinct(l)
    requires forall j: nat | j < 8 * SIZE_MEMORY_MAP :: Used(m', j) <==> Used(m, j) && j != l[i]
    ensures Holds(m', Without(l, i))
  {
    hide Used, Without;
    DistinctWithout(l, i);
  }

  lemma InOrderParts(m: Image, o: Order, l: seq<nat>)
    requires InOrder(m, o, l)
    ensures Distinct(l) && AllBelow(l) && |l| == IndexOf(m).num && ListIs(IndexOf(m), o, l) && Holds(m, l)
  {
    hide IndexOf, Used, Sorted, KeysOf, Linked, Distinct, First;
  }

  lemma PlaceIn(m: Image, o: Order, l: seq<nat>, id: nat) returns (i: nat)
    requires InOrder(m, o, l) && id in l
    ensures i < |l| && l[i] == id && id < CAPACITY && Used(m, id)
    ensures Prev(IndexOf(m), o, id) == At(l, i - 1) && Next(IndexOf(m), o, id) == At(l, i + 1)
  {
    InOrderParts(m, o, l);
    hide InOrder, IndexOf, Used, Prev, Next, ListIs;
    i :| 0 <= i < |l| && l[i] == id;
    PlaceOf(IndexOf(m), o, l, i);
  }

  lemma InBoth(m: Image, use: seq<nat>, alpha: seq<nat>, id: nat)
    requires InOrder(m, ByUse, use) && InOrder(m, ByName, alpha)
    ensures id in use <==> id in alpha
    ensures id in use ==> id < CAPACITY && Used(m, id)
    ensures |use| == |alpha|
  {
    InOrderParts(m, ByUse, use);
    InOrderParts(m, ByName, alpha);
    hide InOrder, Used, ListIs, IndexOf;
    if id in use {
      assert id < CAPACITY;
    }
    if id in alpha {
      assert id < CAPACITY;
    }
  }

  /** Everything after a deletion. */
  lemma ConsistentDeleted(m: Image, m': Image, use: seq<nat>, alpha: seq<nat>, id: nat, e: Entry)
    requires Consistent(m, use, alpha) && id in use && |e.links| == 4
    requires IndexOf(m') == Deleted(IndexOf(m), id, IndexOf(m').bits, |use| - 1, e)
    requires forall j: nat | j < 8 * SIZE_MEMORY_MAP :: Used(m', j) <==> Used(m, j) && j != id
    ensures Consistent(m', Removed(use, id), Removed(alpha, id)) && OthersKept(IndexOf(m), IndexOf(m'), id)
    ensures IndexOf(m').pool == IndexOf(m).pool
    ensures |Removed(use, id)| == |use| - 1
  {
    InOrderParts(m, ByUse, use);
    InOrderParts(m, ByName, alpha);
    InBoth(m, use, alpha, id);
    DeletedPool(IndexOf(m), id, IndexOf(m').bits, |use| - 1, e);
    hide InOrder, IndexOf, Used, Deleted, OthersKept, Without, Removed, ListIs, Distinct, Comparable;
    var i := PlaceIn(m, ByUse, use, id);
    var j := PlaceIn(m, ByName, alpha, id);
    RemovedIs(use, i);
    RemovedIs(alpha, j);
    InOrderDeleted(m, m', ByUse, use, i, e);
    InOrderDeleted(m, m', ByName, alpha, j, e);
    InOrderParts(m', ByName, Without(alpha, j));
    StillComparableWithout(IndexOf(m), IndexOf(m'), alpha, j);
  }

  lemma DeletedPool(x: Index, id: nat, bits: seq<bv8>, num: nat, e: Entry)
    requires WellFormed(x) && id < CAPACITY
    ensures Deleted(x, id, bits, num, e).pool == x.pool
  {
  }

  lemma StillComparableWithout(x: Index, y: Index, l: seq<nat>, i: nat)
    requires WellFormed(x) && AllBelow(l) && Distinct(l) && i < |l| && Comparable(x, ByName, l)
    requires OthersKept(x, y, l[i]) && AllBelow(Without(l, i))
    ensures Comparable(y, ByName, Without(l, i))
  {
    assert WellFormed(y);
    hide OthersKept, Without, Terminated;
    DistinctWithout(l, i);
    var l' := Without(l, i);
    forall k: nat | k < |l'|
      ensures y.entries[l'[k]].name == x.entries[l'[k]].name && Terminated(x.entries[l'[k]].name)
    {
      assert l'[k] in l' && l'[k] in l;
      KeyKept(x, y, ByName, l[i], l'[k]);
    }
  }

  /** The list part of pwd_list_delete_pwd. */
  method UnlinkFromBoth(w: Wallet, id: nat, ghost use: seq<nat>, ghost alpha: seq<nat>)
    requires w.Valid() && id < CAPACITY && id in use && Consistent(w.fram[..], use, alpha)
    modifies w.fram, w`log
    ensures IndexOf(w.fram[..]) == UnlinkedBoth(IndexOf(old(w.fram[..])), id)
  {
    hide Consistent, Unlink, IndexOf, Next, Prev;
    DeletingParts(w.fram[..], use, alpha, id);
    var prevUse := ReadPrev(w, ByUse, id);
    var nextUse := ReadNext(w, ByUse, id);
    var prevAlpha := ReadPrev(w, ByName, id);
    var nextAlpha := ReadNext(w, ByName, id);
    UnlinkFrom(w, ByUse, prevUse, nextUse);
    UnlinkFrom(w, ByName, prevAlpha, nextAlpha);
  }

  /** The rest of pwd_list_delete_pwd: memory map, counter and block. */
  method FreeChunk(w: Wallet, id: nat)
    requires w.Valid() && id < CAPACITY && 0 < w.numPwd
    modifies w.fram, w`log, w`numPwd
    ensures w.numPwd == old(w.numPwd) - 1
    ensures w.fram[..] == Splice(
      Splice(WithSwitched(old(w.fram[..]), id, false), OFFSET_NUM_PWD, IdBytes(w.numPwd)),
      PwdAddr(id, 0), Zeros(SIZE_OF_PWD_BLOCK))
  {
    hide WithoutBit, Splice, IdBytes;
    var memByteId := id / 8;
    var memoryByte := w.fram[OFFSET_MEMORY_MAP + memByteId];
    w.FramWriteByte(OFFSET_MEMORY_MAP + memByteId, WithoutBit(memoryByte, id % 8));
    w.numPwd := w.numPwd - 1;
    w.WriteId(OFFSET_NUM_PWD, w.numPwd);
    w.FramSet(PwdAddr(id, 0), 0, SIZE_OF_PWD_BLOCK);
    assert seq(SIZE_OF_PWD_BLOCK, _ => 0 as bv8) == Zeros(SIZE_OF_PWD_BLOCK);
  }

  /** A credential is out of both lists, its block is zeroed, the others differ at most in
    their links, and no random byte was drawn. */
  ghost predicate IsDeleted(m: Image, m': Image, use: seq<nat>, alpha: seq<nat>, id: nat) {
    && Consistent(m', Removed(use, id), Removed(alpha, id))
    && OthersKept(IndexOf(m), IndexOf(m'), id)
    && id < CAPACITY && BlockOf(m', id) == Zeros(SIZE_OF_PWD_BLOCK)
    && IndexOf(m').pool == IndexOf(m).pool
  }

  /** pwd_list_delete_pwd */
  method DeletePwd(w: Wallet, id: nat, ghost use: seq<nat>, ghost alpha: seq<nat>)
    requires w.Valid() && w.numPwd == |use| && id in use && Consistent(w.fram[..], use, alpha)
    modifies w.fram, w`log, w`numPwd
    ensures w.numPwd == |use| - 1 == |Removed(use, id)|
    ensures IsDeleted(old(w.fram[..]), w.fram[..], use, alpha, id)
  {
    hide Consistent, UnlinkedBoth, Removed, OthersKept, Used, WithSwitched, Splice, EntryOf, IndexOf;
    hide BlockOf, IdBytes;
    ghost var m := w.fram[..];
    DeletingParts(m, use, alpha, id);
    UnlinkFromBoth(w, id, use, alpha);
    ghost var m2 := w.fram[..];
    FreeChunk(w, id);
    DeletedImages(m, m2, w.fram[..], id, |use| - 1);
    ConsistentDeleted(m, w.fram[..], use, alpha, id, EntryOf(Zeros(SIZE_OF_PWD_BLOCK)));
  }

  lemma DeletingParts(m: Image, use: seq<nat>, alpha: seq<nat>, id: nat)
    requires Consistent(m, use, alpha) && id in use
    ensures id < CAPACITY && 0 < |use| <= CAPACITY
    ensures forall o :: Prev(IndexOf(m), o, id) == MAXIMUM_NUMBER_OF_PWD || Prev(IndexOf(m), o, id) < CAPACITY
    ensures forall o :: Next(IndexOf(m), o, id) == MAXIMUM_NUMBER_OF_PWD || Next(IndexOf(m), o, id) < CAPACITY
  {
    hide InOrder, Prev, Next, IndexOf, Comparable;
    InBoth(m, use, alpha, id);
    LinksInRange(m, ByUse, use, id);
    LinksInRange(m, ByName, alpha, id);
    Numbered(m, ByUse, use);
    forall o: Order
      ensures Prev(IndexOf(m), o, id) == MAXIMUM_NUMBER_OF_PWD || Prev(IndexOf(m), o, id) < CAPACITY
      ensures Next(IndexOf(m), o, id) == MAXIMUM_NUMBER_OF_PWD || Next(IndexOf(m), o, id) < CAPACITY
    {
      assert o == ByUse || o == ByName;
    }
  }

  lemma LinksInRange(m: Image, o: Order, l: seq<nat>, id: nat)
    requires InOrder(m, o, l) && id in l
    ensures id < CAPACITY
    ensures Prev(IndexOf(m), o, id) == MAXIMUM_NUMBER_OF_PWD || Prev(IndexOf(m), o, id) < CAPACITY
    ensures Next(IndexOf(m), o, id) == MAXIMUM_NUMBER_OF_PWD || Next(IndexOf(m), o, id) < CAPACITY
  {
    InOrderParts(m, o, l);
    hide InOrder, IndexOf, Used, Prev, Next, ListIs;
    var i := PlaceIn(m, o, l, id);
  }

  /** There are no more credentials than blocks. */
  lemma Numbered(m: Image, o: Order, l: seq<nat>)
    requires InOrder(m, o, l)
    ensures |l| == IndexOf(m).num <= CAPACITY
  {
    InOrderParts(m, o, l);
    hide InOrder;
    BoundedDistinct(l, CAPACITY);
  }

  lemma {:induction false} BoundedDistinct(l: seq<nat>, n: nat)
    requires Distinct(l) && forall i: nat | i < |l| :: l[i] < n
    ensures |l| <= n
    decreases n
  {
    if l != [] {
      assert l[0] < n;
      if n - 1 in l {
        var i :| 0 <= i < |l| && l[i] == n - 1;
        DistinctWithout(l, i);
        var l' := Without(l, i);
        assert |l'| == |l| - 1;
        forall j: nat | j < |l'|
          ensures l'[j] < n - 1
        {
          assert l'[j] in l' && l'[j] in l;
        }
        BoundedDistinct(l', n - 1);
      } else {
        forall j: nat | j < |l|
          ensures l[j] < n - 1
        {
          assert l[j] in l;
        }
        BoundedDistinct(l, n - 1);
      }
    }
  }

  /** The images of a deletion: both lists relinked, the bit cleared, the counter written, the block zeroed. */
  lemma DeletedImages(m: Image, m2: Image, m5: Image, id: nat, num: nat)
    requires id < CAPACITY && num < 65536 && IndexOf(m2) == UnlinkedBoth(IndexOf(m), id)
    requires
      var m4 := Splice(WithSwitched(m2, id, false), OFFSET_NUM_PWD, IdBytes(num));
      m5 == Splice(m4, PwdAddr(id, 0), Zeros(SIZE_OF_PWD_BLOCK))
    ensures IndexOf(m5) == Deleted(IndexOf(m), id, IndexOf(m5).bits, num, EntryOf(Zeros(SIZE_OF_PWD_BLOCK)))
    ensures forall j: nat | j < 8 * SIZE_MEMORY_MAP :: Used(m5, j) <==> Used(m, j) && j != id
    ensures BlockOf(m5, id) == Zeros(SIZE_OF_PWD_BLOCK)
  {
    var zeros := Zeros(SIZE_OF_PWD_BLOCK);
    hide IndexOf, EntryOf, IdBytes, UnlinkedBoth, Used, WithSwitched, Zeros, Splice, BlockOf;
    var m3 := WithSwitched(m2, id, false);
    IndexAfterSwitch(m2, id, false);
    IndexAfterNum(m3, num);
    ZeroedBlock(Splice(m3, OFFSET_NUM_PWD, IdBytes(num)), id);
    UnlinkedBothBits(IndexOf(m), id);
    forall j: nat | j < 8 * SIZE_MEMORY_MAP
      ensures Used(m5, j) <==> Used(m, j) && j != id
    {
      SameMap(m3, m5, j);
      SameMap(m, m2, j);
    }
    DeletedFields(IndexOf(m), IndexOf(m5), id, num, EntryOf(zeros));
  }

  lemma IndexAfterSwitch(m: Image, id: nat, on: bool)
    requires id < 8 * SIZE_MEMORY_MAP
    ensures IndexOf(WithSwitched(m, id, on)) == IndexOf(m).(bits := IndexOf(WithSwitched(m, id, on)).bits)
    ensures forall j: nat | j < 8 * SIZE_MEMORY_MAP :: Used(WithSwitched(m, id, on), j) == if j == id then on else Used(m, j)
  {
    hide IndexOf, Used, Switched;
    IndexAfterMapByte(m, id / 8, Switched(m, id, on));
    forall j: nat | j < 8 * SIZE_MEMORY_MAP
      ensures Used(WithSwitched(m, id, on), j) == if j == id then on else Used(m, j)
    {
      MapSwitched(m, id, on, j);
    }
  }

  lemma ZeroedBlock(m: Image, id: nat)
    requires id < CAPACITY
    ensures
      var m' := Splice(m, PwdAddr(id, 0), Zeros(SIZE_OF_PWD_BLOCK));
      && IndexOf(m') == IndexOf(m).(entries := IndexOf(m).entries[id := EntryOf(Zeros(SIZE_OF_PWD_BLOCK))])
      && BlockOf(m', id) == Zeros(SIZE_OF_PWD_BLOCK)
  {
    hide IndexOf, EntryOf, Splice, Zeros;
    var zeros := Zeros(SIZE_OF_PWD_BLOCK);
    IndexAfterSplice(m, id, 0, zeros);
    WholeBlock(BlockOf(m, id), zeros);
    SpliceInWindow(m, PwdAddr(id, 0), zeros, PwdAddr(id, 0), PwdAddr(id, SIZE_OF_PWD_BLOCK));
  }

  lemma UnlinkedBothBits(x: Index, id: nat)
    requires WellFormed(x) && id < CAPACITY
    ensures UnlinkedBoth(x, id) == x.(heads := UnlinkedBoth(x, id).heads, entries := UnlinkedBoth(x, id).entries)
  {
    hide Unlink, Next, Prev;
    var x1 := Unlink(x, ByUse, Prev(x, ByUse, id), Next(x, ByUse, id));
    UnlinkKeepsRest(x, ByUse, Prev(x, ByUse, id), Next(x, ByUse, id));
    UnlinkKeepsRest(x1, ByName, Prev(x, ByName, id), Next(x, ByName, id));
  }

  lemma DeletedFields(x: Index, y: Index, id: nat, num: nat, e: Entry)
    requires WellFormed(x) && id < CAPACITY
    requires
      var x2 := UnlinkedBoth(x, id);
      y == x2.(bits := y.bits, num := num, entries := x2.entries[id := e])
    ensures y == Deleted(x, id, y.bits, num, e)
  {
    hide UnlinkedBoth;
  }

  lemma WholeBlock(b: seq<bv8>, t: seq<bv8>)
    requires |b| == |t|
    ensures Splice(b, 0, t) == t
  {
  }

  // ----- adding -----

  method SetCounter(w: Wallet, id: nat, v: nat)
    requires w.Valid() && id < CAPACITY && v < 65536
    modifies w.fram, w`log
    ensures IndexOf(w.fram[..]) == WithEntry(IndexOf(old(w.fram[..])), id, EntryAt(IndexOf(old(w.fram[..])), id).(count := v))
  {
    hide Splice, EntryOf, BlockOf, IdBytes;
    IndexAfterSplice(w.fram[..], id, PWD_OFFSET_PWD_COUNT, IdBytes(v));
    EntryAfterCount(BlockOf(w.fram[..], id), v);
    w.WriteId(PwdAddr(id, PWD_OFFSET_PWD_COUNT), v);
  }

  ghost function EntryAt(x: Index, id: nat): (e: Entry)
    requires WellFormed(x) && id < CAPACITY
    ensures |e.links| == 4
  {
    x.entries[id]
  }

  ghost function WithEntry(x: Index, id: nat, e: Entry): (r: Index)
    requires WellFormed(x) && id < CAPACITY && |e.links| == 4
    ensures WellFormed(r)
  {
    x.(entries := x.entries[id := e])
  }

  /** password_set_name */
  method SetName(w: Wallet, id: nat, name: array<bv8>)
    requires w.Valid() && id < CAPACITY && name.Length == 32 && name != w.fram
    modifies w.fram, w`log
    ensures IndexOf(w.fram[..]) ==
      WithEntry(IndexOf(old(w.fram[..])), id, EntryAt(IndexOf(old(w.fram[..])), id).(name := name[..]))
  {
    hide Splice, EntryOf, BlockOf;
    assert name[..32] == name[..];
    IndexAfterSplice(w.fram[..], id, PWD_OFFSET_PWD_NAME, name[..]);
    EntryAfterName(BlockOf(w.fram[..], id), name[..]);
    w.FramWriteBytes(PwdAddr(id, PWD_OFFSET_PWD_NAME), name, 32);
  }

  /** A text written into a block changes only what is secret in it. */
  lemma TextIndex(m: Image, id: nat, ivOff: nat, off: nat, text: seq<bv8>, k: Block, iv: Block)
    requires id < CAPACITY && PWD_OFFSET_PWD_IV <= ivOff && ivOff + 16 <= off && off + |text| <= SIZE_OF_PWD_BLOCK
    ensures
      var m' := WithText(m, PwdAddr(id, ivOff), PwdAddr(id, off), text, k, iv);
      && BlockOf(m', id) == WithText(BlockOf(m, id), ivOff, off, text, k, iv)
      && IndexOf(m') == WithEntry(IndexOf(m), id, EntryAt(IndexOf(m), id).(secret := EntryOf(BlockOf(m', id)).secret))
  {
    hide Splice, EntryOf, IndexOf, CbcEncrypt;
    var a, b := PwdAddr(id, 0), PwdAddr(id, SIZE_OF_PWD_BLOCK);
    var e := CbcEncrypt(k, iv, text);
    var m1: Image := Splice(m, a + ivOff, iv);
    var m2: Image := Splice(m1, a + off, e);
    SpliceInWindow(m, a + ivOff, iv, a, b);
    SpliceInWindow(m1, a + off, e, a, b);
    SpliceKeepsEnds(m, a + ivOff, iv, a, b);
    SpliceKeepsEnds(m1, a + off, e, a, b);
    IndexAfterBlock(m, m2, id);
    WithTextKeepsFront(BlockOf(m, id), ivOff, off, text, k, iv, PWD_OFFSET_PWD_IV);
    EntryAfterSecret(BlockOf(m, id), BlockOf(m2, id));
    EntryIs(m, id);
  }

  lemma EntryIs(m: Image, id: nat)
    requires id < CAPACITY
    ensures IndexOf(m).entries[id] == EntryOf(BlockOf(m, id))
  {
  }

  /** Whether an entry is that of a new credential. */
  ghost predicate Fresh(x: Index, y: Index, id: nat, name: seq<bv8>)
    requires WellFormed(x) && WellFormed(y) && id < CAPACITY
  {
    y == WithEntry(x, id, EntryAt(x, id).(count := 0, name := name, secret := EntryAt(y, id).secret)).(pool := y.pool)
  }

  /** What pwd_list_add_pwd puts into the block beside the links. */
  method FillBlock(w: Wallet, id: nat, name: array<bv8>, data: array<bv8>, usr: array<bv8>)
    requires w.Valid() && id < CAPACITY && name.Length == data.Length == 32 && usr.Length == 64
    requires name !in {w.fram, w.key} && {data, usr} !! {w.fram, w.eeprom, w.key, name} && data != usr
    modifies data, usr, w.key, w.fram, w`log, w`poolSize, w`ticks
    ensures w.key[..] == old(w.key[..])
    ensures Fresh(IndexOf(old(w.fram[..])), IndexOf(w.fram[..]), id, name[..])
    ensures DataOf(w.fram[..], id, w.key[..]) == Strip(old(data[..]))
    ensures UsrOf(w.fram[..], id, w.key[..]) == Strip(old(usr[..]))
  {
    hide IndexOf, EntryOf, BlockOf, Strip, DataOf, UsrOf, WithText, WithPool, PoolOf, DrawBytes;
    ghost var k: Block, d, u := w.key[..], data[..], usr[..];
    SetCounter(w, id, 0);
    SetName(w, id, name);
    ghost var m := w.fram[..];
    ghost var iv := w.SetData(id, data, w.key);
    ghost var m1 := w.fram[..];
    TextDrawn(m, PoolOf(m1), id, PWD_OFFSET_PWD_IV, PWD_OFFSET_PWD_DATA, d, k, DrawBytes(iv));
    ghost var iv' := w.SetUsrName(id, usr, w.key);
    TextDrawn(m1, PoolOf(w.fram[..]), id, PWD_OFFSET_USR_IV, PWD_OFFSET_USR_NAME, u, k, DrawBytes(iv'));
    BothTexts(m, m1, w.fram[..], id, d, u, k, DrawBytes(iv), DrawBytes(iv'));
  }

  /** A text written with a random IV changes the entropy pool and what is secret in the block. */
  lemma TextDrawn(m: Image, pool: seq<bv8>, id: nat, ivOff: nat, off: nat, text: seq<bv8>, k: Block, iv: Block)
    requires id < CAPACITY && PWD_OFFSET_PWD_IV <= ivOff && ivOff + 16 <= off && off + |text| <= SIZE_OF_PWD_BLOCK
    requires |pool| == SIZE_ENTROPY_POOL
    ensures
      var m' := WithText(WithPool(m, pool), PwdAddr(id, ivOff), PwdAddr(id, off), text, k, iv);
      && BlockOf(m', id) == WithText(BlockOf(m, id), ivOff, off, text, k, iv)
      && IndexOf(m') == WithEntry(IndexOf(m), id,
           EntryAt(IndexOf(m), id).(secret := EntryOf(BlockOf(m', id)).secret)).(pool := pool)
  {
    hide IndexOf, EntryOf, BlockOf, WithText, WithPool;
    IndexAfterPool(m, pool);
    PoolApart(m, pool, id);
    TextIndex(WithPool(m, pool), id, ivOff, off, text, k, iv);
  }

  lemma BothTexts(m: Image, m1: Image, m2: Image, id: nat, d: seq<bv8>, u: seq<bv8>, k: Block, iv: Block, iv': Block)
    requires id < CAPACITY && |d| == 32 && |u| == 64
    requires BlockOf(m1, id) == WithText(BlockOf(m, id), PWD_OFFSET_PWD_IV, PWD_OFFSET_PWD_DATA, d, k, iv)
    requires BlockOf(m2, id) == WithText(BlockOf(m1, id), PWD_OFFSET_USR_IV, PWD_OFFSET_USR_NAME, u, k, iv')
    ensures DataOf(m2, id, k) == Strip(d) && UsrOf(m2, id, k) == Strip(u)
  {
    hide WithText, TextIn, Strip, BlockOf;
    var di, dd, ui, uu := PWD_OFFSET_PWD_IV, PWD_OFFSET_PWD_DATA, PWD_OFFSET_USR_IV, PWD_OFFSET_USR_NAME;
    CredentialRoundTrip(BlockOf(m, id), di, dd, d, k, iv);
    CredentialRoundTrip(BlockOf(m1, id), ui, uu, u, k, iv');
    OtherTextKept(BlockOf(m1, id), ui, uu, u, k, iv', di, dd, 32, k);
  }

  /** Both lists with an id at their ends, in the order of the writes of pwd_list_add_pwd. */
  ghost function AppendedBoth(x: Index, lastUse: nat, lastAlpha: nat, id: nat): (r: Index)
    requires WellFormed(x) && id < CAPACITY
    ensures WellFormed(r)
  {
    var x1 := if lastUse < CAPACITY then PutNext(x, ByUse, lastUse, id) else x;
    var x2 := if lastAlpha < CAPACITY then PutNext(x1, ByName, lastAlpha, id) else x1;
    var x3 := PutNext(PutPrev(x2, ByUse, id, lastUse), ByUse, id, MAXIMUM_NUMBER_OF_PWD);
    PutNext(PutPrev(x3, ByName, id, lastAlpha), ByName, id, MAXIMUM_NUMBER_OF_PWD)
  }

  /** The order of the writes does not matter for a list. */
  lemma AppendedBothLinks(x: Index, lastUse: nat, lastAlpha: nat, id: nat, o: Order, j: nat)
    requires WellFormed(x) && id < CAPACITY && j < CAPACITY && lastUse != id && lastAlpha != id
    ensures
      var r, r' := AppendedBoth(x, lastUse, lastAlpha, id), Append(x, o, if o.ByUse? then lastUse else lastAlpha, id);
      First(r, o) == First(r', o) && Next(r, o, j) == Next(r', o, j) && Prev(r, o, j) == Prev(r', o, j)
  {
    hide PutNext, PutPrev, First, Next, Prev, WellFormed;
    var x1 := if lastUse < CAPACITY then PutNext(x, ByUse, lastUse, id) else x;
    var x2 := if lastAlpha < CAPACITY then PutNext(x1, ByName, lastAlpha, id) else x1;
    var x3 := PutPrev(x2, ByUse, id, lastUse);
    var x4 := PutNext(x3, ByUse, id, MAXIMUM_NUMBER_OF_PWD);
    var x5 := PutPrev(x4, ByName, id, lastAlpha);
    var r := PutNext(x5, ByName, id, MAXIMUM_NUMBER_OF_PWD);
    if o.ByUse? {
      if lastAlpha < CAPACITY { OtherLinks(x1, x2, ByName, o, j); }
      OtherLinks(x4, x5, ByName, o, j);
      OtherLinks(x5, r, ByName, o, j);
    } else {
      if lastUse < CAPACITY { OtherLinks(x, x1, ByUse, o, j); }
      OtherLinks(x2, x3, ByUse, o, j);
      OtherLinks(x3, x4, ByUse, o, j);
    }
    hide SameButLinks;
  }

  lemma AppendedBothRest(x: Index, lastUse: nat, lastAlpha: nat, id: nat)
    requires WellFormed(x) && id < CAPACITY
    ensures
      var r := AppendedBoth(x, lastUse, lastAlpha, id);
      && LinksOnly(x, r) && OthersKept(x, r, id) && r == x.(entries := r.entries)
      && EntryAt(r, id) == EntryAt(x, id).(links := EntryAt(r, id).links)
  {
    hide First, Next, Prev, LinksOnly, PutNext, PutPrev, SameButLinks;
    var x1 := if lastUse < CAPACITY then PutNext(x, ByUse, lastUse, id) else x;
    var x2 := if lastAlpha < CAPACITY then PutNext(x1, ByName, lastAlpha, id) else x1;
    var x3 := PutPrev(x2, ByUse, id, lastUse);
    var x4 := PutNext(x3, ByUse, id, MAXIMUM_NUMBER_OF_PWD);
    var x5 := PutPrev(x4, ByName, id, lastAlpha);
    PutChangesLinks(x, ByUse, if lastUse < CAPACITY then lastUse else 0, id);
    PutChangesLinks(x1, ByName, if lastAlpha < CAPACITY then lastAlpha else 0, id);
    PutChangesLinks(x2, ByUse, id, lastUse);
    PutChangesLinks(x3, ByUse, id, MAXIMUM_NUMBER_OF_PWD);
    PutChangesLinks(x4, ByName, id, lastAlpha);
    PutChangesLinks(x5, ByName, id, MAXIMUM_NUMBER_OF_PWD);
    LinksOnlyTwice(x, x1, x2);
    LinksOnlyTwice(x, x2, x3);
    LinksOnlyTwice(x, x3, x4);
    LinksOnlyTwice(x, x4, x5);
    LinksOnlyTwice(x, x5, AppendedBoth(x, lastUse, lastAlpha, id));
    OthersOfLinksOnly(x, AppendedBoth(x, lastUse, lastAlpha, id), id);
  }

  lemma PutChangesLinks(x: Index, o: Order, id: nat, v: nat)
    requires WellFormed(x) && id < CAPACITY
    ensures LinksOnly(x, x) && LinksOnly(x, PutNext(x, o, id, v)) && LinksOnly(x, PutPrev(x, o, id, v))
    ensures PutNext(x, o, id, v).heads == PutPrev(x, o, id, v).heads == x.heads
  {
  }

  lemma OthersOfLinksOnly(x: Index, y: Index, id: nat)
    requires LinksOnly(x, y) && id < CAPACITY
    ensures OthersKept(x, y, id) && EntryAt(y, id) == EntryAt(x, id).(links := EntryAt(y, id).links)
    ensures y == x.(heads := y.heads, entries := y.entries)
  {
  }

  /** The linking part of pwd_list_add_pwd. */
  method LinkAtEnds(w: Wallet, id: nat, ghost use: seq<nat>, ghost alpha: seq<nat>)
    requires w.Valid() && id < CAPACITY && w.numPwd == |use| == |alpha|
    requires ListIs(IndexOf(w.fram[..]), ByUse, use) && ListIs(IndexOf(w.fram[..]), ByName, alpha)
    modifies w.fram, w`log
    ensures IndexOf(w.fram[..]) ==
      AppendedBoth(IndexOf(old(w.fram[..])), At(use, |use| - 1), At(alpha, |alpha| - 1), id)
  {
    hide IndexOf, ListIs, PutNext, PutPrev, Next, Prev, First, SameButLinks, WellFormed;
    var prevUse, nextUse := MAXIMUM_NUMBER_OF_PWD, MAXIMUM_NUMBER_OF_PWD;
    var prevAlpha, nextAlpha := MAXIMUM_NUMBER_OF_PWD, MAXIMUM_NUMBER_OF_PWD;
    if w.numPwd != 0 {
      LastFromFirst(IndexOf(w.fram[..]), ByUse, use);
      LastFromFirst(IndexOf(w.fram[..]), ByName, alpha);
      var firstUse := ReadFirst(w, ByUse);
      prevUse := PrevSorted(w, ByUse, firstUse, use);
      var firstAlpha := ReadFirst(w, ByName);
      prevAlpha := PrevSorted(w, ByName, firstAlpha, alpha);
      SetNext(w, ByUse, prevUse, id);
      SetNext(w, ByName, prevAlpha, id);
    }
    SetPrev(w, ByUse, id, prevUse);
    SetNext(w, ByUse, id, nextUse);
    SetPrev(w, ByName, id, prevAlpha);
    SetNext(w, ByName, id, nextAlpha);
  }

  lemma LastFromFirst(x: Index, o: Order, l: seq<nat>)
    requires WellFormed(x) && ListIs(x, o, l) && l != []
    ensures First(x, o) in l && PrevIn(l, First(x, o)) == At(l, |l| - 1) && At(l, |l| - 1) < CAPACITY
  {
    FirstIs(x, o, l);
    BelowMark(x, o, l);
    OnlyPlace(l, 0);
  }

  /** Both sorts, for lists that hold the right ids in any order. */
  method SortBoth(w: Wallet, ghost use: seq<nat>, ghost alpha: seq<nat>)
    requires w.Valid() && w.numPwd == |use| == |alpha|
    requires Listed(w.fram[..], ByUse, use) && Listed(w.fram[..], ByName, alpha)
    requires Comparable(IndexOf(w.fram[..]), ByName, alpha)
    modifies w.fram, w`log
    ensures Keyed(KeysOf(IndexOf(old(w.fram[..])), ByUse), use) && Keyed(KeysOf(IndexOf(old(w.fram[..])), ByName), alpha)
    ensures Consistent(w.fram[..], ISort(KeysOf(IndexOf(old(w.fram[..])), ByUse), use),
      ISort(KeysOf(IndexOf(old(w.fram[..])), ByName), alpha))
    ensures LinksOnly(IndexOf(old(w.fram[..])), IndexOf(w.fram[..]))
  {
    hide IndexOf, ListIs, Comparable, Holds, KeysOf, ISort, Relinked, SameButLinks, LinksOnly, Sorted;
    ghost var m := w.fram[..];
    KeyedBelow(IndexOf(m), ByUse, use);
    KeyedBelow(IndexOf(m), ByName, alpha);
    NothingCompared(IndexOf(m), use);
    Sort(w, ByUse, use);
    ghost var m1 := w.fram[..];
    RelinkedParts(IndexOf(m), IndexOf(m1), ByUse, use, alpha);
    Resorted(m, m1, ByUse, use, ISort(KeysOf(IndexOf(m), ByUse), use));
    OtherListedKept(m, m1, ByUse, ByName, alpha);
    Sort(w, ByName, alpha);
    ComparableSorted(IndexOf(m1), alpha);
    RelinkedParts(IndexOf(m1), IndexOf(w.fram[..]), ByName, alpha, ISort(KeysOf(IndexOf(m1), ByName), alpha));
    Resorted(m1, w.fram[..], ByName, alpha, ISort(KeysOf(IndexOf(m1), ByName), alpha));
    OtherOrderKept(m1, w.fram[..], ByName, ByUse, ISort(KeysOf(IndexOf(m), ByUse), use));
    LinksOnlyTwice(IndexOf(m), IndexOf(m1), IndexOf(w.fram[..]));
  }

  /** Two indices that differ at most in heads and links. */
  ghost predicate LinksOnly(x: Index, y: Index) {
    && WellFormed(x) && WellFormed(y) && y == x.(heads := y.heads, entries := y.entries)
    && forall j: nat | j < CAPACITY :: y.entries[j] == x.entries[j].(links := y.entries[j].links)
  }

  lemma LinksOnlyTwice(x: Index, y: Index, z: Index)
    requires LinksOnly(x, y) && LinksOnly(y, z)
    ensures LinksOnly(x, z)
  {
    forall j: nat | j < CAPACITY
      ensures z.entries[j] == x.entries[j].(links := z.entries[j].links)
    {
      assert y.entries[j] == x.entries[j].(links := y.entries[j].links);
      assert z.entries[j] == y.entries[j].(links := z.entries[j].links);
    }
  }

  lemma ComparableSorted(x: Index, l: seq<nat>)
    requires WellFormed(x) && AllBelow(l) && Comparable(x, ByName, l)
    ensures Keyed(KeysOf(x, ByName), l) && AllBelow(ISort(KeysOf(x, ByName), l))
    ensures Comparable(x, ByName, ISort(KeysOf(x, ByName), l))
  {
    hide Terminated, ISort, KeysOf, Sorted;
    KeyedBelow(x, ByName, l);
    var l' := ISort(KeysOf(x, ByName), l);
    SortIsStable(KeysOf(x, ByName), l);
    SortedBelow(l, l');
    forall i: nat | i < |l'|
      ensures l'[i] in l
    {
      SameMembers(l, l', l'[i]);
    }
  }

  lemma NothingCompared(x: Index, l: seq<nat>)
    requires WellFormed(x) && AllBelow(l)
    ensures Comparable(x, ByUse, l)
  {
  }

  lemma RelinkedParts(x: Index, y: Index, o: Order, l: seq<nat>, alpha: seq<nat>)
    requires Relinked(x, y, o, l)
    ensures LinksOnly(x, y) && SameButLinks(x, y, o) && KeysOf(y, ByName) == KeysOf(x, ByName)
    ensures AllBelow(alpha) && Comparable(x, ByName, alpha) ==> Comparable(y, ByName, alpha)
  {
    hide KeysOf, Terminated;
    SameKeys(x, y, o, ByName);
    LinksOnlyOf(x, y, o);
    if AllBelow(alpha) && Comparable(x, ByName, alpha) {
      LinksOnlyComparable(x, y, alpha);
    }
  }

  lemma LinksOnlyOf(x: Index, y: Index, o: Order)
    requires SameButLinks(x, y, o)
    ensures LinksOnly(x, y)
  {
  }

  lemma LinksOnlyComparable(x: Index, y: Index, l: seq<nat>)
    requires LinksOnly(x, y) && AllBelow(l) && Comparable(x, ByName, l)
    ensures Comparable(y, ByName, l)
  {
    hide Terminated;
    forall i: nat | i < |l|
      ensures y.entries[l[i]].name == x.entries[l[i]].name
    {
      assert y.entries[l[i]] == x.entries[l[i]].(links := y.entries[l[i]].links);
    }
  }

  /** By the pigeonhole principle the first free id is at most the number of credentials. */
  lemma FirstFreeIsSmall(m: Image, use: seq<nat>, alpha: seq<nat>, id: nat)
    requires InOrder(m, ByUse, use) && InOrder(m, ByName, alpha) && FirstFree(m, id)
    ensures id <= |use| && id !in use && id !in alpha
    ensures |use| == |alpha| && (use == [] ==> id == 0)
  {
    InOrderParts(m, ByUse, use);
    InOrderParts(m, ByName, alpha);
    hide InOrder, Used, ListIs, IndexOf;
    Pigeonhole(use, id);
  }

  /** Memory map and links as they are while the new block is filled. */
  lemma BitsApart(x: Index, y: Index, o: Order, l: seq<nat>)
    requires WellFormed(x) && WellFormed(y) && y == x.(bits := y.bits, num := y.num) && ListIs(x, o, l)
    ensures ListIs(y, o, l)
  {
    hide Linked, Distinct;
    assert Linked(y, o, l) by {
      ListFrame(x, y, o, l);
    }
  }

  lemma AddedList(x: Index, y: Index, x2: Index, use: seq<nat>, alpha: seq<nat>, o: Order, id: nat, name: seq<bv8>)
    requires WellFormed(x) && WellFormed(y) && WellFormed(x2) && id < CAPACITY
    requires ListIs(x, ByUse, use) && ListIs(x, ByName, alpha)
    requires id !in use && id !in alpha && (use == [] ==> id == 0) && |use| == |alpha|
    requires x2 == AppendedBoth(x.(bits := y.bits), At(use, |use| - 1), At(alpha, |alpha| - 1), id)
    requires Fresh(x2, y.(num := x2.num), id, name)
    ensures ListIs(y, o, (if o.ByUse? then use else alpha) + [id])
  {
    var l := if o.ByUse? then use else alpha;
    var last := At(l, |l| - 1);
    var x1 := x.(bits := y.bits);
    hide ListIs, Fresh, AppendedBoth, Append, First, Next, Prev;
    BitsApart(x, x1, o, l);
    Appended(x1, o, l, id);
    NotLast(use, id);
    NotLast(alpha, id);
    var r := Append(x1, o, last, id);
    forall j: nat | j < CAPACITY
      ensures First(y, o) == First(r, o) && Next(y, o, j) == Next(r, o, j) && Prev(y, o, j) == Prev(r, o, j)
    {
      AppendedBothLinks(x1, At(use, |use| - 1), At(alpha, |alpha| - 1), id, o, j);
      FreshLinks(x2, y, id, name, o, j);
    }
    AppendedBothLinks(x1, At(use, |use| - 1), At(alpha, |alpha| - 1), id, o, id);
    FreshLinks(x2, y, id, name, o, id);
    assert First(y, o) == First(r, o);
    ListFrame(r, y, o, l + [id]);
  }

  lemma FreshLinks(x: Index, y: Index, id: nat, name: seq<bv8>, o: Order, j: nat)
    requires WellFormed(x) && WellFormed(y) && id < CAPACITY && j < CAPACITY && Fresh(x, y.(num := x.num), id, name)
    ensures First(y, o) == First(x, o) && Next(y, o, j) == Next(x, o, j) && Prev(y, o, j) == Prev(x, o, j)
  {
    assert y.entries[j].links == x.entries[j].links;
  }

  /** What has been added is listed in both orders, though not sorted in. */
  lemma AddedListed(m: Image, m': Image, x2: Index, use: seq<nat>, alpha: seq<nat>, id: nat, name: seq<bv8>)
    requires Consistent(m, use, alpha) && FirstFree(m, id) && id < CAPACITY && Terminated(name)
    requires WellFormed(x2)
    requires x2 == AppendedBoth(IndexOf(m).(bits := IndexOf(m').bits), At(use, |use| - 1), At(alpha, |alpha| - 1), id)
    requires Fresh(x2, IndexOf(m').(num := x2.num), id, name) && IndexOf(m').num == |use| + 1
    requires forall j: nat | j < 8 * SIZE_MEMORY_MAP :: Used(m', j) <==> Used(m, j) || j == id
    ensures Listed(m', ByUse, use + [id]) && Listed(m', ByName, alpha + [id])
    ensures OthersKept(IndexOf(m), IndexOf(m'), id)
    ensures EntryAt(IndexOf(m'), id).count == 0 && EntryAt(IndexOf(m'), id).name == name
    ensures Comparable(IndexOf(m'), ByName, alpha + [id])
  {
    FirstFreeIsSmall(m, use, alpha, id);
    InOrderParts(m, ByUse, use);
    InOrderParts(m, ByName, alpha);
    hide InOrder, IndexOf, Used, ListIs, AppendedBoth, Fresh, OthersKept, Comparable, Terminated, FirstFree;
    var x, y := IndexOf(m), IndexOf(m');
    AddedList(x, y, x2, use, alpha, ByUse, id, name);
    AddedList(x, y, x2, use, alpha, ByName, id, name);
    AddedRest(x, y, x2, At(use, |use| - 1), At(alpha, |alpha| - 1), id, name);
    AddedComparable(x, y, alpha, id);
    HoldsOneMore(m, m', use, id);
    HoldsOneMore(m, m', alpha, id);
    BelowOneMore(use, id);
    BelowOneMore(alpha, id);
  }

  lemma BelowOneMore(l: seq<nat>, id: nat)
    requires AllBelow(l) && id < CAPACITY
    ensures AllBelow(l + [id])
  {
  }

  lemma HoldsOneMore(m: Image, m': Image, l: seq<nat>, id: nat)
    requires Holds(m, l)
    requires forall j: nat | j < 8 * SIZE_MEMORY_MAP :: Used(m', j) <==> Used(m, j) || j == id
    ensures Holds(m', l + [id])
  {
    hide Used;
  }

  lemma AddedRest(x: Index, y: Index, x2: Index, lastUse: nat, lastAlpha: nat, id: nat, name: seq<bv8>)
    requires WellFormed(x) && WellFormed(y) && WellFormed(x2) && id < CAPACITY
    requires x2 == AppendedBoth(x.(bits := y.bits), lastUse, lastAlpha, id)
    requires Fresh(x2, y.(num := x2.num), id, name)
    ensures OthersKept(x, y, id) && EntryAt(y, id).count == 0 && EntryAt(y, id).name == name
  {
    hide AppendedBoth, LinksOnly;
    AppendedBothRest(x.(bits := y.bits), lastUse, lastAlpha, id);
  }

  lemma AddedComparable(x: Index, y: Index, l: seq<nat>, id: nat)
    requires OthersKept(x, y, id) && id < CAPACITY && id !in l && AllBelow(l) && Comparable(x, ByName, l)
    requires Terminated(EntryAt(y, id).name) && AllBelow(l + [id])
    ensures Comparable(y, ByName, l + [id])
  {
    hide Terminated, KeysOf;
    assert WellFormed(y);
    forall i: nat | i < |l|
      ensures y.entries[l[i]].name == x.entries[l[i]].name
    {
      KeyKept(x, y, ByName, id, l[i]);
    }
    hide OthersKept;
  }

  /** Sorted in, a new credential goes last by use, and by name where insertion puts it. */
  lemma SortedIn(x: Index, y: Index, o: Order, l: seq<nat>, id: nat)
    requires OthersKept(x, y, id) && id < CAPACITY && id !in l && AllBelow(l) && EntryAt(y, id).count == 0
    requires Keyed(KeysOf(x, o), l) && Sorted(KeysOf(x, o), l)
    ensures Keyed(KeysOf(y, o), l) && Keyed(KeysOf(y, o), l + [id])
    ensures ISort(KeysOf(y, o), l + [id]) == Insert(KeysOf(y, o), l, id)
    ensures o.ByUse? ==> Insert(KeysOf(y, o), l, id) == l + [id]
  {
    hide KeysOf, OthersKept, Insert, ISort, Sorted, Keyed, AllBelow;
    var keys := KeysOf(y, o);
    KeysKept(x, y, o, l, id);
    SortedByAgreement(KeysOf(x, o), keys, l);
    SortOfSorted(keys, l);
    SortOneMore(keys, l, id);
    if o.ByUse? {
      LastByUse(y, l, id);
    }
  }

  lemma KeysKept(x: Index, y: Index, o: Order, l: seq<nat>, id: nat)
    requires OthersKept(x, y, id) && id < CAPACITY && id !in l && AllBelow(l)
    ensures Keyed(KeysOf(x, o), l) && Keyed(KeysOf(y, o), l) && Keyed(KeysOf(y, o), l + [id])
    ensures WellFormed(y) && id < |KeysOf(y, o)|
    ensures forall i: nat | i < |l| :: KeysOf(y, o)[l[i]] == KeysOf(x, o)[l[i]]
  {
    assert WellFormed(x) && WellFormed(y);
    KeyedBelow(x, o, l);
    KeyedBelow(y, o, l + [id]);
    KeyedBelow(y, o, l);
    hide OthersKept, KeysOf;
    forall i: nat | i < |l|
      ensures KeysOf(y, o)[l[i]] == KeysOf(x, o)[l[i]]
    {
      KeyKept(x, y, o, id, l[i]);
    }
  }

  lemma SortOneMore(keys: seq<Key>, l: seq<nat>, id: nat)
    requires Keyed(keys, l) && Keyed(keys, l + [id]) && id < |keys| && ISort(keys, l) == l
    ensures ISort(keys, l + [id]) == Insert(keys, l, id)
  {
    hide Insert;
    assert (l + [id])[..|l|] == l;
  }

  /** Nothing has been used less than never. */
  lemma LastByUse(y: Index, l: seq<nat>, id: nat)
    requires WellFormed(y) && id < CAPACITY && AllBelow(l) && EntryAt(y, id).count == 0
    requires Keyed(KeysOf(y, ByUse), l) && id < |KeysOf(y, ByUse)|
    ensures Insert(KeysOf(y, ByUse), l, id) == l + [id]
  {
    hide Insert, CStr, Upper, Less;
    InsertStep(KeysOf(y, ByUse), l, id);
  }

  lemma SecretKept(m: Image, m': Image, id: nat, k: Block)
    requires id < CAPACITY && EntryAt(IndexOf(m'), id).secret == EntryAt(IndexOf(m), id).secret
    ensures DataOf(m', id, k) == DataOf(m, id, k) && UsrOf(m', id, k) == UsrOf(m, id, k)
  {
    hide CbcDecryptText, Strip, IdOf;
    var b, b' := BlockOf(m, id), BlockOf(m', id);
    EntryIs(m, id);
    EntryIs(m', id);
    assert b'[PWD_OFFSET_PWD_IV..] == b[PWD_OFFSET_PWD_IV..];
    SameRange(b, b', PWD_OFFSET_PWD_IV, PWD_OFFSET_PWD_DATA);
    SameRange(b, b', PWD_OFFSET_PWD_DATA, PWD_OFFSET_USR_IV);
    SameRange(b, b', PWD_OFFSET_USR_IV, PWD_OFFSET_USR_NAME);
    SameRange(b, b', PWD_OFFSET_USR_NAME, SIZE_OF_PWD_BLOCK);
  }

  lemma SameRange(b: seq<bv8>, b': seq<bv8>, lo: nat, hi: nat)
    requires |b| == |b'| == SIZE_OF_PWD_BLOCK && PWD_OFFSET_PWD_IV <= lo <= hi <= SIZE_OF_PWD_BLOCK
    requires b'[PWD_OFFSET_PWD_IV..] == b[PWD_OFFSET_PWD_IV..]
    ensures b'[lo..hi] == b[lo..hi]
  {
    var c := PWD_OFFSET_PWD_IV;
    SliceOfSlice(b, c, SIZE_OF_PWD_BLOCK, lo - c, hi - c);
    SliceOfSlice(b', c, SIZE_OF_PWD_BLOCK, lo - c, hi - c);
    assert b[c..SIZE_OF_PWD_BLOCK] == b[c..] && b'[c..SIZE_OF_PWD_BLOCK] == b'[c..];
  }

  /** The new credential is listed in both orders, reads as given, and nothing else has
    changed but links and the entropy pool. */
  ghost predicate IsAdded(m: Image, m': Image, use: seq<nat>, alpha: seq<nat>, id: nat,
                          name: seq<bv8>, data: seq<bv8>, usr: seq<bv8>, k: Block) {
    && FirstFree(m, id) && id <= |use| && id < CAPACITY
    && Keyed(KeysOf(IndexOf(m'), ByName), alpha)
    && Consistent(m', use + [id], Insert(KeysOf(IndexOf(m'), ByName), alpha, id))
    && OthersKept(IndexOf(m), IndexOf(m'), id)
    && EntryAt(IndexOf(m'), id).count == 0 && EntryAt(IndexOf(m'), id).name == name
    && DataOf(m', id, k) == Strip(data) && UsrOf(m', id, k) == Strip(usr)
  }

  /** pwd_list_add_pwd between the search for a block and the sorting. */
  method AddUnsorted(w: Wallet, id: nat, name: array<bv8>, data: array<bv8>, usr: array<bv8>,
                     ghost m: Image, ghost use: seq<nat>, ghost alpha: seq<nat>)
    requires w.Valid() && id < CAPACITY && name.Length == data.Length == 32 && usr.Length == 64
    requires name !in {w.fram, w.key} && {data, usr} !! {w.fram, w.eeprom, w.key, name} && data != usr
    requires w.numPwd == |use| && Terminated(name[..]) && FirstFree(m, id) && Consistent(m, use, alpha)
    requires w.fram[..] == WithSwitched(m, id, true)
    modifies data, usr, w.key, w.fram, w`log, w`numPwd, w`poolSize, w`ticks
    ensures w.key[..] == old(w.key[..]) && w.numPwd == |use| + 1
    ensures Listed(w.fram[..], ByUse, use + [id]) && Listed(w.fram[..], ByName, alpha + [id])
    ensures Comparable(IndexOf(w.fram[..]), ByName, alpha + [id]) && OthersKept(IndexOf(m), IndexOf(w.fram[..]), id)
    ensures EntryAt(IndexOf(w.fram[..]), id).count == 0 && EntryAt(IndexOf(w.fram[..]), id).name == name[..]
    ensures DataOf(w.fram[..], id, w.key[..]) == Strip(old(data[..]))
    ensures UsrOf(w.fram[..], id, w.key[..]) == Strip(old(usr[..]))
  {
    hide InOrder, Listed, FirstFree, IndexOf, Used, ListIs, AppendedBoth, OthersKept, Comparable, Terminated;
    hide Strip, DataOf, UsrOf, WithSwitched, Splice, IdBytes, LinksOnly;
    ghost var m1 := w.fram[..];
    IndexAfterSwitch(m, id, true);
    FirstFreeIsSmall(m, use, alpha, id);
    ListsAfterBits(m, m1, use, alpha);
    LinkAtEnds(w, id, use, alpha);
    ghost var m2 := w.fram[..];
    FillBlock(w, id, name, data, usr);
    ghost var m3 := w.fram[..];
    w.numPwd := w.numPwd + 1;
    w.WriteId(OFFSET_NUM_PWD, w.numPwd);
    IndexAfterNum(m3, |use| + 1);
    AppendedBothRest(IndexOf(m1), At(use, |use| - 1), At(alpha, |alpha| - 1), id);
    SecretKept(m3, w.fram[..], id, w.key[..]);
    MapAfterAdd(m, m1, w.fram[..], id);
    AddedListed(m, w.fram[..], IndexOf(m2), use, alpha, id, name[..]);
  }

  lemma MapAfterAdd(m: Image, m1: Image, m4: Image, id: nat)
    requires id < 8 * SIZE_MEMORY_MAP && m1 == WithSwitched(m, id, true) && IndexOf(m4).bits == IndexOf(m1).bits
    ensures forall j: nat | j < 8 * SIZE_MEMORY_MAP :: Used(m4, j) <==> Used(m, j) || j == id
  {
    hide IndexOf, Used, WithSwitched;
    IndexAfterSwitch(m, id, true);
    forall j: nat | j < 8 * SIZE_MEMORY_MAP
      ensures Used(m4, j) <==> Used(m, j) || j == id
    {
      SameMap(m1, m4, j);
    }
  }

  lemma ListsAfterBits(m: Image, m1: Image, use: seq<nat>, alpha: seq<nat>)
    requires Consistent(m, use, alpha) && IndexOf(m1) == IndexOf(m).(bits := IndexOf(m1).bits)
    ensures ListIs(IndexOf(m1), ByUse, use) && ListIs(IndexOf(m1), ByName, alpha)
    ensures |use| == |alpha| == IndexOf(m).num <= CAPACITY
  {
    hide IndexOf, ListIs, Comparable, InOrder;
    InOrderParts(m, ByUse, use);
    InOrderParts(m, ByName, alpha);
    Numbered(m, ByUse, use);
    BitsApart(IndexOf(m), IndexOf(m1), ByUse, use);
    BitsApart(IndexOf(m), IndexOf(m1), ByName, alpha);
  }

  /** pwd_list_add_pwd, for a store that the guard of opt_callback_add_pwd has found not full. */
  method AddPwd(w: Wallet, name: array<bv8>, data: array<bv8>, usr: array<bv8>, ghost use: seq<nat>, ghost alpha: seq<nat>)
    returns (ok: bool, id: nat)
    requires w.Valid() && name.Length == data.Length == 32 && usr.Length == 64
    requires name !in {w.fram, w.key} && {data, usr} !! {w.fram, w.eeprom, w.key, name} && data != usr
    requires w.numPwd == |use| < CAPACITY && Terminated(name[..]) && Consistent(w.fram[..], use, alpha)
    modifies data, usr, w.key, w.fram, w`log, w`numPwd, w`poolSize, w`ticks
    ensures w.key[..] == old(w.key[..])
    ensures ok && w.numPwd == |use| + 1
    ensures IsAdded(old(w.fram[..]), w.fram[..], use, alpha, id, name[..], old(data[..]), old(usr[..]), w.key[..])
  {
    hide InOrder, Listed, FirstFree, IndexOf, Used, OthersKept, Comparable, Terminated, Sorted, KeysOf;
    hide Keyed, ISort, Insert;
    hide Strip, DataOf, UsrOf, WithSwitched, Upper, LinksOnly, CStr;
    ghost var m := w.fram[..];
    ok, id := TakeFreeChunk(w);
    SomeFree(m, use, alpha);
    if !ok {
      return;
    }
    FirstFreeIsSmall(m, use, alpha, id);
    AddUnsorted(w, id, name, data, usr, m, use, alpha);
    ghost var m4 := w.fram[..];
    SortBoth(w, use + [id], alpha + [id]);
    SortedPlaces(m, m4, use, alpha, id);
    LinksOnlyParts(m, m4, w.fram[..], id);
    SecretKept(m4, w.fram[..], id, w.key[..]);
    KeyedBelow(IndexOf(w.fram[..]), ByName, alpha);
  }

  /** A store that is not full has a free block. */
  lemma SomeFree(m: Image, use: seq<nat>, alpha: seq<nat>)
    requires Consistent(m, use, alpha)
    ensures !AllUsed(m, MAXIMUM_NUMBER_OF_PWD)
  {
    InOrderParts(m, ByUse, use);
    hide InOrder, Used, ListIs, IndexOf, Comparable;
    assert CAPACITY !in use;
  }

  lemma SortedPlaces(m: Image, m4: Image, use: seq<nat>, alpha: seq<nat>, id: nat)
    requires Consistent(m, use, alpha) && FirstFree(m, id) && id < CAPACITY
    requires OthersKept(IndexOf(m), IndexOf(m4), id) && EntryAt(IndexOf(m4), id).count == 0
    ensures AllBelow(alpha)
    ensures Keyed(KeysOf(IndexOf(m4), ByUse), use + [id]) && Keyed(KeysOf(IndexOf(m4), ByName), alpha)
    ensures Keyed(KeysOf(IndexOf(m4), ByName), alpha + [id]) && id < |KeysOf(IndexOf(m4), ByName)|
    ensures ISort(KeysOf(IndexOf(m4), ByUse), use + [id]) == use + [id]
    ensures ISort(KeysOf(IndexOf(m4), ByName), alpha + [id]) == Insert(KeysOf(IndexOf(m4), ByName), alpha, id)
  {
    FirstFreeIsSmall(m, use, alpha, id);
    InOrderParts(m, ByUse, use);
    InOrderParts(m, ByName, alpha);
    hide Listed, IndexOf, Used, OthersKept, Comparable, KeysOf, ISort, Insert, FirstFree;
    SortedIn(IndexOf(m), IndexOf(m4), ByUse, use, id);
    SortedIn(IndexOf(m), IndexOf(m4), ByName, alpha, id);
  }

  lemma LinksOnlyParts(m: Image, m4: Image, m5: Image, id: nat)
    requires OthersKept(IndexOf(m), IndexOf(m4), id) && id < CAPACITY && LinksOnly(IndexOf(m4), IndexOf(m5))
    ensures OthersKept(IndexOf(m), IndexOf(m5), id)
    ensures EntryAt(IndexOf(m5), id) == EntryAt(IndexOf(m4), id).(links := EntryAt(IndexOf(m5), id).links)
    ensures KeysOf(IndexOf(m5), ByName) == KeysOf(IndexOf(m4), ByName)
  {
    hide IndexOf, CStr, Upper;
    var x, y, z := IndexOf(m), IndexOf(m4), IndexOf(m5);
    forall j: nat | j < CAPACITY
      ensures z.entries[j] == y.entries[j].(links := z.entries[j].links)
      ensures KeysOf(z, ByName)[j] == KeysOf(y, ByName)[j]
      ensures j != id ==> z.entries[j] == x.entries[j].(links := z.entries[j].links)
    {
      if j != id {
        assert y.entries[j] == x.entries[j].(links := y.entries[j].links);
      }
    }
  }
}
