/** pwd_list_sort_use and pwd_list_sort_alpha (Code/src/Security/Password_List.c): an
  insertion sort on the links in FRAM is the function ISort on the list. */
module ListSort {
  import opened Memory
  import opened Device
  import opened Index
  import opened Lists
  import opened Sorting
  import opened Links

  /** Nothing but links of the listed ids in one order, and its head, may differ. */
  ghost predicate Relinked(x: Index, y: Index, o: Order, l: seq<nat>) {
    && SameButLinks(x, y, o)
    && forall id: nat | id < CAPACITY && id !in l :: y.entries[id] == x.entries[id]
  }

  /** Names can only be compared if they end within their 32 bytes. */
  ghost predicate Comparable(x: Index, o: Order, l: seq<nat>)
    requires WellFormed(x) && AllBelow(l)
  {
    o.ByName? ==> forall i: nat | i < |l| :: Terminated(x.entries[l[i]].name)
  }

  /** The list with the id at c moved up to p. */
  function Moved(l: seq<nat>, c: nat, p: nat): (r: seq<nat>)
    requires p <= c < |l|
    ensures |r| == |l|
  {
    l[..p] + [l[c]] + l[p..c] + l[c + 1..]
  }

  lemma MovedNowhere(l: seq<nat>, c: nat)
    requires c < |l|
    ensures Moved(l, c, c) == l
  {
  }

  lemma MovedOneMore(l: seq<nat>, c: nat, p: nat)
    requires 0 < p <= c < |l|
    ensures SwapAt(Moved(l, c, p), p - 1) == Moved(l, c, p - 1)
  {
  }

  lemma MovedAt(l: seq<nat>, c: nat, p: nat, i: nat)
    requires p <= c < |l| && i < |l|
    ensures Moved(l, c, p)[i] == if i < p || i > c then l[i] else if i == p then l[c] else l[i - 1]
  {
  }

  lemma SameKeys(x: Index, y: Index, o: Order, o': Order)
    requires SameButLinks(x, y, o)
    ensures KeysOf(y, o') == KeysOf(x, o')
  {
    hide CStr, Upper;
    forall id: nat | id < CAPACITY
      ensures KeysOf(y, o')[id] == KeysOf(x, o')[id]
    {
      assert y.entries[id] == x.entries[id].(links := y.entries[id].links);
    }
  }

  /** One step of the inner loop on the list: swap with the neighbour, with the head kept right. */
  lemma StepUp(x: Index, o: Order, l: seq<nat>, p: nat)
    requires WellFormed(x) && ListIs(x, o, l) && 0 < p < |l|
    ensures l[p] < CAPACITY && l[p - 1] < CAPACITY
    ensures l[p - 1] == First(x, o) <==> p == 1
    ensures
      var x1 := if p == 1 then PutFirst(x, o, l[p]) else x;
      var y := Swap(x1, o, l[p - 1], l[p]);
      ListIs(y, o, SwapAt(l, p - 1)) && Relinked(x, y, o, l) && First(y, o) == First(x1, o)
  {
    hide *;
    FirstIs(x, o, l);
    PlaceOf(x, o, l, p);
    PlaceOf(x, o, l, p - 1);
    AtPlace(l, 0);
    SamePlace(l, p - 1, 0);
    var x1 := if p == 1 then PutFirst(x, o, l[p]) else x;
    FirstPut(x, o, l, l[p]);
    SwapKeepsRest(x1, o, l[p - 1], l[p]);
    Swapped(x1, o, l, p - 1);
    DistinctSwapped(l, p - 1);
    StepRelinks(x, x1, o, l, p);
    NeighboursSwapped(l, p - 1, 0);
    ListFromParts(Swap(x1, o, l[p - 1], l[p]), o, SwapAt(l, p - 1));
  }

  lemma ListFromParts(x: Index, o: Order, l: seq<nat>)
    requires WellFormed(x) && Linked(x, o, l) && Distinct(l) && l != [] && First(x, o) == l[0]
    ensures ListIs(x, o, l)
  {
    hide First, Linked, Distinct;
  }

  lemma StepRelinks(x: Index, x1: Index, o: Order, l: seq<nat>, p: nat)
    requires WellFormed(x1) && Linked(x1, o, l) && 0 < p < |l|
    requires SameButLinks(x, x1, o) && x1.entries == x.entries
    ensures l[p] < CAPACITY && l[p - 1] < CAPACITY
    ensures Relinked(x, Swap(x1, o, l[p - 1], l[p]), o, l)
  {
    LinkedAt(x1, o, l, p);
    LinkedAt(x1, o, l, p - 1);
    SwapKeepsRest(x1, o, l[p - 1], l[p]);
    var y := Swap(x1, o, l[p - 1], l[p]);
    SameButLinksTwice(x, x1, y, o);
    hide Next, Prev, Swap, Linked, SameButLinks;
    forall id: nat | id < CAPACITY && id !in l
      ensures y.entries[id] == x.entries[id]
    {
      SwapElsewhere(x1, o, l, p - 1, id);
    }
  }

  lemma FirstPut(x: Index, o: Order, l: seq<nat>, v: nat)
    requires WellFormed(x) && Linked(x, o, l)
    ensures Linked(PutFirst(x, o, v), o, l) && SameButLinks(x, PutFirst(x, o, v), o) && SameButLinks(x, x, o)
    ensures PutFirst(x, o, v).entries == x.entries
  {
    hide Next, Prev;
    var r := PutFirst(x, o, v);
    assert forall id: nat | id < CAPACITY :: r.entries[id] == x.entries[id];
  }

  lemma SwapElsewhere(x: Index, o: Order, l: seq<nat>, p: nat, id: nat)
    requires WellFormed(x) && Linked(x, o, l) && p + 1 < |l| && id < CAPACITY && id !in l
    ensures l[p] < CAPACITY && l[p + 1] < CAPACITY
    ensures Prev(x, o, l[p]) == At(l, p - 1) && Next(x, o, l[p + 1]) == At(l, p + 2)
    ensures Swap(x, o, l[p], l[p + 1]).entries[id] == x.entries[id]
  {
    LinkedAt(x, o, l, p);
    LinkedAt(x, o, l, p + 1);
    if p > 0 { LinkedAt(x, o, l, p - 1); }
    if p + 2 < |l| { LinkedAt(x, o, l, p + 2); }
    OnlyThose(x, o, l[p], l[p + 1], id);
  }

  /** A swap changes the entries of the two ids and of their outer neighbours only. */
  lemma OnlyThose(x: Index, o: Order, lower: nat, upper: nat, id: nat)
    requires WellFormed(x) && lower < CAPACITY && upper < CAPACITY && id < CAPACITY
    requires id !in [lower, upper, Prev(x, o, lower), Next(x, o, upper)]
    ensures Swap(x, o, lower, upper).entries[id] == x.entries[id]
  {
    hide Next, Prev, SameButLinks, PutNext, PutPrev;
  }

  lemma SameMembers(l: seq<nat>, l': seq<nat>, id: nat)
    requires multiset(l') == multiset(l)
    ensures id in l <==> id in l'
  {
    assert id in l <==> id in multiset(l);
    assert id in l' <==> id in multiset(l');
  }

  lemma RelinkedTwice(x: Index, y: Index, z: Index, o: Order, l: seq<nat>, l': seq<nat>)
    requires Relinked(x, y, o, l) && Relinked(y, z, o, l') && multiset(l') == multiset(l)
    ensures Relinked(x, z, o, l)
  {
    SameButLinksTwice(x, y, z, o);
    hide SameButLinks;
    forall id: nat | id < CAPACITY && id !in l
      ensures id !in l'
    {
      SameMembers(l, l', id);
    }
  }

  lemma MovedPermutes(l: seq<nat>, c: nat, p: nat)
    requires p <= c < |l|
    ensures multiset(Moved(l, c, p)) == multiset(l)
  {
    var a, b, x, d := l[..p], l[p..c], [l[c]], l[c + 1..];
    assert l == a + b + x + d;
    assert Moved(l, c, p) == a + x + b + d;
    hide Moved;
    calc {
      multiset(a + x + b + d);
      multiset(a) + multiset(x) + multiset(b) + multiset(d);
      multiset(a) + multiset(b) + multiset(x) + multiset(d);
      multiset(a + b + x + d);
    }
  }

  /** The list is l with the id at c moved up to p, and nothing else has changed since x. */
  ghost predicate SortPoint(x: Index, y: Index, o: Order, l: seq<nat>, c: nat, p: nat) {
    p <= c < |l| && WellFormed(x) && WellFormed(y) && ListIs(y, o, Moved(l, c, p)) && Relinked(x, y, o, l)
  }

  lemma StepPoint(x: Index, y: Index, o: Order, l: seq<nat>, c: nat, p: nat)
    requires 0 < p <= c < |l| && SortPoint(x, y, o, l, c, p)
    ensures l[c] < CAPACITY && l[p - 1] < CAPACITY
    ensures l[p - 1] == First(y, o) <==> p == 1
    ensures
      var y1 := if p == 1 then PutFirst(y, o, l[c]) else y;
      Linked(y1, o, Moved(l, c, p))
      && SortPoint(x, Swap(y1, o, l[p - 1], l[c]), o, l, c, p - 1)
      && First(Swap(y1, o, l[p - 1], l[c]), o) == First(y1, o)
  {
    var l1 := Moved(l, c, p);
    hide Moved, Swap, PutFirst, Next, Prev, Distinct, Linked, SameButLinks, Relinked;
    MovedAt(l, c, p, p);
    MovedAt(l, c, p, p - 1);
    MovedOneMore(l, c, p);
    StepUp(y, o, l1, p);
    var y1 := if p == 1 then PutFirst(y, o, l1[p]) else y;
    FirstPut(y, o, l1, l1[p]);
    MovedPermutes(l, c, p);
    RelinkedTwice(x, y, Swap(y1, o, l1[p - 1], l1[p]), o, l, l1);
  }

  lemma Neighbour(x: Index, y: Index, o: Order, l: seq<nat>, c: nat, p: nat)
    requires p <= c < |l| && SortPoint(x, y, o, l, c, p)
    ensures l[c] < CAPACITY && Prev(y, o, l[c]) == (if p == 0 then MAXIMUM_NUMBER_OF_PWD else l[p - 1])
    ensures p > 0 ==> l[p - 1] < CAPACITY
    ensures KeysOf(y, o) == KeysOf(x, o)
  {
    var l1 := Moved(l, c, p);
    hide Moved, Next, Prev, Distinct, Linked, SameButLinks;
    MovedAt(l, c, p, p);
    LinkedAt(y, o, l1, p);
    SameKeys(x, y, o, o);
    if p > 0 {
      MovedAt(l, c, p, p - 1);
      LinkedAt(y, o, l1, p - 1);
    }
  }

  lemma NamesKept(x: Index, y: Index, o: Order, id: nat)
    requires SameButLinks(x, y, o) && id < CAPACITY
    ensures y.entries[id].name == x.entries[id].name
  {
    assert y.entries[id] == x.entries[id].(links := y.entries[id].links);
  }

  /** The id at c has to go before all from p up to c, and not before the one before p. */
  ghost predicate StopsAt(keys: seq<Key>, l: seq<nat>, c: nat, p: nat) {
    && p <= c < |l| && Keyed(keys, l)
    && (forall j: nat | p <= j < c :: Precedes(keys[l[c]], keys[l[j]]))
    && (p > 0 ==> !Precedes(keys[l[c]], keys[l[p - 1]]))
  }

  lemma SameNames(x: Index, y: Index, o: Order, l: seq<nat>, c: nat, p: nat)
    requires 0 < p <= c < |l| && SortPoint(x, y, o, l, c, p) && AllBelow(l) && Comparable(x, o, l)
    ensures o.ByName? ==> Terminated(y.entries[l[c]].name) && Terminated(y.entries[l[p - 1]].name)
  {
    hide Terminated, SameButLinks, ListIs;
    NamesKept(x, y, o, l[c]);
    NamesKept(x, y, o, l[p - 1]);
  }

  /** The outer links of the two that are swapped, for the state after the head is set. */
  lemma StepBounds(x: Index, y: Index, o: Order, l: seq<nat>, c: nat, p: nat)
    requires 0 < p <= c < |l| && WellFormed(y) && Linked(y, o, Moved(l, c, p))
    ensures l[p - 1] < CAPACITY && l[c] < CAPACITY
    ensures Prev(y, o, l[p - 1]) == MAXIMUM_NUMBER_OF_PWD || Prev(y, o, l[p - 1]) < CAPACITY
    ensures Next(y, o, l[c]) == MAXIMUM_NUMBER_OF_PWD || Next(y, o, l[c]) < CAPACITY
  {
    var l1 := Moved(l, c, p);
    hide Moved, Prev, Next;
    MovedAt(l, c, p, p);
    MovedAt(l, c, p, p - 1);
    LinkedAt(y, o, l1, p);
    LinkedAt(y, o, l1, p - 1);
    if p > 1 { LinkedAt(y, o, l1, p - 2); }
    if p + 1 < |l1| { LinkedAt(y, o, l1, p + 1); }
  }

  /** SortPoint for the FRAM as it is, with the head in a variable. */
  ghost predicate Moving(w: Wallet, x: Index, o: Order, l: seq<nat>, c: nat, p: nat, first: nat)
    requires w.Valid()
    reads w, w.fram
  {
    SortPoint(x, IndexOf(w.fram[..]), o, l, c, p) && first == First(IndexOf(w.fram[..]), o)
  }

  /** The inner loop of the sorting functions: the id at position c of the list goes up to
    behind the first id it does not have to go before. */
  method MoveUp(w: Wallet, o: Order, current: nat, first0: nat, ghost x: Index, ghost l: seq<nat>, ghost c: nat)
    returns (sortingPosition: nat, first: nat, ghost p: nat)
    requires WellFormed(x) && 0 < c < |l| && current == At(l, c) && AllBelow(l) && Comparable(x, o, l)
    requires w.Valid() && Moving(w, x, o, l, c, c, first0)
    modifies w.fram, w`log
    ensures p <= c && sortingPosition == At(l, p)
    ensures StopsAt(KeysOf(x, o), l, c, p)
    ensures Moving(w, x, o, l, c, p, first)
  {
    hide SortPoint, Swap, PutFirst, First, KeysOf, Precedes, Prev, IndexOf, SameButLinks, Terminated;
    hide NameAt, CountAt, Upper, CStr;
    ghost var keys := KeysOf(x, o);
    sortingPosition, first, p := current, first0, c;
    Neighbour(x, IndexOf(w.fram[..]), o, l, c, p);
    var prev := ReadPrev(w, o, current);
    SameNames(x, IndexOf(w.fram[..]), o, l, c, p);
    var before := GoesBefore(w, o, current, prev);
    while prev != MAXIMUM_NUMBER_OF_PWD && before
      invariant p <= c && SortPoint(x, IndexOf(w.fram[..]), o, l, c, p) && first == First(IndexOf(w.fram[..]), o)
      invariant prev == if p == 0 then MAXIMUM_NUMBER_OF_PWD else l[p - 1]
      invariant p > 0 ==> before == Precedes(keys[l[c]], keys[l[p - 1]])
      invariant sortingPosition == At(l, p)
      invariant forall j: nat | p <= j < c :: Precedes(keys[l[c]], keys[l[j]])
      decreases p
    {
      StepPoint(x, IndexOf(w.fram[..]), o, l, c, p);
      if prev == first {
        SetFirst(w, o, current);
        first := current;
      }
      StepBounds(x, IndexOf(w.fram[..]), o, l, c, p);
      SwapNeighbours(w, o, prev, current);
      sortingPosition := prev;
      p := p - 1;
      Neighbour(x, IndexOf(w.fram[..]), o, l, c, p);
      prev := ReadPrev(w, o, current);
      if prev == MAXIMUM_NUMBER_OF_PWD {
        break;
      }
      SameNames(x, IndexOf(w.fram[..]), o, l, c, p);
      before := GoesBefore(w, o, current, prev);
    }
  }

  /** The list after the outer loop has sorted its first n ids. */
  ghost predicate SortedUpTo(keys: seq<Key>, l0: seq<nat>, l: seq<nat>, n: nat)
    requires Keyed(keys, l0)
  {
    n <= |l0| && l == ISort(keys, l0[..n]) + l0[n..]
  }

  /** One round of the outer loop. If the cursor is inside the sorted part, nothing moves;
    if it is at its end, the next id is inserted. */
  lemma OuterRound(keys: seq<Key>, l0: seq<nat>, l: seq<nat>, n: nat, c: nat, p: nat)
    requires Keyed(keys, l0) && SortedUpTo(keys, l0, l, n) && 0 < c <= n && c < |l| && p <= c
    requires StopsAt(keys, l, c, p)
    ensures c < n ==> p == c && Moved(l, c, p) == l
    ensures c == n ==> SortedUpTo(keys, l0, Moved(l, c, p), n + 1)
  {
    hide Precedes, Insert;
    var s := ISort(keys, l0[..n]);
    assert l[..n] == s;
    if c < n {
      SortIsStable(keys, l0[..n]);
      assert l[c] == s[c] && l[c - 1] == s[c - 1];
      MovedNowhere(l, c);
    } else {
      assert l[c] == l0[n];
      forall j: nat | j < c
        ensures l[j] == s[j]
      {
      }
      InsertPlace(keys, s, l[c], p);
      assert l0[..n + 1][..n] == l0[..n] && l0[..n + 1][n] == l0[n];
      assert l[..p] == s[..p] && l[p..c] == s[p..] && l[c + 1..] == l0[n + 1..];
    }
  }

  lemma SortedOne(keys: seq<Key>, l0: seq<nat>)
    requires Keyed(keys, l0) && l0 != []
    ensures SortedUpTo(keys, l0, l0, 1)
  {
    assert l0[..1] == [l0[0]] && l0[..1][..0] == [];
    assert ISort(keys, []) == [];
    assert l0 == l0[..1] + l0[1..];
  }

  lemma SortedAll(keys: seq<Key>, l0: seq<nat>, l: seq<nat>)
    requires Keyed(keys, l0) && SortedUpTo(keys, l0, l, |l0|)
    ensures l == ISort(keys, l0)
  {
    assert l0[..|l0|] == l0;
  }

  lemma SortOfFew(keys: seq<Key>, l: seq<nat>)
    requires Keyed(keys, l) && |l| < 2
    ensures ISort(keys, l) == l
  {
    SortOfSorted(keys, l);
  }

  /** pwd_list_sort_use and pwd_list_sort_alpha. The cursor steps back into the sorted part
    after an insertion, so the loop ends because the sorted part grows or else the cursor
    advances. */
  method Sort(w: Wallet, o: Order, ghost l0: seq<nat>)
    requires w.Valid() && w.numPwd == |l0| && AllBelow(l0)
    requires ListIs(IndexOf(w.fram[..]), o, l0) && Comparable(IndexOf(w.fram[..]), o, l0)
    modifies w.fram, w`log
    ensures ListIs(IndexOf(w.fram[..]), o, ISort(KeysOf(IndexOf(old(w.fram[..])), o), l0))
    ensures Relinked(IndexOf(old(w.fram[..])), IndexOf(w.fram[..]), o, l0)
  {
    hide SortPoint, KeysOf, IndexOf, ListIs, Relinked, Comparable, ISort, SortedUpTo, Precedes;
    hide Moved, At, AllBelow, Keyed, SameButLinks, WellFormed, StopsAt;
    ghost var x := IndexOf(w.fram[..]);
    ghost var keys := KeysOf(x, o);
    RelinkedToItself(x, o, l0);
    KeyedBelow(x, o, l0);
    if w.numPwd < 2 {
      SortOfFew(keys, l0);
      return;
    }
    SortedOne(keys, l0);
    var first := ReadFirst(w, o);
    FirstIs(x, o, l0);
    PlaceOf(x, o, l0, 0);
    var current := ReadNext(w, o, first);
    ghost var l, n: nat, c: nat := l0, 1, 1;
    while current != MAXIMUM_NUMBER_OF_PWD
      invariant 0 < c <= n && SortedUpTo(keys, l0, l, n) && n <= |l0| == |l|
      invariant multiset(l) == multiset(l0) && AllBelow(l)
      invariant ListIs(IndexOf(w.fram[..]), o, l) && Relinked(x, IndexOf(w.fram[..]), o, l0)
      invariant current == At(l, c) && first == First(IndexOf(w.fram[..]), o)
      decreases |l0| - n, |l0| - c
    {
      ghost var y := IndexOf(w.fram[..]);
      ghost var p: nat;
      var sortingPosition;
      RoundStarts(x, y, o, l0, l, c);
      KeyedBelow(y, o, l);
      sortingPosition, first, p := MoveUp(w, o, current, first, y, l, c);
      AtPlace(l, p);
      OuterRound(keys, l0, l, n, c, p);
      RoundEnds(x, y, IndexOf(w.fram[..]), o, l0, l, c, p);
      l := Moved(l, c, p);
      current := ReadNext(w, o, sortingPosition);
      if c == n {
        n := n + 1;
      }
      c := if p == c then c + 1 else p + 2;
    }
    AtPlaces(l, c);
    SortedAll(keys, l0, l);
  }

  lemma KeyedBelow(x: Index, o: Order, l: seq<nat>)
    requires WellFormed(x) && AllBelow(l)
    ensures Keyed(KeysOf(x, o), l)
  {
  }

  lemma AtPlaces(l: seq<nat>, i: nat)
    requires AllBelow(l)
    ensures At(l, i) == MAXIMUM_NUMBER_OF_PWD <==> i >= |l|
  {
  }

  lemma RelinkedToItself(x: Index, o: Order, l: seq<nat>)
    requires WellFormed(x)
    ensures Relinked(x, x, o, l)
  {
  }

  lemma FirstIs(x: Index, o: Order, l: seq<nat>)
    requires WellFormed(x) && ListIs(x, o, l) && l != []
    ensures First(x, o) == l[0] && Linked(x, o, l) && Distinct(l)
  {
    hide Linked, Distinct;
  }

  lemma PlaceOf(x: Index, o: Order, l: seq<nat>, i: nat)
    requires WellFormed(x) && ListIs(x, o, l) && i < |l|
    ensures l[i] < CAPACITY && Next(x, o, l[i]) == At(l, i + 1) && Prev(x, o, l[i]) == At(l, i - 1)
  {
    LinkedAt(x, o, l, i);
  }

  lemma RoundStarts(x: Index, y: Index, o: Order, l0: seq<nat>, l: seq<nat>, c: nat)
    requires WellFormed(x) && WellFormed(y) && Relinked(x, y, o, l0) && ListIs(y, o, l)
    requires multiset(l) == multiset(l0) && AllBelow(l) && AllBelow(l0) && Comparable(x, o, l0)
    requires 0 < c && At(l, c) != MAXIMUM_NUMBER_OF_PWD
    ensures c < |l| && At(l, c) == l[c] && SortPoint(y, y, o, l, c, c) && Comparable(y, o, l)
    ensures KeysOf(y, o) == KeysOf(x, o)
  {
    hide KeysOf, Terminated, ListIs;
    SameKeys(x, y, o, o);
    MovedNowhere(l, c);
    RelinkedToItself(y, o, l);
    hide SameButLinks;
    forall i: nat | i < |l| && o.ByName?
      ensures Terminated(y.entries[l[i]].name)
    {
      NamesKept(x, y, o, l[i]);
      SameMembers(l0, l, l[i]);
    }
  }

  lemma RoundEnds(x: Index, y: Index, z: Index, o: Order, l0: seq<nat>, l: seq<nat>, c: nat, p: nat)
    requires WellFormed(x) && Relinked(x, y, o, l0) && multiset(l) == multiset(l0)
    requires p <= c < |l| && AllBelow(l) && SortPoint(y, z, o, l, c, p)
    ensures
      var l' := Moved(l, c, p);
      && ListIs(z, o, l') && Relinked(x, z, o, l0) && multiset(l') == multiset(l0) && AllBelow(l')
      && l[p] < CAPACITY && Next(z, o, l[p]) == At(l', if p == c then c + 1 else p + 2)
  {
    hide ListIs, SameButLinks, Next, Prev;
    var l' := Moved(l, c, p);
    MovedPermutes(l, c, p);
    RelinkedTwice(x, y, z, o, l0, l);
    var i := if p == c then c else p + 1;
    MovedAt(l, c, p, i);
    PlaceOf(z, o, l', i);
    forall j: nat | j < |l'|
      ensures l'[j] < CAPACITY
    {
      MovedAt(l, c, p, j);
    }
  }
}
