/** Adding an id at the end of a list and taking one out, as pwd_list_add_pwd and
  pwd_list_delete_pwd do it (Code/src/Security/Password_List.c). */
module ListEdits {
  import opened Memory
  import opened Index
  import opened Lists

  /** A list only depends on its head and on the links of its own ids. */
  lemma ListFrame(x: Index, y: Index, o: Order, l: seq<nat>)
    requires WellFormed(x) && WellFormed(y) && ListIs(x, o, l) && First(y, o) == First(x, o)
    requires forall i: nat | i < |l| && l[i] < CAPACITY :: Next(y, o, l[i]) == Next(x, o, l[i])
    requires forall i: nat | i < |l| && l[i] < CAPACITY :: Prev(y, o, l[i]) == Prev(x, o, l[i])
    ensures ListIs(y, o, l)
  {
    hide Next, Prev, First;
  }

  // ----- adding at the end -----

  /** The writes of pwd_list_add_pwd for one list. */
  ghost function Append(x: Index, o: Order, last: nat, id: nat): (r: Index)
    requires WellFormed(x) && id < CAPACITY
    ensures WellFormed(r)
  {
    var x1 := if last < CAPACITY then PutNext(x, o, last, id) else x;
    PutNext(PutPrev(x1, o, id, last), o, id, MAXIMUM_NUMBER_OF_PWD)
  }

  lemma AppendLinks(x: Index, o: Order, last: nat, id: nat, j: nat)
    requires WellFormed(x) && id < CAPACITY && j < CAPACITY && last != id
    ensures
      var r := Append(x, o, last, id);
      && First(r, o) == First(x, o)
      && Next(r, o, j) == (if j == id then MAXIMUM_NUMBER_OF_PWD else if j == last then id else Next(x, o, j))
      && Prev(r, o, j) == (if j == id then last else Prev(x, o, j))
      && (j != id && j != last ==> r.entries[j] == x.entries[j])
  {
    hide PutNext, PutPrev, SameButLinks, Next, Prev, WellFormed;
  }

  lemma AppendedAt(l: seq<nat>, id: nat, i: nat, j: int)
    requires i <= |l|
    ensures (l + [id])[i] == if i < |l| then l[i] else id
    ensures At(l + [id], j) == if j == |l| then id else At(l, j)
  {
  }

  lemma AppendedPlace(x: Index, o: Order, l: seq<nat>, id: nat, i: nat)
    requires WellFormed(x) && Linked(x, o, l) && Distinct(l) && id < CAPACITY && id !in l && i <= |l|
    ensures
      var r, l' := Append(x, o, At(l, |l| - 1), id), l + [id];
      l'[i] < CAPACITY && Prev(r, o, l'[i]) == At(l', i - 1) && Next(r, o, l'[i]) == At(l', i + 1)
  {
    hide *;
    var last := At(l, |l| - 1);
    NotLast(l, id);
    AppendedAt(l, id, i, i - 1);
    AppendedAt(l, id, i, i + 1);
    AppendLinks(x, o, last, id, id);
    if i < |l| {
      LinkedAt(x, o, l, i);
      AppendLinks(x, o, last, id, l[i]);
      SamePlace(l, i, |l| - 1);
      AtEnd(l, i);
    }
  }

  lemma NotLast(l: seq<nat>, id: nat)
    requires id < CAPACITY && id !in l
    ensures At(l, |l| - 1) != id && At(l, |l| + 1) == MAXIMUM_NUMBER_OF_PWD
  {
  }

  lemma AtEnd(l: seq<nat>, i: nat)
    requires i < |l|
    ensures i == |l| - 1 ==> At(l, i + 1) == MAXIMUM_NUMBER_OF_PWD
  {
  }

  lemma DistinctAppended(l: seq<nat>, id: nat)
    requires Distinct(l) && id !in l
    ensures Distinct(l + [id])
  {
  }

  /** In an empty list the head is 0 already, so the id has to be 0. */
  lemma Appended(x: Index, o: Order, l: seq<nat>, id: nat)
    requires WellFormed(x) && ListIs(x, o, l) && id < CAPACITY && id !in l && (l == [] ==> id == 0)
    ensures ListIs(Append(x, o, At(l, |l| - 1), id), o, l + [id])
  {
    var last := At(l, |l| - 1);
    hide Append, Next, Prev, First, WellFormed, Distinct, At;
    NotLast(l, id);
    AppendLinks(x, o, last, id, id);
    DistinctAppended(l, id);
    forall i: nat | i < |l + [id]|
      ensures
        var r, l' := Append(x, o, last, id), l + [id];
        l'[i] < CAPACITY && Prev(r, o, l'[i]) == At(l', i - 1) && Next(r, o, l'[i]) == At(l', i + 1)
    {
      AppendedPlace(x, o, l, id, i);
    }
  }

  // ----- taking out -----

  /** The writes of pwd_list_delete_pwd for one list. */
  ghost function Unlink(x: Index, o: Order, prev: nat, next: nat): (r: Index)
    requires WellFormed(x)
    ensures WellFormed(r)
  {
    var x1 := if next < CAPACITY then PutPrev(x, o, next, prev) else x;
    if prev < CAPACITY then PutNext(x1, o, prev, next)
    else PutFirst(x1, o, if next < CAPACITY then next else 0)
  }

  function Without(l: seq<nat>, i: nat): (r: seq<nat>)
    requires i < |l|
    ensures |r| == |l| - 1
  {
    l[..i] + l[i + 1..]
  }

  lemma UnlinkLinks(x: Index, o: Order, prev: nat, next: nat, j: nat)
    requires WellFormed(x) && j < CAPACITY
    ensures
      var r := Unlink(x, o, prev, next);
      && First(r, o) == (if prev < CAPACITY then First(x, o) else if next < CAPACITY then next else 0)
      && Next(r, o, j) == (if j == prev then next else Next(x, o, j))
      && Prev(r, o, j) == (if j == next then prev else Prev(x, o, j))
      && (j != prev && j != next ==> r.entries[j] == x.entries[j])
  {
    hide PutNext, PutPrev, PutFirst, SameButLinks, Next, Prev, WellFormed;
  }

  lemma UnlinkKeepsRest(x: Index, o: Order, prev: nat, next: nat)
    requires WellFormed(x)
    ensures SameButLinks(x, Unlink(x, o, prev, next), o)
  {
    hide PutNext, PutPrev, PutFirst, SameButLinks, Next, Prev;
    var x1 := if next < CAPACITY then PutPrev(x, o, next, prev) else x;
    SelfSame(x, o);
    if prev < CAPACITY {
      SameButLinksTwice(x, x1, PutNext(x1, o, prev, next), o);
    } else {
      var v := if next < CAPACITY then next else 0;
      PutFirstKeepsRest(x1, o, v);
      SameButLinksTwice(x, x1, PutFirst(x1, o, v), o);
    }
  }

  lemma SelfSame(x: Index, o: Order)
    requires WellFormed(x)
    ensures SameButLinks(x, x, o)
  {
  }

  lemma PutFirstKeepsRest(x: Index, o: Order, v: nat)
    requires WellFormed(x)
    ensures SameButLinks(x, PutFirst(x, o, v), o)
  {
  }

  lemma WithoutAt(l: seq<nat>, i: nat, j: nat)
    requires i < |l| && j < |l| - 1
    ensures Without(l, i)[j] == if j < i then l[j] else l[j + 1]
  {
  }

  lemma WithoutPlaces(l: seq<nat>, i: nat, j: int)
    requires i < |l|
    ensures At(Without(l, i), j) == if j < i then At(l, j) else At(l, j + 1)
  {
  }

  lemma DistinctWithout(l: seq<nat>, i: nat)
    requires Distinct(l) && i < |l|
    ensures Distinct(Without(l, i)) && l[i] !in Without(l, i)
    ensures forall x | x in l && x != l[i] :: x in Without(l, i)
    ensures forall x | x in Without(l, i) :: x in l
  {
    forall x | x in l && x != l[i]
      ensures x in Without(l, i)
    {
      var j :| 0 <= j < |l| && l[j] == x;
      assert x == Without(l, i)[if j < i then j else j - 1];
    }
  }

  lemma UnlinkedPlace(x: Index, o: Order, l: seq<nat>, i: nat, j: nat)
    requires WellFormed(x) && Linked(x, o, l) && Distinct(l) && i < |l| && j < |l| - 1
    ensures
      var r, l' := Unlink(x, o, At(l, i - 1), At(l, i + 1)), Without(l, i);
      l'[j] < CAPACITY && Prev(r, o, l'[j]) == At(l', j - 1) && Next(r, o, l'[j]) == At(l', j + 1)
  {
    hide *;
    var from := if j < i then j else j + 1;
    WithoutAt(l, i, j);
    LinkedAt(x, o, l, from);
    UnlinkLinks(x, o, At(l, i - 1), At(l, i + 1), l[from]);
    SamePlace(l, from, i - 1);
    SamePlace(l, from, i + 1);
    WithoutPlaces(l, i, j - 1);
    WithoutPlaces(l, i, j + 1);
  }

  lemma Unlinked(x: Index, o: Order, l: seq<nat>, i: nat)
    requires WellFormed(x) && ListIs(x, o, l) && i < |l|
    ensures ListIs(Unlink(x, o, At(l, i - 1), At(l, i + 1)), o, Without(l, i))
  {
    hide Unlink, Next, Prev, First, WellFormed, Without, Distinct, At;
    DistinctWithout(l, i);
    UnlinkedHead(x, o, l, i);
    forall j: nat | j < |Without(l, i)|
      ensures
        var r, l' := Unlink(x, o, At(l, i - 1), At(l, i + 1)), Without(l, i);
        l'[j] < CAPACITY && Prev(r, o, l'[j]) == At(l', j - 1) && Next(r, o, l'[j]) == At(l', j + 1)
    {
      UnlinkedPlace(x, o, l, i, j);
    }
  }

  lemma UnlinkedHead(x: Index, o: Order, l: seq<nat>, i: nat)
    requires WellFormed(x) && ListIs(x, o, l) && i < |l|
    ensures First(Unlink(x, o, At(l, i - 1), At(l, i + 1)), o) == (if Without(l, i) == [] then 0 else Without(l, i)[0])
  {
    LinkedAt(x, o, l, i);
    if i > 0 { LinkedAt(x, o, l, i - 1); }
    if i + 1 < |l| { LinkedAt(x, o, l, i + 1); }
    UnlinkLinks(x, o, At(l, i - 1), At(l, i + 1), l[i]);
  }
}
