/** The two linked lists as sequences of ids, and insertion sort on them. */
module Lists {
  import opened Memory
  import opened Index

  // ----- links -----

  ghost function First(x: Index, o: Order): nat
    requires WellFormed(x)
  {
    x.heads[HeadNo(o)]
  }

  ghost function Next(x: Index, o: Order, id: nat): nat
    requires WellFormed(x) && id < CAPACITY
  {
    x.entries[id].links[NextNo(o)]
  }

  ghost function Prev(x: Index, o: Order, id: nat): nat
    requires WellFormed(x) && id < CAPACITY
  {
    x.entries[id].links[PrevNo(o)]
  }

  ghost function PutFirst(x: Index, o: Order, v: nat): (r: Index)
    requires WellFormed(x)
    ensures WellFormed(r) && r == x.(heads := r.heads)
    ensures First(r, o) == v && forall o' | o' != o :: First(r, o') == First(x, o')
    ensures forall o', id: nat | id < CAPACITY :: Next(r, o', id) == Next(x, o', id) && Prev(r, o', id) == Prev(x, o', id)
  {
    x.(heads := x.heads[HeadNo(o) := v])
  }

  ghost function PutLink(x: Index, id: nat, no: nat, v: nat): (r: Index)
    requires WellFormed(x) && id < CAPACITY && no < 4
    ensures WellFormed(r)
  {
    x.(entries := x.entries[id := x.entries[id].(links := x.entries[id].links[no := v])])
  }

  /** The index is the same but for links of one list. */
  ghost predicate SameButLinks(x: Index, y: Index, o: Order) {
    && WellFormed(x) && WellFormed(y) && y == x.(heads := y.heads, entries := y.entries)
    && (forall o' | o' != o :: First(y, o') == First(x, o'))
    && forall id: nat | id < CAPACITY ::
        && y.entries[id] == x.entries[id].(links := y.entries[id].links)
        && (forall o' | o' != o :: Next(y, o', id) == Next(x, o', id) && Prev(y, o', id) == Prev(x, o', id))
  }

  ghost function PutNext(x: Index, o: Order, id: nat, v: nat): (r: Index)
    requires WellFormed(x) && id < CAPACITY
    ensures WellFormed(r) && First(r, o) == First(x, o) && SameButLinks(x, r, o)
    ensures forall j: nat | j < CAPACITY :: Next(r, o, j) == if j == id then v else Next(x, o, j)
    ensures forall j: nat | j < CAPACITY :: Prev(r, o, j) == Prev(x, o, j)
    ensures forall j: nat | j < CAPACITY && j != id :: r.entries[j] == x.entries[j]
  {
    PutLink(x, id, NextNo(o), v)
  }

  ghost function PutPrev(x: Index, o: Order, id: nat, v: nat): (r: Index)
    requires WellFormed(x) && id < CAPACITY
    ensures WellFormed(r) && First(r, o) == First(x, o) && SameButLinks(x, r, o)
    ensures forall j: nat | j < CAPACITY :: Prev(r, o, j) == if j == id then v else Prev(x, o, j)
    ensures forall j: nat | j < CAPACITY :: Next(r, o, j) == Next(x, o, j)
    ensures forall j: nat | j < CAPACITY && j != id :: r.entries[j] == x.entries[j]
  {
    PutLink(x, id, PrevNo(o), v)
  }

  // ----- lists -----

  /** The id at a position, or the end mark. */
  function At(l: seq<nat>, i: int): nat {
    if 0 <= i < |l| then l[i] else MAXIMUM_NUMBER_OF_PWD
  }

  ghost predicate Distinct(l: seq<nat>) {
    forall i: nat, j: nat | i < j < |l| :: l[i] != l[j]
  }

  ghost predicate AllBelow(l: seq<nat>) {
    forall i: nat | i < |l| :: l[i] < CAPACITY
  }

  ghost predicate Linked(x: Index, o: Order, l: seq<nat>)
    requires WellFormed(x)
  {
    && AllBelow(l)
    && forall i: nat {:trigger Prev(x, o, l[i])} {:trigger Next(x, o, l[i])} | i < |l| ::
      Prev(x, o, l[i]) == At(l, i - 1) && Next(x, o, l[i]) == At(l, i + 1)
  }

  /** The list of an order is l: linked both ways, with marks at its ends. */
  ghost predicate ListIs(x: Index, o: Order, l: seq<nat>)
    requires WellFormed(x)
  {
    && First(x, o) == (if l == [] then 0 else l[0])
    && Linked(x, o, l) && Distinct(l)
  }

  // ----- swapping neighbours -----

  /** swap_neighbours, write by write; a link that is no id is the end mark. */
  ghost function Swap(x: Index, o: Order, lower: nat, upper: nat): (r: Index)
    requires WellFormed(x) && lower < CAPACITY && upper < CAPACITY
    ensures WellFormed(r)
  {
    var before, after := Prev(x, o, lower), Next(x, o, upper);
    var x1 := PutNext(PutPrev(x, o, lower, upper), o, lower, after);
    var x2 := PutNext(PutPrev(x1, o, upper, before), o, upper, lower);
    var x3 := if before < CAPACITY then PutNext(x2, o, before, upper) else x2;
    if after < CAPACITY then PutPrev(x3, o, after, lower) else x3
  }

  function SwapAt(l: seq<nat>, p: nat): (r: seq<nat>)
    requires p + 1 < |l|
    ensures |r| == |l|
  {
    l[p := l[p + 1]][p + 1 := l[p]]
  }

  lemma SameButLinksTwice(x: Index, y: Index, z: Index, o: Order)
    requires SameButLinks(x, y, o) && SameButLinks(y, z, o)
    ensures SameButLinks(x, z, o)
  {
  }

  lemma SwapKeepsRest(x: Index, o: Order, lower: nat, upper: nat)
    requires WellFormed(x) && lower < CAPACITY && upper < CAPACITY
    ensures SameButLinks(x, Swap(x, o, lower, upper), o)
    ensures First(Swap(x, o, lower, upper), o) == First(x, o)
  {
    hide PutNext, PutPrev, SameButLinks, Next, Prev, WellFormed;
    var before, after := Prev(x, o, lower), Next(x, o, upper);
    var a := PutPrev(x, o, lower, upper);
    var b := PutNext(a, o, lower, after);
    var c := PutPrev(b, o, upper, before);
    var d := PutNext(c, o, upper, lower);
    SameButLinksTwice(x, a, b, o);
    SameButLinksTwice(x, b, c, o);
    SameButLinksTwice(x, c, d, o);
    var e := if before < CAPACITY then PutNext(d, o, before, upper) else d;
    if before < CAPACITY {
      SameButLinksTwice(x, d, e, o);
    }
    if after < CAPACITY {
      SameButLinksTwice(x, e, PutPrev(e, o, after, lower), o);
    }
  }

  /** Links after a swap of two neighbours. */
  lemma SwapLinks(x: Index, o: Order, l: seq<nat>, p: nat, id: nat)
    requires WellFormed(x) && Linked(x, o, l) && Distinct(l) && p + 1 < |l| && id < CAPACITY
    ensures
      var r := Swap(x, o, l[p], l[p + 1]);
      && Next(r, o, id) == (if id == l[p] then At(l, p + 2) else if id == l[p + 1] then l[p]
           else if id == At(l, p - 1) then l[p + 1] else Next(x, o, id))
      && Prev(r, o, id) == (if id == l[p] then l[p + 1] else if id == l[p + 1] then At(l, p - 1)
           else if id == At(l, p + 2) then l[p] else Prev(x, o, id))
  {
    hide PutNext, PutPrev, SameButLinks, Next, Prev, WellFormed;
  }

  lemma SamePlace(l: seq<nat>, i: nat, j: int)
    requires Distinct(l) && i < |l| && l[i] < CAPACITY
    ensures l[i] == At(l, j) <==> j == i
  {
  }

  lemma DistinctSwapped(l: seq<nat>, p: nat)
    requires Distinct(l) && p + 1 < |l|
    ensures Distinct(SwapAt(l, p))
  {
  }

  lemma Swapped(x: Index, o: Order, l: seq<nat>, p: nat)
    requires WellFormed(x) && Linked(x, o, l) && Distinct(l) && p + 1 < |l|
    ensures Linked(Swap(x, o, l[p], l[p + 1]), o, SwapAt(l, p))
  {
    hide Swap, SameButLinks, Next, Prev, WellFormed, Distinct;
    forall i: nat | i < |l|
      ensures
        var r, l' := Swap(x, o, l[p], l[p + 1]), SwapAt(l, p);
        l'[i] < CAPACITY && Prev(r, o, l'[i]) == At(l', i - 1) && Next(r, o, l'[i]) == At(l', i + 1)
    {
      SwappedPlace(x, o, l, p, i);
    }
  }

  lemma SwappedPlace(x: Index, o: Order, l: seq<nat>, p: nat, i: nat)
    requires WellFormed(x) && Linked(x, o, l) && Distinct(l) && p + 1 < |l| && i < |l|
    ensures
      var r, l' := Swap(x, o, l[p], l[p + 1]), SwapAt(l, p);
      l'[i] < CAPACITY && Prev(r, o, l'[i]) == At(l', i - 1) && Next(r, o, l'[i]) == At(l', i + 1)
  {
    hide *;
    var from := if i == p then p + 1 else if i == p + 1 then p else i;
    LinkedAt(x, o, l, from);
    LinkedAt(x, o, l, p);
    LinkedAt(x, o, l, p + 1);
    SwapLinks(x, o, l, p, l[from]);
    NeighboursSwapped(l, p, i);
    SamePlace(l, from, p);
    SamePlace(l, from, p + 1);
    SamePlace(l, from, p - 1);
    SamePlace(l, from, p + 2);
    AtPlace(l, p);
    AtPlace(l, p + 1);
  }

  lemma AtPlace(l: seq<nat>, i: nat)
    requires i < |l|
    ensures At(l, i) == l[i]
  {
  }

  lemma LinkedAt(x: Index, o: Order, l: seq<nat>, i: nat)
    requires WellFormed(x) && Linked(x, o, l) && i < |l|
    ensures l[i] < CAPACITY && Prev(x, o, l[i]) == At(l, i - 1) && Next(x, o, l[i]) == At(l, i + 1)
  {
  }

  lemma NeighboursSwapped(l: seq<nat>, p: nat, i: nat)
    requires p + 1 < |l| && i < |l|
    ensures
      var l' := SwapAt(l, p);
      && l'[i] == (if i == p then l[p + 1] else if i == p + 1 then l[p] else l[i])
      && At(l', i - 1) == (if i == p + 1 then l[p + 1] else if i == p + 2 then l[p] else At(l, i - 1))
      && At(l', i + 1) == (if i == p then l[p] else if i == p + 1 then At(l, p + 2)
           else if i + 1 == p then l[p + 1] else At(l, i + 1))
  {
  }
}
