/** The menu: a forest of categories, actions and stops is flattened to an array of nodes
  (Utility/option_parser/parser.py), which the device walks (Code/src/Options/Options.c).
  A stop ends a list of neighbours; what follows it starts a new one. */
module Menu {

  datatype Item =
    | Category(str: string, children: seq<Item>)
    | Action(str: string, func: string)
    | Stop

  datatype Callback = Nothing | Func(name: string)

  /** Links are indices; a negative one is none: -1 where none was set, -2 where a list ends. */
  datatype Node = Node(str: string, callback: Callback, child: int, neighbour: int)

  // ----- sizes -----

  function SizeOf(item: Item): nat {
    match item
    case Category(_, children) => 1 + Size(children)
    case Action(_, _) => 1
    case Stop => 0
  }

  function Size(items: seq<Item>): nat {
    if items == [] then 0 else SizeOf(items[0]) + Size(items[1..])
  }

  /** Something other than stops. */
  predicate HasItem(items: seq<Item>) {
    items != [] && (!items[0].Stop? || HasItem(items[1..]))
  }

  /** No list begins with a stop. */
  predicate NoLeadingStop(items: seq<Item>) {
    (items != [] ==> !items[0].Stop?)
    && forall i: nat | i < |items| && items[i].Category? :: NoLeadingStop(items[i].children)
  }

  /** No category is empty. */
  predicate Solid(items: seq<Item>) {
    forall i: nat | i < |items| && items[i].Category? :: items[i].children != [] && Solid(items[i].children)
  }

  // ----- the array that a forest amounts to -----

  /** An item with nothing inside. */
  predicate Leaf(item: Item) {
    item.Action? || (item.Category? && item.children == [])
  }

  /** Whether the last item that is not a stop has nothing inside. */
  predicate EndsInLeaf(items: seq<Item>) {
    HasItem(items) && if HasItem(items[1..]) then EndsInLeaf(items[1..]) else Leaf(items[0])
  }

  function EndMark(items: seq<Item>): (e: int)
    ensures e < 0
  {
    if EndsInLeaf(items) then -2 else -1
  }

  /** The link from the first of some items to the next; a stop cuts it after a leaf only. */
  function LinkOf(items: seq<Item>, base: nat, e: int): int
    requires items != []
  {
    if Leaf(items[0]) && |items| > 1 && items[1].Stop? then -2
    else if HasItem(items[1..]) then base + SizeOf(items[0])
    else e
  }

  /** The nodes of some items from index `base` on; `e` is the link of the last of them. */
  function Flat(items: seq<Item>, base: nat, e: int): (nodes: seq<Node>)
    ensures |nodes| == Size(items)
    decreases items
  {
    if items == [] then []
    else FlatOne(items[0], base, LinkOf(items, base, e)) + Flat(items[1..], base + SizeOf(items[0]), e)
  }

  function FlatOne(item: Item, base: nat, link: int): (nodes: seq<Node>)
    ensures |nodes| == SizeOf(item)
    decreases item
  {
    match item
    case Category(str, children) => [Node(str, Nothing, base + 1, link)] + Flat(children, base + 1, EndMark(children))
    case Action(str, func) => [Node(str, Func(func), -1, link)]
    case Stop => []
  }

  function Flattened(items: seq<Item>): seq<Node> {
    Flat(items, 0, EndMark(items))
  }

  // ----- building it item by item -----

  lemma {:induction false} HasItemAppend(a: seq<Item>, b: seq<Item>)
    ensures HasItem(a + b) <==> HasItem(a) || HasItem(b)
    ensures !HasItem(a) ==> Size(a) == 0
    decreases |a|
  {
    if a == [] {
      assert a + b == b;
    } else {
      assert (a + b)[0] == a[0] && (a + b)[1..] == a[1..] + b;
      HasItemAppend(a[1..], b);
    }
  }

  lemma FlatStep(items: seq<Item>, base: nat, e: int)
    requires items != []
    ensures Flat(items, base, e) ==
      FlatOne(items[0], base, LinkOf(items, base, e)) + Flat(items[1..], base + SizeOf(items[0]), e)
  {
  }

  /** Items in front of others link to them. */
  lemma {:induction false} FlatAppend(a: seq<Item>, b: seq<Item>, base: nat, e: int)
    requires b != [] && !b[0].Stop?
    ensures Flat(a + b, base, e) == Flat(a, base, base + Size(a)) + Flat(b, base + Size(a), e)
    decreases |a|
  {
    if a == [] {
      FlatAfterNothing(a, b, base, e);
    } else {
      hide *;
      FlatAppend(a[1..], b, base + SizeOf(a[0]), e);
      FlatAppendStep(a, b, base, e);
    }
  }

  lemma FlatAppendStep(a: seq<Item>, b: seq<Item>, base: nat, e: int)
    requires a != [] && b != [] && !b[0].Stop?
    requires
      var n := base + SizeOf(a[0]);
      Flat(a[1..] + b, n, e) == Flat(a[1..], n, n + Size(a[1..])) + Flat(b, n + Size(a[1..]), e)
    ensures Flat(a + b, base, e) == Flat(a, base, base + Size(a)) + Flat(b, base + Size(a), e)
  {
    hide *;
    LinkKept(a, b, base, e);
    var c, v := a + b, base + Size(a);
    FlatStep(c, base, e);
    FlatStep(a, base, v);
    Associate(FlatOne(a[0], base, LinkOf(a, base, v)), Flat(a[1..], base + SizeOf(a[0]), v), Flat(b, v, e));
  }

  lemma FlatAfterNothing(a: seq<Item>, b: seq<Item>, base: nat, e: int)
    requires a == []
    ensures Flat(a + b, base, e) == Flat(a, base, base + Size(a)) + Flat(b, base + Size(a), e)
  {
    NothingFlat(base);
    hide *;
    assert a + b == b;
  }

  lemma SizeStep(a: seq<Item>)
    requires a != []
    ensures Size(a) == SizeOf(a[0]) + Size(a[1..])
  {
  }

  lemma LinkKept(a: seq<Item>, b: seq<Item>, base: nat, e: int)
    requires a != [] && b != [] && !b[0].Stop?
    ensures LinkOf(a + b, base, e) == LinkOf(a, base, base + Size(a))
    ensures (a + b)[0] == a[0] && (a + b)[1..] == a[1..] + b && Size(a) == SizeOf(a[0]) + Size(a[1..])
  {
    hide *;
    Concatenated(a, b);
    SizeStep(a);
    StartsWithItem(b);
    HasItemAppend(a[1..], b);
    LinkIs(a + b, base, e);
    LinkIs(a, base, base + Size(a));
  }

  lemma Concatenated(a: seq<Item>, b: seq<Item>)
    requires a != [] && b != []
    ensures (a + b)[0] == a[0] && (a + b)[1..] == a[1..] + b && |a + b| > 1
    ensures (a + b)[1] == if |a| > 1 then a[1] else b[0]
  {
  }

  lemma LinkIs(items: seq<Item>, base: nat, e: int)
    requires items != []
    ensures Leaf(items[0]) && |items| > 1 && items[1].Stop? ==> LinkOf(items, base, e) == -2
    ensures !(Leaf(items[0]) && |items| > 1 && items[1].Stop?) ==>
      LinkOf(items, base, e) == if HasItem(items[1..]) then base + SizeOf(items[0]) else e
  {
    hide HasItem, SizeOf;
  }

  lemma NothingFlat(base: nat)
    ensures forall e :: Flat([], base, e) == []
    ensures Size([]) == 0 && LastIndex([], base) == -1 && EndMark([]) == -1
  {
  }

  /** A stop after a leaf cuts its link for good, after other categories it is lost. */
  lemma {:induction false} FlatStop(a: seq<Item>, base: nat, e: int)
    requires HasItem(a)
    ensures Flat(a + [Stop], base, e) == Flat(a, base, if EndsInLeaf(a) then -2 else e)
    decreases |a|
  {
    hide FlatOne, Flat, SizeOf;
    var c := a + [Stop];
    var v := if EndsInLeaf(a) then -2 else e;
    assert c[0] == a[0] && c[1..] == a[1..] + [Stop];
    FlatStep(c, base, e);
    FlatStep(a, base, v);
    HasItemAppend(a[1..], [Stop]);
    if HasItem(a[1..]) {
      FlatStop(a[1..], base + SizeOf(a[0]), e);
    } else {
      OnlyStops(a[1..], base + SizeOf(a[0]), v);
      OnlyStops(a[1..] + [Stop], base + SizeOf(a[0]), e);
    }
  }

  lemma {:induction false} OnlyStops(a: seq<Item>, base: nat, e: int)
    requires !HasItem(a)
    ensures Flat(a, base, e) == [] && Size(a) == 0
    decreases |a|
  {
    if a != [] {
      OnlyStops(a[1..], base, e);
    }
  }

  lemma Associate(a: seq<Node>, b: seq<Node>, c: seq<Node>)
    ensures a + (b + c) == a + b + c
  {
  }

  lemma StartsWithItem(b: seq<Item>)
    requires b != [] && !b[0].Stop?
    ensures HasItem(b)
  {
  }

  // ----- the last of some items -----

  /** The index of the last item that is not a stop. */
  function LastIndex(items: seq<Item>, base: nat): int {
    if !HasItem(items) then -1
    else if HasItem(items[1..]) then LastIndex(items[1..], base + SizeOf(items[0]))
    else base
  }

  /** Its link has not been cut. */
  predicate Open(items: seq<Item>) {
    HasItem(items) && if HasItem(items[1..]) then Open(items[1..]) else !Leaf(items[0]) || |items| == 1
  }

  lemma {:induction false} LastLink(items: seq<Item>, base: nat, e: int, v: int)
    requires HasItem(items)
    ensures
      var nodes, k := Flat(items, base, e), LastIndex(items, base) - base;
      && 0 <= k < |nodes|
      && nodes[k].neighbour == (if Open(items) then e else -2)
      && Flat(items, base, v) == if Open(items) then nodes[k := nodes[k].(neighbour := v)] else nodes
    decreases |items|
  {
    hide Flat, FlatOne;
    var first, rest := items[0], items[1..];
    FlatStep(items, base, e);
    FlatStep(items, base, v);
    if HasItem(rest) {
      LastLink(rest, base + SizeOf(first), e, v);
    } else {
      OnlyStops(rest, base + SizeOf(first), e);
      OnlyStops(rest, base + SizeOf(first), v);
      FirstNode(first, base, LinkOf(items, base, e), LinkOf(items, base, v));
    }
  }

  lemma FirstNode(item: Item, base: nat, link: int, link': int)
    requires !item.Stop?
    ensures
      var nodes := FlatOne(item, base, link);
      nodes != [] && nodes[0].neighbour == link && FlatOne(item, base, link') == nodes[0 := nodes[0].(neighbour := link')]
  {
  }

  /** What is inside the categories begins with no stop. */
  ghost predicate Neat(items: seq<Item>) {
    forall i: nat | i < |items| && items[i].Category? :: NoLeadingStop(items[i].children)
  }

  /** The last node is the last leaf, or its list has been ended already. */
  lemma {:induction false} LastNode(items: seq<Item>, base: nat, e: int)
    requires HasItem(items) && Neat(items)
    ensures
      var nodes := Flat(items, base, e);
      && nodes != []
      && if EndsInLeaf(items) then LastIndex(items, base) == base + |nodes| - 1 else nodes[|nodes| - 1].neighbour == -2
    decreases items, 0
  {
    hide Flat, FlatOne, NoLeadingStop;
    var first, rest := items[0], items[1..];
    FlatStep(items, base, e);
    if HasItem(rest) {
      LastNode(rest, base + SizeOf(first), e);
    } else {
      OnlyStops(rest, base + SizeOf(first), e);
      if !Leaf(first) {
        ChildrenHaveItems(first.children);
        LastChild(first, base, LinkOf(items, base, e));
      } else {
        FirstNode(first, base, LinkOf(items, base, e), 0);
      }
    }
  }

  lemma ChildrenHaveItems(items: seq<Item>)
    requires NoLeadingStop(items) && items != []
    ensures HasItem(items) && Neat(items)
  {
  }

  lemma {:induction false} LastChild(item: Item, base: nat, link: int)
    requires item.Category? && HasItem(item.children) && Neat(item.children)
    ensures
      var nodes := FlatOne(item, base, link);
      nodes[|nodes| - 1].neighbour == -2
    decreases item
  {
    var c, e := item.children, EndMark(item.children);
    hide Flat, Neat;
    LastNode(c, base + 1, e);
    LastLink(c, base + 1, e, e);
  }

  // ----- the flattening loop -----

  datatype Built = Built(nodes: seq<Node>) | Fatal

  /** The inner function offset. */
  function Offset(node: Node, o: nat): Node {
    var n := if node.child >= 0 then node.(child := node.child + o) else node;
    if n.neighbour >= 0 then n.(neighbour := n.neighbour + o) else n
  }

  function OffsetAll(nodes: seq<Node>, o: nat): (r: seq<Node>)
    ensures |r| == |nodes|
  {
    seq(|nodes|, i requires 0 <= i < |nodes| => Offset(nodes[i], o))
  }

  /** Relocating what was flattened on its own is flattening it in place. */
  lemma {:induction false} OffsetFlat(items: seq<Item>, base: nat, e: int, o: nat)
    requires e < 0
    ensures OffsetAll(Flat(items, base, e), o) == Flat(items, base + o, e)
    decreases items
  {
    if items != [] {
      hide Flat, FlatOne, OffsetAll;
      FlatStep(items, base, e);
      FlatStep(items, base + o, e);
      var link := LinkOf(items, base, e);
      OffsetOne(items[0], base, link, o);
      OffsetFlat(items[1..], base + SizeOf(items[0]), e, o);
      OffsetAppend(FlatOne(items[0], base, link), Flat(items[1..], base + SizeOf(items[0]), e), o);
    }
  }

  lemma OffsetAppend(a: seq<Node>, b: seq<Node>, o: nat)
    ensures OffsetAll(a + b, o) == OffsetAll(a, o) + OffsetAll(b, o)
  {
    hide Offset;
  }

  lemma {:induction false} OffsetOne(item: Item, base: nat, link: int, o: nat)
    ensures OffsetAll(FlatOne(item, base, link), o) == FlatOne(item, base + o, if link >= 0 then link + o else link)
    decreases item
  {
    if item.Category? {
      var c := item.children;
      OffsetFlat(c, base + 1, EndMark(c), o);
      hide Flat;
      OffsetAppend([Node(item.str, Nothing, base + 1, link)], Flat(c, base + 1, EndMark(c)), o);
    }
  }

  /** The nodes and the cursor are those of some items. */
  ghost predicate Built0(structured: seq<Node>, setNeighbour: int, a: seq<Item>) {
    structured == Flat(a, 0, -1) && setNeighbour == LastIndex(a, 0)
  }

  /** Linking the last open item of what has been flattened to the next one. */
  method LinkLast(structured: seq<Node>, setNeighbour: int, ghost a: seq<Item>) returns (r: seq<Node>)
    requires -1 <= setNeighbour < |structured|
    ensures |r| == |structured|
    ensures Built0(structured, setNeighbour, a) ==> r == Flat(a, 0, Size(a))
  {
    hide Flat;
    r := structured;
    if HasItem(a) {
      LastLink(a, 0, -1, Size(a));
    } else {
      OnlyStops(a, 0, Size(a));
      OnlyStops(a, 0, -1);
    }
    if setNeighbour != -1 && structured[setNeighbour].neighbour != -2 {
      r := structured[setNeighbour := structured[setNeighbour].(neighbour := |structured|)];
    }
  }

  /** Ending the list at its last node. */
  method EndLast(structured: seq<Node>, ghost a: seq<Item>) returns (r: seq<Node>)
    requires structured != []
    ensures |r| == |structured|
    ensures HasItem(a) && Neat(a) && structured == Flat(a, 0, -1) ==> r == Flat(a, 0, EndMark(a))
  {
    hide Flat, Neat;
    if HasItem(a) && Neat(a) {
      LastNode(a, 0, -1);
      LastLink(a, 0, -1, -2);
    }
    var k := |structured| - 1;
    r := structured[k := structured[k].(neighbour := -2)];
  }

  /** Categories are not empty, and what is inside them begins with no stop. */
  ghost predicate Tidy(items: seq<Item>) {
    Solid(items) && Neat(items)
  }

  /** An item that is no stop, put behind others. */
  lemma OneMore(a: seq<Item>, x: Item)
    requires !x.Stop?
    ensures Flat(a + [x], 0, -1) == Flat(a, 0, Size(a)) + FlatOne(x, Size(a), -1)
    ensures LastIndex(a + [x], 0) == Size(a)
  {
    hide *;
    assert [x][0] == x;
    FlatAppend(a, [x], 0, -1);
    FlatOnly(x, Size(a), -1);
    LastIsNew(a, x, 0);
  }

  lemma FlatOnly(x: Item, base: nat, e: int)
    requires !x.Stop?
    ensures Flat([x], base, e) == FlatOne(x, base, e)
  {
    hide FlatOne, Flat;
    var rest: seq<Item> := [x][1..];
    assert rest == [];
    OnlyStops(rest, base + SizeOf(x), e);
    FlatStep([x], base, e);
  }

  lemma {:induction false} LastIsNew(a: seq<Item>, x: Item, base: nat)
    requires !x.Stop?
    ensures LastIndex(a + [x], base) == base + Size(a)
    decreases |a|
  {
    if a == [] {
      assert [] + [x] == [x] && [x][1..] == [];
    } else {
      assert (a + [x])[0] == a[0] && (a + [x])[1..] == a[1..] + [x];
      HasItemAppend(a[1..], [x]);
      StartsWithItem([x]);
      LastIsNew(a[1..], x, base + SizeOf(a[0]));
    }
  }

  lemma {:induction false} StopKeepsLast(a: seq<Item>, base: nat)
    ensures LastIndex(a + [Stop], base) == LastIndex(a, base)
    decreases |a|
  {
    if a == [] {
      assert [] + [Stop] == [Stop] && [Stop][1..] == [];
    } else {
      assert (a + [Stop])[0] == a[0] && (a + [Stop])[1..] == a[1..] + [Stop];
      assert [Stop][1..] == [];
      HasItemAppend(a[1..], [Stop]);
      HasItemAppend(a, [Stop]);
      StopKeepsLast(a[1..], base + SizeOf(a[0]));
    }
  }

  /** structure: flattens a forest, unless some list begins with a stop, which is fatal. */
  method Structure(info: seq<Item>) returns (r: Built)
    ensures r.Fatal? <==> !NoLeadingStop(info)
    ensures NoLeadingStop(info) ==> r == Built(Flattened(info))
    decreases info
  {
    hide Flat, LastIndex, HasItem, Size, SizeOf, OffsetAll, EndsInLeaf, Offset;
    var structured, setNeighbour := [], -1;
    NothingFlat(0);
    for i := 0 to |info|
      invariant -1 <= setNeighbour < |structured| && (i > 0 ==> structured != [] && !info[0].Stop?)
      invariant forall j: nat | j < i && info[j].Category? :: NoLeadingStop(info[j].children)
      invariant Built0(structured, setNeighbour, info[..i])
    {
      ghost var a := info[..i];
      assert info[..i + 1] == a + [info[i]];
      match info[i]
      case Stop =>
        if i == 0 {
          return Fatal;
        }
        assert a[0] == info[0];
        StartsWithItem(a);
        StopKeepsLast(a, 0);
        FlatStop(a, 0, -1);
        structured := EndLast(structured, a);
      case Action(str, func) =>
        OneMore(a, info[i]);
        structured := LinkLast(structured, setNeighbour, a);
        setNeighbour := |structured|;
        structured := structured + [Node(str, Func(func), -1, -1)];
      case Category(str, children) =>
        OneMore(a, info[i]);
        structured := LinkLast(structured, setNeighbour, a);
        setNeighbour := |structured|;
        structured := structured + [Node(str, Nothing, |structured| + 1, -1)];
        var sub := Structure(children);
        if sub.Fatal? {
          return Fatal;
        }
        OffsetFlat(children, 0, EndMark(children), |structured|);
        structured := structured + OffsetAll(sub.nodes, |structured|);
    }
    assert info[..|info|] == info;
    if structured != [] {
      if info != [] { ChildrenHaveItems(info); }
      structured := EndLast(structured, info);
    }
    r := Built(structured);
  }

  // ----- reading it back -----

  /** Links go forward and stay in the array. */
  ghost predicate Forward(nodes: seq<Node>) {
    forall i: nat | i < |nodes| ::
      && (nodes[i].child < 0 || i < nodes[i].child < |nodes|)
      && (nodes[i].neighbour < 0 || i < nodes[i].neighbour < |nodes|)
  }

  /** The items that are found by following neighbours, and children for what is inside. */
  ghost function Rebuild(nodes: seq<Node>, k: nat): (items: seq<Item>)
    requires Forward(nodes) && k < |nodes|
    ensures items != []
    decreases |nodes| - k
  {
    [ItemAt(nodes, k)] + if nodes[k].neighbour < 0 then [] else Rebuild(nodes, nodes[k].neighbour)
  }

  ghost function ItemAt(nodes: seq<Node>, k: nat): Item
    requires Forward(nodes) && k < |nodes|
    decreases |nodes| - k, 0
  {
    if nodes[k].child >= 0 then Category(nodes[k].str, Rebuild(nodes, nodes[k].child))
    else Action(nodes[k].str, match nodes[k].callback case Func(f) => f case Nothing => "")
  }

  /** What one list shows: its items up to the first stop that cuts it, and of the
    categories among them the same. */
  function Shown(items: seq<Item>): seq<Item> {
    if items == [] then []
    else if items[0].Stop? then Shown(items[1..])
    else if Leaf(items[0]) && |items| > 1 && items[1].Stop? then [ShownItem(items[0])]
    else [ShownItem(items[0])] + Shown(items[1..])
  }

  function ShownItem(item: Item): Item {
    match item
    case Category(str, children) => Category(str, Shown(children))
    case Action(_, _) => item
    case Stop => item
  }

  /** From the first item of a stretch on, the links show the items of its list. */
  lemma {:induction false} RebuildShows(nodes: seq<Node>, base: nat, items: seq<Item>, e: int)
    requires Forward(nodes) && HasItem(items) && Tidy(items) && e < 0
    requires base + Size(items) <= |nodes| && nodes[base..base + Size(items)] == Flat(items, base, e)
    ensures base < |nodes| && Rebuild(nodes, base) == Shown(items)
    decreases items
  {
    hide Flat, FlatOne, NoLeadingStop, Solid, Rebuild, ItemAt, Shown, ShownItem;
    var first, rest := items[0], items[1..];
    FlatStep(items, base, e);
    ShownStep(items);
    TidyRest(items);
    var n := SizeOf(first);
    Stretch(nodes, base, n, Size(rest), FlatOne(first, base, LinkOf(items, base, e)), Flat(rest, base + n, e));
    if first.Stop? {
      RebuildShows(nodes, base, rest, e);
    } else {
      OneNode(nodes, base, first, LinkOf(items, base, e));
      RebuildOne(nodes, base, first, LinkOf(items, base, e));
      if HasItem(rest) {
        RebuildShows(nodes, base + n, rest, e);
      } else {
        NothingShown(rest);
      }
      RebuildStep(nodes, base);
    }
  }

  lemma RebuildStep(nodes: seq<Node>, k: nat)
    requires Forward(nodes) && k < |nodes|
    ensures Rebuild(nodes, k) == [ItemAt(nodes, k)] + if nodes[k].neighbour < 0 then [] else Rebuild(nodes, nodes[k].neighbour)
  {
  }

  lemma ShownStep(items: seq<Item>)
    requires items != []
    ensures items[0].Stop? ==> Shown(items) == Shown(items[1..])
    ensures !items[0].Stop? && (Leaf(items[0]) && |items| > 1 && items[1].Stop?) ==>
      Shown(items) == [ShownItem(items[0])]
    ensures !items[0].Stop? && !(Leaf(items[0]) && |items| > 1 && items[1].Stop?) ==>
      Shown(items) == [ShownItem(items[0])] + Shown(items[1..])
  {
  }

  lemma {:induction false} NothingShown(items: seq<Item>)
    requires !HasItem(items)
    ensures Shown(items) == []
  {
    if items != [] {
      NothingShown(items[1..]);
    }
  }

  lemma Stretch(nodes: seq<Node>, base: nat, n: nat, m: nat, a: seq<Node>, b: seq<Node>)
    requires base + n + m <= |nodes| && |a| == n && |b| == m && nodes[base..base + (n + m)] == a + b
    ensures nodes[base..base + n] == a && nodes[base + n..base + n + m] == b
  {
    assert nodes[base..base + n] == nodes[base..base + (n + m)][..n];
    assert nodes[base + n..base + n + m] == nodes[base..base + (n + m)][n..];
  }

  lemma OneNode(nodes: seq<Node>, base: nat, item: Item, link: int)
    requires !item.Stop? && base + SizeOf(item) <= |nodes| && nodes[base..base + SizeOf(item)] == FlatOne(item, base, link)
    ensures base < |nodes| && nodes[base].neighbour == link && nodes[base].str == item.str
    ensures item.Action? ==> nodes[base].child == -1 && nodes[base].callback == Func(item.func)
    ensures item.Category? ==> nodes[base].child == base + 1
    ensures item.Category? ==> nodes[base + 1..base + SizeOf(item)] == Flat(item.children, base + 1, EndMark(item.children))
  {
    hide Flat;
    var stretch := nodes[base..base + SizeOf(item)];
    assert nodes[base] == stretch[0];
    if item.Category? {
      assert nodes[base + 1..base + SizeOf(item)] == stretch[1..];
    }
  }

  lemma {:induction false} RebuildOne(nodes: seq<Node>, base: nat, item: Item, link: int)
    requires Forward(nodes) && !item.Stop? && base + SizeOf(item) <= |nodes| && Tidy([item])
    requires nodes[base..base + SizeOf(item)] == FlatOne(item, base, link)
    ensures base < |nodes| && ItemAt(nodes, base) == ShownItem(item)
    decreases item
  {
    hide Flat, FlatOne, Rebuild, Shown;
    OneNode(nodes, base, item, link);
    if item.Category? {
      TidyInside(item);
      RebuildShows(nodes, base + 1, item.children, EndMark(item.children));
    }
  }

  lemma TidyRest(items: seq<Item>)
    requires Tidy(items) && items != []
    ensures Tidy(items[1..]) && Tidy([items[0]])
  {
    var rest := items[1..];
    assert forall i: nat | i < |rest| :: rest[i] == items[i + 1];
  }

  lemma TidyInside(item: Item)
    requires item.Category? && Tidy([item])
    ensures HasItem(item.children) && Tidy(item.children)
  {
    assert [item][0] == item;
  }

  // ----- links go forward -----

  /** Children and neighbours in a stretch lie ahead and inside it. */
  ghost predicate ForwardIn(nodes: seq<Node>, base: nat, end: nat) {
    forall i: nat | i < |nodes| ::
      && (nodes[i].child < 0 || base + i < nodes[i].child < end)
      && (nodes[i].neighbour < 0 || base + i < nodes[i].neighbour < end)
  }

  lemma ForwardBoth(a: seq<Node>, b: seq<Node>, base: nat, end: nat)
    requires ForwardIn(a, base, end) && ForwardIn(b, base + |a|, end)
    ensures ForwardIn(a + b, base, end)
  {
    var c := a + b;
    forall i: nat | i < |c|
      ensures c[i].child < 0 || base + i < c[i].child < end
      ensures c[i].neighbour < 0 || base + i < c[i].neighbour < end
    {
      if i >= |a| {
        assert c[i] == b[i - |a|];
      }
    }
  }

  lemma {:induction false} FlatForward(items: seq<Item>, base: nat, e: int)
    requires Tidy(items) && e < 0
    ensures ForwardIn(Flat(items, base, e), base, base + Size(items))
    decreases items
  {
    if items == [] {
      NothingFlat(base);
    } else {
      hide *;
      TidyRest(items);
      LinkForward(items, base, e);
      OneForward(items[0], base, LinkOf(items, base, e), base + Size(items));
      FlatForward(items[1..], base + SizeOf(items[0]), e);
      ForwardTogether(items, base, e);
    }
  }

  lemma ForwardTogether(items: seq<Item>, base: nat, e: int)
    requires items != [] && ForwardIn(FlatOne(items[0], base, LinkOf(items, base, e)), base, base + Size(items))
    requires
      var n := base + SizeOf(items[0]);
      ForwardIn(Flat(items[1..], n, e), n, n + Size(items[1..]))
    ensures ForwardIn(Flat(items, base, e), base, base + Size(items))
  {
    hide *;
    FlatStep(items, base, e);
    SizeStep(items);
    ForwardBoth(FlatOne(items[0], base, LinkOf(items, base, e)), Flat(items[1..], base + SizeOf(items[0]), e),
      base, base + Size(items));
  }

  lemma LinkForward(items: seq<Item>, base: nat, e: int)
    requires items != [] && e < 0
    ensures
      var link, end := LinkOf(items, base, e), base + Size(items);
      && (items[0].Stop? || link < 0 || base < link < end)
      && end == base + SizeOf(items[0]) + Size(items[1..])
  {
    hide *;
    LinkIs(items, base, e);
    SizeStep(items);
    SomeSize(items[0]);
    RestHasSize(items[1..]);
  }

  lemma {:induction false} RestHasSize(items: seq<Item>)
    ensures HasItem(items) ==> Size(items) > 0
  {
    if items != [] {
      RestHasSize(items[1..]);
    }
  }

  lemma SomeSize(item: Item)
    ensures !item.Stop? ==> SizeOf(item) > 0
  {
  }

  lemma {:induction false} OneForward(item: Item, base: nat, link: int, end: nat)
    requires Tidy([item]) && base + SizeOf(item) <= end
    requires item.Stop? || link < 0 || base < link < end
    ensures ForwardIn(FlatOne(item, base, link), base, end)
    decreases item
  {
    if item.Category? {
      TidyInside(item);
      var c := item.children;
      hide Flat, NoLeadingStop, Solid;
      RestHasSize(c);
      FlatForward(c, base + 1, EndMark(c));
      ForwardBoth([Node(item.str, Nothing, base + 1, link)], Flat(c, base + 1, EndMark(c)), base, end);
    }
  }

  // ----- the theorem -----

  lemma TidyWhole(items: seq<Item>)
    requires Solid(items) && NoLeadingStop(items)
    ensures Tidy(items)
  {
  }

  /** From the node of every item, at any depth, the links show the rest of its list up to
    a stop that cuts it, with all that is inside the categories on the way. */
  ghost predicate Faithful(nodes: seq<Node>, base: nat, items: seq<Item>)
    requires Forward(nodes)
    decreases items
  {
    items != [] ==>
      && (!items[0].Stop? ==> base < |nodes| && Rebuild(nodes, base) == Shown(items))
      && (items[0].Category? ==> Faithful(nodes, base + 1, items[0].children))
      && Faithful(nodes, base + SizeOf(items[0]), items[1..])
  }

  lemma FaithfulStep(nodes: seq<Node>, base: nat, items: seq<Item>)
    requires Forward(nodes)
    ensures items == [] ==> Faithful(nodes, base, items) && Solid(items)
    ensures items != [] ==> (Faithful(nodes, base, items) <==>
      && (!items[0].Stop? ==> base < |nodes| && Rebuild(nodes, base) == Shown(items))
      && (items[0].Category? ==> Faithful(nodes, base + 1, items[0].children))
      && Faithful(nodes, base + SizeOf(items[0]), items[1..]))
  {
    hide Rebuild, Shown;
  }

  /** The nodes of some items are in the array, from index `base` on. */
  ghost predicate Stored(nodes: seq<Node>, base: nat, items: seq<Item>, e: int) {
    base + Size(items) <= |nodes| && nodes[base..base + Size(items)] == Flat(items, base, e)
  }

  /** And so are those of the other items, and of what is inside the first one. */
  lemma StoredParts(nodes: seq<Node>, base: nat, items: seq<Item>, e: int)
    requires items != [] && Stored(nodes, base, items, e)
    ensures Stored(nodes, base + SizeOf(items[0]), items[1..], e)
    ensures items[0].Category? ==>
      var c := items[0].children;
      base < |nodes| && nodes[base].child == base + 1 && Stored(nodes, base + 1, c, EndMark(c))
  {
    hide Flat, FlatOne;
    var first, rest, link := items[0], items[1..], LinkOf(items, base, e);
    FlatStep(items, base, e);
    Stretch(nodes, base, SizeOf(first), Size(rest), FlatOne(first, base, link), Flat(rest, base + SizeOf(first), e));
    if first.Category? {
      OneNode(nodes, base, first, link);
    }
  }

  lemma {:induction false} SolidIsFaithful(nodes: seq<Node>, base: nat, items: seq<Item>, e: int)
    requires Forward(nodes) && Tidy(items) && e < 0 && Stored(nodes, base, items, e)
    ensures Faithful(nodes, base, items)
    decreases items
  {
    hide *;
    FaithfulStep(nodes, base, items);
    if items != [] {
      StoredParts(nodes, base, items, e);
      TidyRest(items);
      if items[0].Category? {
        TidyInside(items[0]);
        SolidIsFaithful(nodes, base + 1, items[0].children, EndMark(items[0].children));
      }
      SolidIsFaithful(nodes, base + SizeOf(items[0]), items[1..], e);
      if !items[0].Stop? {
        StartsWithItem(items);
        StoredShows(nodes, base, items, e);
      }
    }
  }

  lemma StoredShows(nodes: seq<Node>, base: nat, items: seq<Item>, e: int)
    requires Forward(nodes) && HasItem(items) && Tidy(items) && e < 0 && Stored(nodes, base, items, e)
    ensures base < |nodes| && Rebuild(nodes, base) == Shown(items)
  {
    hide Flat, Rebuild, Shown, HasItem, Tidy, Size;
    RebuildShows(nodes, base, items, e);
  }

  /** An empty category has its child link all the same, so it shows what is not inside it. */
  lemma {:induction false} FaithfulIsSolid(nodes: seq<Node>, base: nat, items: seq<Item>, e: int)
    requires Forward(nodes) && Stored(nodes, base, items, e)
    ensures Faithful(nodes, base, items) ==> Solid(items)
    decreases items
  {
    hide *;
    FaithfulStep(nodes, base, items);
    if items != [] {
      StoredParts(nodes, base, items, e);
      FaithfulIsSolid(nodes, base + SizeOf(items[0]), items[1..], e);
      if items[0].Category? {
        FaithfulIsSolid(nodes, base + 1, items[0].children, EndMark(items[0].children));
      }
      if Faithful(nodes, base, items) {
        if items[0].Category? {
          InsideShown(nodes, base, items);
        }
        SolidTogether(items);
      }
    }
  }

  /** A node with a child shows something inside. */
  lemma InsideShown(nodes: seq<Node>, base: nat, items: seq<Item>)
    requires Forward(nodes) && base < |nodes| && nodes[base].child >= 0
    requires items != [] && items[0].Category? && Rebuild(nodes, base) == Shown(items)
    ensures items[0].children != []
  {
    hide Rebuild, Shown;
    RebuildStep(nodes, base);
    ShownStep(items);
    assert Rebuild(nodes, base)[0] == ItemAt(nodes, base) && Shown(items)[0] == ShownItem(items[0]);
    NothingShown([]);
  }

  lemma SolidTogether(items: seq<Item>)
    requires items != [] && Solid(items[1..])
    requires items[0].Category? ==> items[0].children != [] && Solid(items[0].children)
    ensures Solid(items)
  {
    forall i: nat | i < |items| && items[i].Category?
      ensures items[i].children != [] && Solid(items[i].children)
    {
      assert i > 0 ==> items[i] == items[1..][i - 1];
    }
  }

  /** Flattening loses nothing, and its links go forward and stay inside the array, if and
    only if no category is empty. */
  lemma NothingIsLost(info: seq<Item>)
    requires NoLeadingStop(info)
    ensures Forward(Flattened(info)) && Faithful(Flattened(info), 0, info) <==> Solid(info)
  {
    var nodes, e := Flattened(info), EndMark(info);
    hide Flat, Rebuild, Shown, Size, HasItem, Faithful, NoLeadingStop, Solid, Forward;
    assert nodes[0..0 + Size(info)] == nodes;
    if Solid(info) {
      TidyWhole(info);
      FlatForward(info, 0, e);
      ForwardWhole(nodes);
      SolidIsFaithful(nodes, 0, info, e);
    } else if Forward(nodes) {
      FaithfulIsSolid(nodes, 0, info, e);
    }
  }

  lemma ForwardWhole(nodes: seq<Node>)
    requires ForwardIn(nodes, 0, |nodes|)
    ensures Forward(nodes)
  {
  }

  /** Without stops that is the whole forest. */
  lemma {:induction false} AllShown(items: seq<Item>)
    requires NoStops(items)
    ensures Shown(items) == items
    decreases items
  {
    if items != [] {
      if items[0].Category? {
        AllShown(items[0].children);
      }
      AllShown(items[1..]);
      assert items == [items[0]] + items[1..];
    }
  }

  predicate NoStops(items: seq<Item>) {
    forall i: nat | i < |items| :: !items[i].Stop? && (items[i].Category? ==> NoStops(items[i].children))
  }

  // ----- the walkers of the device -----

  /** node_at: the item at a position of a list, or its last one. */
  method NodeAt(nodes: seq<Node>, start: nat, pos0: nat) returns (k: nat)
    requires Forward(nodes) && start < |nodes|
    ensures k < |nodes|
    ensures
      var l := Rebuild(nodes, start);
      ItemAt(nodes, k) == l[if pos0 < |l| then pos0 else |l| - 1]
  {
    hide Rebuild, ItemAt;
    k := start;
    var pos := pos0;
    ghost var l, at := Rebuild(nodes, start), 0;
    while nodes[k].neighbour >= 0 && pos > 0
      invariant k < |nodes| && pos >= 0 && at + pos == pos0 && at < |l| && Rebuild(nodes, k) == l[at..]
      decreases pos
    {
      RebuildStep(nodes, k);
      assert l[at..][1..] == l[at + 1..];
      pos := pos - 1;
      k := nodes[k].neighbour;
      at := at + 1;
    }
    RebuildStep(nodes, k);
    assert Rebuild(nodes, k)[0] == ItemAt(nodes, k);
    assert nodes[k].neighbour < 0 ==> |Rebuild(nodes, k)| == 1;
  }

  lemma EightBits(n: nat)
    ensures (n % 256 + 1) % 256 == (n + 1) % 256
  {
  }

  /** draw_nodes: how many items a list has, in 8 bits. */
  method DrawNodes(nodes: seq<Node>, start: nat) returns (numOpt: nat)
    requires Forward(nodes) && start < |nodes|
    ensures numOpt == |Rebuild(nodes, start)| % 256
  {
    hide Rebuild, ItemAt;
    var k: nat := start;
    numOpt := 0;
    ghost var l, at := Rebuild(nodes, start), 0;
    while true
      invariant k < |nodes| && at < |l| && Rebuild(nodes, k) == l[at..] && numOpt == at % 256
      decreases |l| - at
    {
      RebuildStep(nodes, k);
      assert l[at..][1..] == l[at + 1..];
      EightBits(at);
      numOpt := (numOpt + 1) % 256;
      at := at + 1;
      if nodes[k].neighbour < 0 {
        break;
      }
      k := nodes[k].neighbour;
    }
  }
}
