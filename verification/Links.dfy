/** Access to the fields of the index (Code/src/Security/Password.c), swapping neighbours
  and sorting (Code/src/Security/Password_List.c). The source has its list functions once
  per order; here the order is a parameter. */
module Links {
  import opened Bytes
  import opened Memory
  import opened Device
  import opened Index
  import opened Lists
  import opened Sorting

  // ----- field access -----

  /** password_read_next_pwd_use, password_read_next_pwd_alpha */
  method ReadNext(w: Wallet, o: Order, id: nat) returns (next: nat)
    requires w.Valid() && id < CAPACITY
    ensures next == Next(IndexOf(w.fram[..]), o, id) && next < 65536
  {
    hide BlockOf, IdOf;
    LinkAt(w.fram[..], id, NextNo(o));
    next := w.ReadId(PwdAddr(id, 2 * NextNo(o)));
  }

  /** password_read_prev_pwd_use, password_read_prev_pwd_alpha */
  method ReadPrev(w: Wallet, o: Order, id: nat) returns (prev: nat)
    requires w.Valid() && id < CAPACITY
    ensures prev == Prev(IndexOf(w.fram[..]), o, id) && prev < 65536
  {
    hide BlockOf, IdOf;
    LinkAt(w.fram[..], id, PrevNo(o));
    prev := w.ReadId(PwdAddr(id, 2 * PrevNo(o)));
  }

  lemma LinkAt(m: Image, id: nat, no: nat)
    requires id < CAPACITY && no < 4
    ensures IndexOf(m).entries[id].links[no] == GetId(m, PwdAddr(id, 2 * no))
  {
    hide IdOf;
    var b := BlockOf(m, id);
    assert b[2 * no] == m[PwdAddr(id, 2 * no)] && b[2 * no + 1] == m[PwdAddr(id, 2 * no) + 1];
  }

  lemma LinkWritten(m: Image, id: nat, no: nat, v: nat)
    requires id < CAPACITY && no < 4 && v < 65536
    ensures
      var e := IndexOf(m).entries[id];
      IndexOf(Splice(m, PwdAddr(id, 2 * no), IdBytes(v))) ==
        IndexOf(m).(entries := IndexOf(m).entries[id := e.(links := e.links[no := v])])
  {
    hide Splice, EntryOf, BlockOf, IdBytes;
    IndexAfterSplice(m, id, 2 * no, IdBytes(v));
    EntryAfterLink(BlockOf(m, id), no, v);
  }

  /** password_set_next_pwd_use, password_set_next_pwd_alpha */
  method SetNext(w: Wallet, o: Order, id: nat, v: nat)
    requires w.Valid() && id < CAPACITY && v < 65536
    modifies w.fram, w`log
    ensures IndexOf(w.fram[..]) == PutNext(IndexOf(old(w.fram[..])), o, id, v)
  {
    hide Splice, IndexOf, IdBytes;
    LinkWritten(w.fram[..], id, NextNo(o), v);
    w.WriteId(PwdAddr(id, 2 * NextNo(o)), v);
  }

  /** password_set_prev_pwd_use, password_set_prev_pwd_alpha */
  method SetPrev(w: Wallet, o: Order, id: nat, v: nat)
    requires w.Valid() && id < CAPACITY && v < 65536
    modifies w.fram, w`log
    ensures IndexOf(w.fram[..]) == PutPrev(IndexOf(old(w.fram[..])), o, id, v)
  {
    hide Splice, IndexOf, IdBytes;
    LinkWritten(w.fram[..], id, PrevNo(o), v);
    w.WriteId(PwdAddr(id, 2 * PrevNo(o)), v);
  }

  /** pwd_list_get_first_pwd_id_sort_use, pwd_list_get_first_pwd_id_sort_alpha */
  method ReadFirst(w: Wallet, o: Order) returns (first: nat)
    requires w.Valid()
    ensures first == First(IndexOf(w.fram[..]), o) && first < 65536
  {
    hide EntryOf, BlockOf, IdOf;
    first := w.ReadId(OFFSET_FIRST_PWD_USE + 2 * HeadNo(o));
  }

  method SetFirst(w: Wallet, o: Order, v: nat)
    requires w.Valid() && v < 65536
    modifies w.fram, w`log
    ensures IndexOf(w.fram[..]) == PutFirst(IndexOf(old(w.fram[..])), o, v)
  {
    hide Splice, IndexOf, IdBytes;
    IndexAfterHead(w.fram[..], o, v);
    w.WriteId(OFFSET_FIRST_PWD_USE + 2 * HeadNo(o), v);
  }

  // ----- what is compared -----

  /** The bytes of a C string. */
  function CStr(s: seq<bv8>): (t: seq<bv8>)
    ensures |t| <= |s|
  {
    if s == [] || s[0] == 0 then [] else [s[0]] + CStr(s[1..])
  }

  predicate Terminated(s: seq<bv8>) {
    0 in s
  }

  function UpperByte(b: bv8): bv8 {
    if 97 <= b <= 122 then b - 32 else b
  }

  function Upper(s: seq<bv8>): (t: seq<bv8>)
    ensures |t| == |s|
  {
    seq(|s|, i requires 0 <= i < |s| => UpperByte(s[i]))
  }

  /** The letters a to z lose 32, and nothing else changes. */
  lemma UpperIs(s: seq<bv8>, i: nat)
    requires i < |s|
    ensures ToNat(Upper(s)[i]) == if 97 <= ToNat(s[i]) <= 122 then ToNat(s[i]) - 32 else ToNat(s[i])
  {
  }

  function KeyOf(e: Entry, o: Order): Key {
    if o.ByUse? then Count(e.count) else Text(Upper(CStr(e.name)))
  }

  function KeysOf(x: Index, o: Order): (keys: seq<Key>)
    ensures |keys| == |x.entries|
  {
    seq(|x.entries|, id requires 0 <= id < |x.entries| => KeyOf(x.entries[id], o))
  }

  /** It goes up to the first zero, or is all of the buffer. */
  lemma {:induction false} CStrEnds(s: seq<bv8>)
    ensures
      var n := |CStr(s)|;
      CStr(s) == s[..n] && 0 !in s[..n] && (n < |s| ==> s[n] == 0)
  {
    if s != [] && s[0] != 0 {
      CStrEnds(s[1..]);
      var n := |CStr(s[1..])|;
      assert s[..n + 1] == [s[0]] + s[1..][..n];
    }
  }

  lemma {:induction false} CStrIs(s: seq<bv8>, n: nat)
    requires n < |s| && s[n] == 0 && forall i: nat | i < n :: s[i] != 0
    ensures CStr(s) == s[..n]
    decreases n
  {
    if n > 0 {
      CStrIs(s[1..], n - 1);
      assert s[..n] == [s[0]] + s[1..][..n - 1];
    }
  }

  lemma UpperNotZero(b: bv8)
    ensures UpperByte(b) == 0 <==> b == 0
  {
  }

  /** upper: up to the end of the string the letters a to z lose 32; nothing else changes. */
  method ToUpper(str: array<bv8>)
    requires Terminated(str[..])
    modifies str
    ensures CStr(str[..]) == Upper(CStr(old(str[..])))
    ensures
      var s := old(str[..]);
      str[..] == Upper(CStr(s)) + s[|CStr(s)|..]
  {
    ghost var s := str[..];
    ghost var end :| 0 <= end < |s| && s[end] == 0;
    var i := 0;
    while str[i] != 0
      invariant 0 <= i <= end
      invariant forall j: nat | j < str.Length :: str[j] == if j < i then UpperByte(s[j]) else s[j]
      invariant forall j: nat | j < i :: s[j] != 0
      decreases end - i
    {
      if 97 <= str[i] <= 122 {
        str[i] := str[i] - 32;
      }
      i := i + 1;
    }
    CStrIs(s, i);
    forall j: nat | j < i
      ensures str[j] != 0
    {
      UpperNotZero(s[j]);
    }
    CStrIs(str[..], i);
    assert str[..][..i] == Upper(s[..i]);
  }

  /** The name field of a block, and its counter, low byte first. */
  function NameAt(m: seq<bv8>, id: nat): (name: seq<bv8>)
    requires |m| == FRAM_BYTE_SIZE && id < CAPACITY
    ensures |name| == 32
  {
    m[PwdAddr(id, PWD_OFFSET_PWD_NAME)..PwdAddr(id, PWD_OFFSET_PWD_IV)]
  }

  function CountAt(m: seq<bv8>, id: nat): nat
    requires |m| == FRAM_BYTE_SIZE && id < CAPACITY
  {
    ToNat(m[PwdAddr(id, PWD_OFFSET_PWD_COUNT)]) + 256 * ToNat(m[PwdAddr(id, PWD_OFFSET_PWD_COUNT) + 1])
  }

  /** What the list by use compares, read off the FRAM. */
  lemma ComparedByUse(m: Image, a: nat, b: nat)
    requires a < CAPACITY && b < CAPACITY
    ensures Precedes(KeysOf(IndexOf(m), ByUse)[a], KeysOf(IndexOf(m), ByUse)[b]) <==> CountAt(m, a) > CountAt(m, b)
  {
    hide BlockOf, ToNat;
    KeyAt(m, a);
    KeyAt(m, b);
  }

  /** And the list by name. */
  lemma ComparedByName(m: Image, a: nat, b: nat)
    requires a < CAPACITY && b < CAPACITY
    ensures Precedes(KeysOf(IndexOf(m), ByName)[a], KeysOf(IndexOf(m), ByName)[b]) <==>
      Less(Upper(CStr(NameAt(m, a))), Upper(CStr(NameAt(m, b))))
  {
    hide BlockOf, IdOf, Upper, CStr, Less;
    KeyAt(m, a);
    KeyAt(m, b);
  }

  /** The comparison of the two sorting functions: whether `current` has to go before `prev`. */
  method GoesBefore(w: Wallet, o: Order, current: nat, prev: nat) returns (before: bool)
    requires w.Valid() && current < CAPACITY && prev < CAPACITY
    requires o.ByName? ==>
      && Terminated(IndexOf(w.fram[..]).entries[current].name)
      && Terminated(IndexOf(w.fram[..]).entries[prev].name)
    ensures before ==
      Precedes(KeysOf(IndexOf(w.fram[..]), o)[current], KeysOf(IndexOf(w.fram[..]), o)[prev])
    ensures o.ByUse? ==> (before <==> CountAt(w.fram[..], current) > CountAt(w.fram[..], prev))
    ensures o.ByName? ==>
      var c, p := Upper(CStr(NameAt(w.fram[..], current))), Upper(CStr(NameAt(w.fram[..], prev)));
      before <==> exists n: nat :: n <= |c| && n < |p| && c[..n] == p[..n] && (n == |c| || ToNat(c[n]) < ToNat(p[n]))
  {
    hide IdOf, BlockOf, Less, CStr, Terminated, Upper, ToNat, KeysOf, Precedes, IndexOf, NameAt, CountAt;
    ghost var m := w.fram[..];
    KeyAt(m, current);
    KeyAt(m, prev);
    if o.ByUse? {
      var currentCount := w.ReadId(PwdAddr(current, PWD_OFFSET_PWD_COUNT));
      var prevCount := w.ReadId(PwdAddr(prev, PWD_OFFSET_PWD_COUNT));
      before := currentCount > prevCount;
      ComparedByUse(m, current, prev);
    } else {
      var nameCurrent := ReadUpperName(w, current);
      var namePrev := ReadUpperName(w, prev);
      before := Less(CStr(nameCurrent[..]), CStr(namePrev[..]));
      ComparedByName(m, current, prev);
      LessIs(CStr(nameCurrent[..]), CStr(namePrev[..]));
    }
  }

  /** password_read_name followed by upper. */
  method ReadUpperName(w: Wallet, id: nat) returns (name: array<bv8>)
    requires w.Valid() && id < CAPACITY && Terminated(IndexOf(w.fram[..]).entries[id].name)
    ensures fresh(name) && CStr(name[..]) == Upper(CStr(IndexOf(w.fram[..]).entries[id].name))
  {
    hide IdOf, BlockOf, CStr, Terminated, Upper;
    KeyAt(w.fram[..], id);
    name := new bv8[32](_ => 0);
    w.FramReadBytes(PwdAddr(id, PWD_OFFSET_PWD_NAME), name, 32);
    assert name[..] == IndexOf(w.fram[..]).entries[id].name;
    ToUpper(name);
  }

  lemma KeyAt(m: Image, id: nat)
    requires id < CAPACITY
    ensures IndexOf(m).entries[id].count == GetId(m, PwdAddr(id, PWD_OFFSET_PWD_COUNT)) == CountAt(m, id)
    ensures IndexOf(m).entries[id].name == m[PwdAddr(id, PWD_OFFSET_PWD_NAME)..PwdAddr(id, PWD_OFFSET_PWD_IV)]
      == NameAt(m, id)
  {
    hide ToNat;
    var b := BlockOf(m, id);
    assert b[PWD_OFFSET_PWD_COUNT] == m[PwdAddr(id, PWD_OFFSET_PWD_COUNT)];
    assert b[PWD_OFFSET_PWD_COUNT + 1] == m[PwdAddr(id, PWD_OFFSET_PWD_COUNT) + 1];
    SliceOfSlice(m, PwdAddr(id, 0), PwdAddr(id, SIZE_OF_PWD_BLOCK), PWD_OFFSET_PWD_NAME, PWD_OFFSET_PWD_IV);
  }

  /** Where the parts of a block stand in the FRAM. */
  lemma BlockStoredAt(m: Image, id: nat)
    requires id < CAPACITY
    ensures
      var x, a := IndexOf(m), 535 + 170 * id;
      && Prev(x, ByUse, id) == ToNat(m[a]) + 256 * ToNat(m[a + 1])
      && Next(x, ByUse, id) == ToNat(m[a + 2]) + 256 * ToNat(m[a + 3])
      && Prev(x, ByName, id) == ToNat(m[a + 4]) + 256 * ToNat(m[a + 5])
      && Next(x, ByName, id) == ToNat(m[a + 6]) + 256 * ToNat(m[a + 7])
      && x.entries[id].count == ToNat(m[a + 8]) + 256 * ToNat(m[a + 9])
      && x.entries[id].name == m[a + 10..a + 42]
  {
    hide ToNat, BlockOf, IndexOf;
    LinkAt(m, id, 0);
    LinkAt(m, id, 1);
    LinkAt(m, id, 2);
    LinkAt(m, id, 3);
    KeyAt(m, id);
  }

  /** Where list heads, counter and memory map stand. */
  lemma HeadStoredAt(m: Image, id: nat)
    requires id < 8 * SIZE_MEMORY_MAP
    ensures First(IndexOf(m), ByUse) == ToNat(m[1]) + 256 * ToNat(m[2])
    ensures First(IndexOf(m), ByName) == ToNat(m[3]) + 256 * ToNat(m[4])
    ensures IndexOf(m).num == ToNat(m[5]) + 256 * ToNat(m[6])
    ensures Used(m, id) <==> m[263 + id / 8] & [1, 2, 4, 8, 16, 32, 64, 128][id % 8] != 0
  {
    hide Bit, EntryOf, BlockOf, ToNat;
    BitIs(m[263 + id / 8], id % 8);
  }

  // ----- swapping and sorting -----

  /** swap_neighbours */
  method SwapNeighbours(w: Wallet, o: Order, lower: nat, upper: nat)
    requires w.Valid() && lower < CAPACITY && upper < CAPACITY
    requires Prev(IndexOf(w.fram[..]), o, lower) == MAXIMUM_NUMBER_OF_PWD || Prev(IndexOf(w.fram[..]), o, lower) < CAPACITY
    requires Next(IndexOf(w.fram[..]), o, upper) == MAXIMUM_NUMBER_OF_PWD || Next(IndexOf(w.fram[..]), o, upper) < CAPACITY
    modifies w.fram, w`log
    ensures IndexOf(w.fram[..]) == Swap(IndexOf(old(w.fram[..])), o, lower, upper)
  {
    hide IndexOf, PutNext, PutPrev, Next, Prev, WellFormed, SameButLinks;
    var prevLower := ReadPrev(w, o, lower);
    var nextUpper := ReadNext(w, o, upper);
    SetPrev(w, o, lower, upper);
    SetNext(w, o, lower, nextUpper);
    SetPrev(w, o, upper, prevLower);
    SetNext(w, o, upper, lower);
    if prevLower != MAXIMUM_NUMBER_OF_PWD {
      SetNext(w, o, prevLower, upper);
    }
    if nextUpper != MAXIMUM_NUMBER_OF_PWD {
      SetPrev(w, o, nextUpper, lower);
    }
  }
}
