/** What the two orders compare, and insertion sort as a function: stable, sorted and a
  permutation. */
module Sorting {
  import opened Bytes

  datatype Key = Count(n: nat) | Text(text: seq<bv8>)

  predicate Less(a: seq<bv8>, b: seq<bv8>)
    decreases |a|
  {
    b != [] && (a == [] || a[0] < b[0] || (a[0] == b[0] && Less(a[1..], b[1..])))
  }

  /** The strict order of a list: more uses first, names alphabetically. */
  predicate Precedes(a: Key, b: Key) {
    match (a, b)
    case (Count(m), Count(n)) => m > n
    case (Text(s), Text(t)) => Less(s, t)
    case (Count(_), Text(_)) => true
    case (Text(_), Count(_)) => false
  }

  /** Alphabetical: at the first place where they differ, a has ended or has the lower byte. */
  lemma LessIs(a: seq<bv8>, b: seq<bv8>)
    ensures Less(a, b) <==>
      exists n: nat :: n <= |a| && n < |b| && a[..n] == b[..n] && (n == |a| || ToNat(a[n]) < ToNat(b[n]))
  {
    if Less(a, b) {
      var n := PlaceOfLess(a, b);
    }
    if n: nat :| n <= |a| && n < |b| && a[..n] == b[..n] && (n == |a| || ToNat(a[n]) < ToNat(b[n])) {
      LessAtPlace(a, b, n);
    }
  }

  lemma {:induction false} PlaceOfLess(a: seq<bv8>, b: seq<bv8>) returns (n: nat)
    requires Less(a, b)
    ensures n <= |a| && n < |b| && a[..n] == b[..n] && (n == |a| || ToNat(a[n]) < ToNat(b[n]))
    decreases |a|
  {
    if a == [] {
      n := 0;
    } else {
      hide ToNat;
      ByteOrder(a[0], b[0]);
      if a[0] < b[0] {
        n := 0;
      } else {
        var k := PlaceOfLess(a[1..], b[1..]);
        n := k + 1;
        assert a[..n] == [a[0]] + a[1..][..k] && b[..n] == [b[0]] + b[1..][..k];
      }
    }
  }

  lemma {:induction false} LessAtPlace(a: seq<bv8>, b: seq<bv8>, n: nat)
    requires n <= |a| && n < |b| && a[..n] == b[..n] && (n == |a| || ToNat(a[n]) < ToNat(b[n]))
    ensures Less(a, b)
    decreases n
  {
    hide ToNat;
    if n > 0 {
      assert a[0] == a[..n][0] == b[..n][0] == b[0];
      assert a[1..][..n - 1] == a[..n][1..] && b[1..][..n - 1] == b[..n][1..];
      LessAtPlace(a[1..], b[1..], n - 1);
    } else if a != [] {
      ByteOrder(a[0], b[0]);
    }
  }

  lemma {:induction false} LessAsymmetric(a: seq<bv8>, b: seq<bv8>)
    ensures !(Less(a, b) && Less(b, a))
    decreases |a|
  {
    if a != [] && b != [] {
      LessAsymmetric(a[1..], b[1..]);
    }
  }

  lemma {:induction false} LessTransitive(a: seq<bv8>, b: seq<bv8>, c: seq<bv8>)
    requires !Less(b, a) && !Less(c, b)
    ensures !Less(c, a)
    decreases |a|
  {
    if a != [] && b != [] && c != [] && a[0] == b[0] == c[0] {
      LessTransitive(a[1..], b[1..], c[1..]);
    }
  }

  lemma {:induction false} LessTotal(a: seq<bv8>, b: seq<bv8>)
    ensures Less(a, b) || Less(b, a) || a == b
    decreases |a|
  {
    if a != [] && b != [] {
      LessTotal(a[1..], b[1..]);
      if a[0] == b[0] && a[1..] == b[1..] {
        assert a == [a[0]] + a[1..] && b == [b[0]] + b[1..];
      }
    }
  }

  /** In alphabetical order or the same: no difference, or one in which a has the lower byte. */
  lemma NotAfterIs(a: seq<bv8>, b: seq<bv8>)
    ensures !Less(b, a) <==>
      exists n: nat :: n <= |a| && n <= |b| && a[..n] == b[..n] && (n == |a| || (n < |b| && ToNat(a[n]) < ToNat(b[n])))
  {
    hide ToNat, Less;
    LessTotal(a, b);
    LessAsymmetric(a, b);
    if Less(a, b) {
      var n := PlaceOfLess(a, b);
    } else if a == b {
      assert a[..|a|] == b[..|a|];
    }
    if n: nat :| n <= |a| && n <= |b| && a[..n] == b[..n] && (n == |a| || (n < |b| && ToNat(a[n]) < ToNat(b[n]))) {
      if n < |b| {
        LessAtPlace(a, b, n);
      } else {
        assert a == a[..n] == b[..n] == b;
      }
    }
  }

  lemma PrecedesAsymmetric(a: Key, b: Key)
    ensures !(Precedes(a, b) && Precedes(b, a))
  {
    if a.Text? && b.Text? {
      LessAsymmetric(a.text, b.text);
    }
  }

  /** "Does not come before" is transitive. */
  lemma PrecedesTransitive(a: Key, b: Key, c: Key)
    requires !Precedes(b, a) && !Precedes(c, b)
    ensures !Precedes(c, a)
  {
    if a.Text? && b.Text? && c.Text? {
      LessTransitive(a.text, b.text, c.text);
    }
  }

  // ----- insertion sort -----

  predicate Keyed(keys: seq<Key>, l: seq<nat>) {
    forall i: nat | i < |l| :: l[i] < |keys|
  }

  /** Insertion from the right: past everything the new id comes strictly before. */
  function Insert(keys: seq<Key>, s: seq<nat>, id: nat): (r: seq<nat>)
    requires Keyed(keys, s) && id < |keys|
    ensures |r| == |s| + 1 && Keyed(keys, r)
    decreases |s|
  {
    if s == [] || !Precedes(keys[id], keys[s[|s| - 1]]) then s + [id]
    else Insert(keys, s[..|s| - 1], id) + [s[|s| - 1]]
  }

  function ISort(keys: seq<Key>, l: seq<nat>): (r: seq<nat>)
    requires Keyed(keys, l)
    ensures |r| == |l| && Keyed(keys, r)
    decreases |l|
  {
    if l == [] then [] else Insert(keys, ISort(keys, l[..|l| - 1]), l[|l| - 1])
  }

  lemma {:induction false} InsertPermutes(keys: seq<Key>, s: seq<nat>, id: nat)
    requires Keyed(keys, s) && id < |keys|
    ensures multiset(Insert(keys, s, id)) == multiset(s) + multiset{id}
    decreases |s|
  {
    hide Precedes;
    if s != [] && Precedes(keys[id], keys[s[|s| - 1]]) {
      InsertPermutes(keys, s[..|s| - 1], id);
      assert s == s[..|s| - 1] + [s[|s| - 1]];
    }
  }

  /** No id comes strictly before an earlier one. */
  ghost predicate Sorted(keys: seq<Key>, l: seq<nat>)
    requires Keyed(keys, l)
  {
    forall i: nat, j: nat | i < j < |l| :: !Precedes(keys[l[j]], keys[l[i]])
  }

  predicate Alike(a: Key, b: Key) {
    !Precedes(a, b) && !Precedes(b, a)
  }

  /** The ids of l that compare equal to k, in their order in l. */
  function AllAlike(keys: seq<Key>, k: Key, l: seq<nat>): seq<nat>
    requires Keyed(keys, l)
    decreases |l|
  {
    if l == [] then []
    else
      var id := l[|l| - 1];
      AllAlike(keys, k, l[..|l| - 1]) + if Alike(keys[id], k) then [id] else []
  }

  lemma SortedPrefix(keys: seq<Key>, l: seq<nat>, n: nat)
    requires Keyed(keys, l) && Sorted(keys, l) && n <= |l|
    ensures Sorted(keys, l[..n])
  {
  }

  lemma SortedSnoc(keys: seq<Key>, l: seq<nat>, id: nat)
    requires Keyed(keys, l) && Sorted(keys, l) && id < |keys|
    requires forall i: nat | i < |l| :: !Precedes(keys[id], keys[l[i]])
    ensures Sorted(keys, l + [id])
  {
  }

  lemma {:induction false} InsertSorted(keys: seq<Key>, s: seq<nat>, id: nat)
    requires Keyed(keys, s) && Sorted(keys, s) && id < |keys|
    ensures Sorted(keys, Insert(keys, s, id))
    decreases |s|
  {
    if s != [] {
      hide Precedes;
      var n := |s| - 1;
      var last := s[n];
      if Precedes(keys[id], keys[last]) {
        var r := Insert(keys, s[..n], id);
        SortedPrefix(keys, s, n);
        InsertSorted(keys, s[..n], id);
        forall i: nat | i < |r|
          ensures !Precedes(keys[last], keys[r[i]])
        {
          InsertMembers(keys, s[..n], id, i);
          PrecedesAsymmetric(keys[id], keys[last]);
        }
        hide Insert, Sorted;
        SortedSnoc(keys, r, last);
      } else {
        forall i: nat | i < |s|
          ensures !Precedes(keys[id], keys[s[i]])
        {
          if i < n {
            PrecedesTransitive(keys[s[i]], keys[last], keys[id]);
          }
        }
        SortedSnoc(keys, s, id);
      }
    }
  }

  lemma InsertMembers(keys: seq<Key>, s: seq<nat>, id: nat, i: nat)
    requires Keyed(keys, s) && id < |keys| && i < |Insert(keys, s, id)|
    ensures Insert(keys, s, id)[i] == id || Insert(keys, s, id)[i] in s
  {
    hide Insert;
    InsertPermutes(keys, s, id);
    var x := Insert(keys, s, id)[i];
    assert x in multiset(Insert(keys, s, id));
  }

  lemma AlikeSnoc(keys: seq<Key>, k: Key, l: seq<nat>, id: nat)
    requires Keyed(keys, l) && id < |keys|
    ensures AllAlike(keys, k, l + [id]) == AllAlike(keys, k, l) + if Alike(keys[id], k) then [id] else []
  {
    hide Alike;
    assert (l + [id])[..|l|] == l;
  }

  lemma InsertStep(keys: seq<Key>, s: seq<nat>, id: nat)
    requires Keyed(keys, s) && id < |keys|
    ensures s == [] || !Precedes(keys[id], keys[s[|s| - 1]]) ==> Insert(keys, s, id) == s + [id]
    ensures s != [] && Precedes(keys[id], keys[s[|s| - 1]]) ==>
      Insert(keys, s, id) == Insert(keys, s[..|s| - 1], id) + [s[|s| - 1]]
    ensures s != [] ==> s == s[..|s| - 1] + [s[|s| - 1]]
  {
    hide Precedes;
  }

  lemma {:induction false} InsertAlike(keys: seq<Key>, k: Key, s: seq<nat>, id: nat)
    requires Keyed(keys, s) && id < |keys|
    ensures AllAlike(keys, k, Insert(keys, s, id)) ==
      AllAlike(keys, k, s) + if Alike(keys[id], k) then [id] else []
    decreases |s|
  {
    hide Precedes, Insert, AllAlike;
    InsertStep(keys, s, id);
    AlikeSnoc(keys, k, s, id);
    if s != [] && Precedes(keys[id], keys[s[|s| - 1]]) {
      var n := |s| - 1;
      InsertAlike(keys, k, s[..n], id);
      AlikeSnoc(keys, k, Insert(keys, s[..n], id), s[n]);
      AlikeSnoc(keys, k, s[..n], s[n]);
      if Alike(keys[id], k) && Alike(keys[s[n]], k) {
        PrecedesTransitive(keys[s[n]], k, keys[id]);
      }
    }
  }

  /** The result is a permutation in order, and ids with equal keys stay in the order they had. */
  lemma {:induction false} SortIsStable(keys: seq<Key>, l: seq<nat>)
    requires Keyed(keys, l)
    ensures multiset(ISort(keys, l)) == multiset(l)
    ensures Sorted(keys, ISort(keys, l))
    ensures forall k :: AllAlike(keys, k, ISort(keys, l)) == AllAlike(keys, k, l)
    decreases |l|
  {
    if l != [] {
      hide Precedes, Insert, Sorted, AllAlike;
      var n := |l| - 1;
      var s := ISort(keys, l[..n]);
      SortIsStable(keys, l[..n]);
      InsertSorted(keys, s, l[n]);
      InsertPermutes(keys, s, l[n]);
      assert l == l[..n] + [l[n]];
      forall k
        ensures AllAlike(keys, k, ISort(keys, l)) == AllAlike(keys, k, l)
      {
        InsertAlike(keys, k, s, l[n]);
        AlikeSnoc(keys, k, l[..n], l[n]);
      }
    }
  }

  /** A list that is in order already is left as it is. */
  lemma {:induction false} SortOfSorted(keys: seq<Key>, l: seq<nat>)
    requires Keyed(keys, l) && Sorted(keys, l)
    ensures ISort(keys, l) == l
    decreases |l|
  {
    if l != [] {
      hide Precedes, Insert;
      var n := |l| - 1;
      SortedPrefix(keys, l, n);
      SortOfSorted(keys, l[..n]);
      InsertStep(keys, l[..n], l[n]);
      assert l == l[..n] + [l[n]];
    }
  }

  /** Where insertion puts an id that precedes all from p on but not the one before p. */
  lemma {:induction false} InsertPlace(keys: seq<Key>, s: seq<nat>, id: nat, p: nat)
    requires Keyed(keys, s) && id < |keys| && p <= |s|
    requires forall j: nat | p <= j < |s| :: Precedes(keys[id], keys[s[j]])
    requires p > 0 ==> !Precedes(keys[id], keys[s[p - 1]])
    ensures Insert(keys, s, id) == s[..p] + [id] + s[p..]
    decreases |s|
  {
    hide Precedes, Insert;
    InsertStep(keys, s, id);
    if p < |s| {
      var n := |s| - 1;
      InsertPlace(keys, s[..n], id, p);
      MovePlace(s, id, p);
    } else {
      assert s[..p] == s && s[p..] == [];
    }
  }

  lemma MovePlace(s: seq<nat>, id: nat, p: nat)
    requires p < |s|
    ensures s[..|s| - 1][..p] + [id] + s[..|s| - 1][p..] + [s[|s| - 1]] == s[..p] + [id] + s[p..]
  {
    assert s[..|s| - 1][p..] + [s[|s| - 1]] == s[p..];
  }
}
