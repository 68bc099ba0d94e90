/** Power cuts: an operation is a sequence of steps, a cut leaves the memories as
  some prefix of the steps made them. A step is the unit a cut cannot split: one
  write, unless a theorem says otherwise. */
module Crash {
  import opened Bytes
  import opened Memory

  type Step = seq<Write>

  function RunSteps(s: Store, steps: seq<Step>): Store
    decreases |steps|
  {
    if steps == [] then s else RunSteps(ApplyAll(s, steps[0]), steps[1..])
  }

  function Flatten(steps: seq<Step>): seq<Write> {
    if steps == [] then [] else steps[0] + Flatten(steps[1..])
  }

  /** Every write a step of its own. */
  function Singly(ws: seq<Write>): (steps: seq<Step>)
    ensures |steps| == |ws|
  {
    seq(|ws|, i requires 0 <= i < |ws| => [ws[i]])
  }

  lemma {:induction false} RunAppend(s: Store, a: seq<Step>, b: seq<Step>)
    ensures RunSteps(s, a + b) == RunSteps(RunSteps(s, a), b)
    decreases |a|
  {
    if a == [] {
      assert a + b == b;
    } else {
      assert (a + b)[1..] == a[1..] + b;
      RunAppend(ApplyAll(s, a[0]), a[1..], b);
    }
  }

  lemma {:induction false} FlattenAppend(a: seq<Step>, b: seq<Step>)
    ensures Flatten(a + b) == Flatten(a) + Flatten(b)
  {
    if a == [] {
      assert a + b == b;
    } else {
      assert (a + b)[1..] == a[1..] + b;
      FlattenAppend(a[1..], b);
    }
  }

  lemma {:induction false} FlattenSingly(ws: seq<Write>)
    ensures Flatten(Singly(ws)) == ws
  {
    if ws != [] {
      assert Singly(ws)[1..] == Singly(ws[1..]);
      FlattenSingly(ws[1..]);
    }
  }

  /** Running the steps is applying their writes in order. */
  lemma {:induction false} RunIsApply(s: Store, steps: seq<Step>)
    ensures RunSteps(s, steps) == ApplyAll(s, Flatten(steps))
    decreases |steps|
  {
    if steps != [] {
      RunIsApply(ApplyAll(s, steps[0]), steps[1..]);
      ApplyAppend(s, steps[0], Flatten(steps[1..]));
    }
  }

  lemma RunSingly(s: Store, ws: seq<Write>)
    ensures RunSteps(s, Singly(ws)) == ApplyAll(s, ws)
  {
    RunIsApply(s, Singly(ws));
    FlattenSingly(ws);
  }

  // ----- what holds wherever the power is cut -----

  ghost predicate Always(p: Store -> bool, s: Store, steps: seq<Step>)
    decreases |steps|
  {
    p(s) && (steps != [] ==> Always(p, ApplyAll(s, steps[0]), steps[1..]))
  }

  lemma {:induction false} AlwaysAppend(p: Store -> bool, s: Store, a: seq<Step>, b: seq<Step>)
    requires Always(p, s, a)
    requires Always(p, RunSteps(s, a), b)
    ensures Always(p, s, a + b)
    decreases |a|
  {
    if a == [] {
      assert a + b == b;
    } else {
      assert (a + b)[1..] == a[1..] + b;
      AlwaysAppend(p, ApplyAll(s, a[0]), a[1..], b);
    }
  }

  /** A cut after any number of steps. */
  lemma {:induction false} AlwaysCut(p: Store -> bool, s: Store, steps: seq<Step>, k: nat)
    requires Always(p, s, steps) && k <= |steps|
    ensures p(RunSteps(s, steps[..k]))
    decreases |steps|
  {
    if k > 0 {
      assert steps[..k][1..] == steps[1..][..k - 1];
      AlwaysCut(p, ApplyAll(s, steps[0]), steps[1..], k - 1);
    }
  }

  /** The same except for FRAM bytes from lo up to hi and the entropy pool. */
  ghost predicate SameOutside(s: Store, t: Store, lo: nat, hi: nat) {
    && t == s.(fram := t.fram)
    && forall a: nat | a < FRAM_BYTE_SIZE && !(lo <= a < hi) && !InPool(a) :: t.fram[a] == s.fram[a]
  }

  /** FRAM writes to addresses from lo up to hi and to the entropy pool only. */
  ghost predicate Within(ws: seq<Write>, lo: nat, hi: nat) {
    forall i: nat | i < |ws| :: ws[i].ToFram? && (lo <= ws[i].addr < hi || InPool(ws[i].addr))
  }

  /** Writes to a region change nothing outside it. */
  lemma {:induction false} WritesStayWithin(s: Store, ws: seq<Write>, lo: nat, hi: nat)
    requires Within(ws, lo, hi)
    ensures SameOutside(s, ApplyAll(s, ws), lo, hi)
    decreases |ws|
  {
    if ws != [] {
      WritesStayWithin(Apply(s, ws[0]), ws[1..], lo, hi);
    }
  }

  /** A property that does not look at a region holds all the while it is being written. */
  lemma {:induction false} AlwaysWithin(p: Store -> bool, s: Store, ws: seq<Write>, lo: nat, hi: nat)
    requires hi <= FRAM_BYTE_SIZE && Within(ws, lo, hi)
    requires forall t | SameOutside(s, t, lo, hi) :: p(t)
    ensures Always(p, s, Singly(ws))
    ensures RunSteps(s, Singly(ws)) == ApplyAll(s, ws)
    ensures SameOutside(s, ApplyAll(s, ws), lo, hi)
    decreases |ws|
  {
    RunSingly(s, ws);
    assert SameOutside(s, s, lo, hi);
    if ws != [] {
      var s1 := Apply(s, ws[0]);
      ApplyOne(s, ws[0]);
      assert Singly(ws)[1..] == Singly(ws[1..]);
      assert SameOutside(s, s1, lo, hi);
      forall t | SameOutside(s1, t, lo, hi)
        ensures p(t) && SameOutside(s, t, lo, hi)
      {
        assert SameOutside(s, t, lo, hi);
      }
      AlwaysWithin(p, s1, ws[1..], lo, hi);
    }
  }

  lemma AlwaysWriting(p: Store -> bool, s: Store, addr: nat, bytes: seq<bv8>)
    requires addr + |bytes| <= FRAM_BYTE_SIZE
    requires forall t | SameOutside(s, t, addr, addr + |bytes|) :: p(t)
    ensures Always(p, s, Singly(FramWrites(addr, bytes)))
    ensures RunSteps(s, Singly(FramWrites(addr, bytes))) == s.(fram := Splice(s.fram, addr, bytes))
  {
    AlwaysWithin(p, s, FramWrites(addr, bytes), addr, addr + |bytes|);
    ApplyFramWrites(s, addr, bytes);
  }

  /** Writing what is there already changes nothing. */
  lemma {:induction false} AlwaysRewriting(p: Store -> bool, s: Store, addr: nat, bytes: seq<bv8>)
    requires addr + |bytes| <= FRAM_BYTE_SIZE && bytes == s.fram[addr..addr + |bytes|]
    requires p(s)
    ensures Always(p, s, Singly(FramWrites(addr, bytes)))
    ensures RunSteps(s, Singly(FramWrites(addr, bytes))) == s
    decreases |bytes|
  {
    var ws := FramWrites(addr, bytes);
    if bytes != [] {
      assert bytes[0] == s.fram[addr];
      assert s.fram[addr := bytes[0]] == s.fram;
      ApplyOne(s, ws[0]);
      assert ws[1..] == FramWrites(addr + 1, bytes[1..]);
      assert Singly(ws)[1..] == Singly(ws[1..]);
      AlwaysRewriting(p, s, addr + 1, bytes[1..]);
    }
  }

  lemma AlwaysOneWrite(p: Store -> bool, s: Store, w: Write)
    requires p(s) && p(Apply(s, w))
    ensures Always(p, s, [[w]])
    ensures RunSteps(s, [[w]]) == Apply(s, w)
  {
    ApplyOne(s, w);
    assert [[w]][1..] == [];
  }
}
