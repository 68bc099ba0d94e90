/** The memory map: which blocks are in use. */
module MemoryMap {
  import opened Bytes
  import opened Memory

  /** The ids in use from lo up to hi, in order. */
  function UsedFrom(m: seq<bv8>, lo: nat, hi: nat): (ids: seq<nat>)
    requires |m| >= OFFSET_BACKUP_STATUS && hi <= 8 * SIZE_MEMORY_MAP
    ensures forall i: nat | i < |ids| :: lo <= ids[i] < hi && Used(m, ids[i])
    ensures forall id: nat | lo <= id < hi && Used(m, id) :: id in ids
    decreases hi - lo
  {
    if lo >= hi then [] else (if Used(m, lo) then [lo] else []) + UsedFrom(m, lo + 1, hi)
  }

  lemma UsedFromStep(m: seq<bv8>, lo: nat, hi: nat)
    requires |m| >= OFFSET_BACKUP_STATUS && hi <= 8 * SIZE_MEMORY_MAP
    ensures lo >= hi ==> UsedFrom(m, lo, hi) == [] && UsedFrom(m, lo + 1, hi) == []
    ensures lo < hi && Used(m, lo) ==> UsedFrom(m, lo, hi) == [lo] + UsedFrom(m, lo + 1, hi)
    ensures lo < hi && !Used(m, lo) ==> UsedFrom(m, lo, hi) == UsedFrom(m, lo + 1, hi)
  {
  }

  lemma UsedBeyond(m: seq<bv8>, lo: nat, hi: nat)
    requires |m| >= OFFSET_BACKUP_STATUS && hi <= 8 * SIZE_MEMORY_MAP
    ensures lo >= hi ==> UsedFrom(m, lo, hi) == []
  {
  }

  lemma {:induction false} SameUsed(m: seq<bv8>, m': seq<bv8>, lo: nat, hi: nat)
    requires |m| >= OFFSET_BACKUP_STATUS && |m'| >= OFFSET_BACKUP_STATUS && hi <= 8 * SIZE_MEMORY_MAP
    requires HeadOf(m) == HeadOf(m')
    ensures UsedFrom(m, lo, hi) == UsedFrom(m', lo, hi)
    decreases hi - lo
  {
    if lo < hi {
      hide HeadOf, Used;
      SameUsed(m, m', lo + 1, hi);
      UsedInHead(m, lo);
      UsedInHead(m', lo);
    }
  }

  lemma MapBit(head: seq<bv8>, i: nat, j: nat, memoryByte: bv8)
    requires |head| >= OFFSET_BACKUP_STATUS && i < SIZE_MEMORY_MAP && j < 8
    requires memoryByte == head[OFFSET_MEMORY_MAP + i]
    ensures Used(head, i * 8 + j) == Bit(memoryByte, j)
  {
    assert (i * 8 + j) / 8 == i && (i * 8 + j) % 8 == j;
  }

  ghost predicate Ascending(ids: seq<nat>) {
    forall i: nat, j: nat | i < j < |ids| :: ids[i] < ids[j]
  }

  lemma {:induction false} UsedAscending(m: seq<bv8>, lo: nat, hi: nat)
    requires |m| >= OFFSET_BACKUP_STATUS && hi <= 8 * SIZE_MEMORY_MAP
    ensures Ascending(UsedFrom(m, lo, hi))
    decreases hi - lo
  {
    hide Used, UsedFrom;
    if lo < hi {
      var rest := UsedFrom(m, lo + 1, hi);
      UsedAscending(m, lo + 1, hi);
      AscendingFrom(lo, rest);
    }
    UsedFromStep(m, lo, hi);
  }

  lemma AscendingFrom(x: nat, ids: seq<nat>)
    requires Ascending(ids) && forall i: nat | i < |ids| :: x < ids[i]
    ensures Ascending([x] + ids)
  {
  }

  lemma {:induction false} UsedSplit(m: seq<bv8>, lo: nat, mid: nat, hi: nat)
    requires |m| >= OFFSET_BACKUP_STATUS && lo <= mid <= hi <= 8 * SIZE_MEMORY_MAP
    ensures UsedFrom(m, lo, hi) == UsedFrom(m, lo, mid) + UsedFrom(m, mid, hi)
    decreases mid - lo
  {
    hide Used, UsedFrom;
    UsedBeyond(m, mid, mid);
    if lo < mid {
      UsedFromStep(m, lo, mid);
      UsedFromStep(m, lo, hi);
      UsedSplit(m, lo + 1, mid, hi);
      Joined([lo], UsedFrom(m, lo + 1, mid), UsedFrom(m, mid, hi));
    } else {
      Joined([], [], UsedFrom(m, mid, hi));
    }
  }

  lemma Joined(a: seq<nat>, b: seq<nat>, c: seq<nat>)
    ensures a + (b + c) == a + b + c && [] + c == c
  {
  }

  /** The first and the last of them have none before and behind them. */
  lemma EndsOfUsed(m: seq<bv8>, lo: nat, hi: nat)
    requires |m| >= OFFSET_BACKUP_STATUS && hi <= 8 * SIZE_MEMORY_MAP && UsedFrom(m, lo, hi) != []
    ensures
      var ids := UsedFrom(m, lo, hi);
      var first, last := ids[0], ids[|ids| - 1];
      && lo <= first < hi && Used(m, first) && (forall k: nat | lo <= k < first :: !Used(m, k))
      && lo <= last < hi && Used(m, last) && (forall k: nat | last < k < hi :: !Used(m, k))
  {
    hide Used, Ascending;
    var ids := UsedFrom(m, lo, hi);
    UsedAscending(m, lo, hi);
    hide UsedFrom;
    forall k | k in ids
      ensures ids[0] <= k <= ids[|ids| - 1]
    {
      BetweenEnds(ids, k);
    }
  }

  lemma BetweenEnds(ids: seq<nat>, k: nat)
    requires Ascending(ids) && k in ids
    ensures ids[0] <= k <= ids[|ids| - 1]
  {
    var i :| 0 <= i < |ids| && ids[i] == k;
  }

  lemma NoneUsed(m: seq<bv8>, lo: nat, hi: nat)
    requires |m| >= OFFSET_BACKUP_STATUS && hi <= 8 * SIZE_MEMORY_MAP
    ensures UsedFrom(m, lo, hi) == [] <==> forall id: nat | lo <= id < hi :: !Used(m, id)
  {
    var ids := UsedFrom(m, lo, hi);
    if ids != [] {
      assert Used(m, ids[0]);
    }
  }
}
