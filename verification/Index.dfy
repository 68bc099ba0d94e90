/** The FRAM image field by field: the heads of the two lists, the counter, the memory
  map and, for every block, its links, its number of uses, its name and its secrets. */
module Index {
  import opened Bytes
  import opened Memory

  /** The two lists that run through the blocks. */
  datatype Order = ByUse | ByName

  datatype Entry = Entry(
    links: seq<nat>,  // previous and next by use, previous and next by name
    count: nat, name: seq<bv8>, secret: seq<bv8>)

  datatype Index = Index(
    flag: bv8, heads: seq<nat>, num: nat, pool: seq<bv8>, bits: seq<bv8>, backup: seq<bv8>,
    entries: seq<Entry>, tail: seq<bv8>)

  /** The links are the 16-bit fields at the start of a block. */
  function PrevNo(o: Order): nat {
    (if o.ByUse? then PWD_OFFSET_PREV_PWD_USE else PWD_OFFSET_PREV_PWD_ALPHA) / 2
  }

  function NextNo(o: Order): nat {
    (if o.ByUse? then PWD_OFFSET_NEXT_PWD_USE else PWD_OFFSET_NEXT_PWD_ALPHA) / 2
  }

  function HeadNo(o: Order): nat {
    if o.ByUse? then 0 else 1
  }

  function EntryOf(b: seq<bv8>): (e: Entry)
    requires |b| == SIZE_OF_PWD_BLOCK
    ensures |e.links| == 4
  {
    Entry(
      seq(4, i requires 0 <= i < 4 => IdOf(b[2 * i], b[2 * i + 1])),
      IdOf(b[PWD_OFFSET_PWD_COUNT], b[PWD_OFFSET_PWD_COUNT + 1]),
      b[PWD_OFFSET_PWD_NAME..PWD_OFFSET_PWD_IV],
      b[PWD_OFFSET_PWD_IV..])
  }

  function IndexOf(m: Image): (x: Index)
    ensures WellFormed(x)
  {
    Index(m[0], [GetId(m, OFFSET_FIRST_PWD_USE), GetId(m, OFFSET_FIRST_PWD_ALPHA)], GetId(m, OFFSET_NUM_PWD),
      m[OFFSET_ENTROPY_POOL..OFFSET_MEMORY_MAP], m[OFFSET_MEMORY_MAP..OFFSET_BACKUP_STATUS],
      m[OFFSET_BACKUP_STATUS..OFFSET_FIRST_PWD],
      seq(CAPACITY, id requires 0 <= id < CAPACITY => EntryOf(BlockOf(m, id))),
      m[PwdAddr(CAPACITY, 0)..])
  }

  ghost predicate WellFormed(x: Index) {
    && |x.heads| == 2 && |x.bits| == SIZE_MEMORY_MAP && |x.entries| == CAPACITY
    && forall id: nat | id < CAPACITY :: |x.entries[id].links| == 4
  }

  // ----- what a write does to the index -----

  /** Two images that agree outside one block. */
  lemma IndexAfterBlock(m: Image, m': Image, id: nat)
    requires id < CAPACITY
    requires m'[..PwdAddr(id, 0)] == m[..PwdAddr(id, 0)]
    requires m'[PwdAddr(id, SIZE_OF_PWD_BLOCK)..] == m[PwdAddr(id, SIZE_OF_PWD_BLOCK)..]
    ensures IndexOf(m') == IndexOf(m).(entries := IndexOf(m).entries[id := EntryOf(BlockOf(m', id))])
  {
    hide EntryOf, IdOf;
    var a, b := PwdAddr(id, 0), PwdAddr(id, SIZE_OF_PWD_BLOCK);
    forall i: nat | i < FRAM_BYTE_SIZE && !(a <= i < b)
      ensures m'[i] == m[i]
    {
      if i < a {
        assert m'[..a][i] == m[..a][i];
      } else {
        assert m'[b..][i - b] == m[b..][i - b];
      }
    }
    forall j: nat | j < CAPACITY && j != id
      ensures BlockOf(m', j) == BlockOf(m, j)
    {
    }
    assert IndexOf(m').entries == IndexOf(m).entries[id := EntryOf(BlockOf(m', id))];
  }

  lemma IndexAfterSplice(m: Image, id: nat, off: nat, t: seq<bv8>)
    requires id < CAPACITY && off + |t| <= SIZE_OF_PWD_BLOCK
    ensures IndexOf(Splice(m, PwdAddr(id, off), t)) ==
      IndexOf(m).(entries := IndexOf(m).entries[id := EntryOf(Splice(BlockOf(m, id), off, t))])
  {
    hide EntryOf, IndexOf, Splice;
    var a, b := PwdAddr(id, 0), PwdAddr(id, SIZE_OF_PWD_BLOCK);
    SpliceInWindow(m, a + off, t, a, b);
    SpliceKeepsEnds(m, a + off, t, a, b);
    IndexAfterBlock(m, Splice(m, a + off, t), id);
  }

  lemma SpliceKeepsEnds(m: seq<bv8>, off: nat, t: seq<bv8>, a: nat, b: nat)
    requires a <= off && off + |t| <= b <= |m|
    ensures Splice(m, off, t)[..a] == m[..a]
    ensures Splice(m, off, t)[b..] == m[b..]
  {
  }

  /** Random bytes that are drawn change the entropy pool only. */
  lemma IndexAfterPool(m: Image, pool: seq<bv8>)
    requires |pool| == SIZE_ENTROPY_POOL
    ensures IndexOf(WithPool(m, pool)) == IndexOf(m).(pool := pool)
  {
    hide EntryOf, IdOf;
    var lo, hi := OFFSET_ENTROPY_POOL, OFFSET_MEMORY_MAP;
    var m' := WithPool(m, pool);
    assert forall a: nat | a < FRAM_BYTE_SIZE && !InPool(a) :: m'[a] == m[a];
    forall j: nat | j < CAPACITY
      ensures BlockOf(m', j) == BlockOf(m, j)
    {
    }
    assert IndexOf(m').entries == IndexOf(m).entries;
    assert m'[hi..OFFSET_BACKUP_STATUS] == m[hi..OFFSET_BACKUP_STATUS];
    assert m'[OFFSET_BACKUP_STATUS..OFFSET_FIRST_PWD] == m[OFFSET_BACKUP_STATUS..OFFSET_FIRST_PWD];
    assert m'[PwdAddr(CAPACITY, 0)..] == m[PwdAddr(CAPACITY, 0)..];
  }

  /** Fields of a block: links and counter are 16-bit numbers at even offsets. */
  lemma EntryAfterLink(b: seq<bv8>, i: nat, v: nat)
    requires |b| == SIZE_OF_PWD_BLOCK && i < 4 && v < 65536
    ensures
      EntryOf(Splice(b, 2 * i, IdBytes(v))) == EntryOf(b).(links := EntryOf(b).links[i := v])
  {
    hide IdOf, IdBytes;
    IdRoundTrip(v);
    var b' := Splice(b, 2 * i, IdBytes(v));
    assert b'[2 * i] == IdBytes(v)[0] && b'[2 * i + 1] == IdBytes(v)[1];
    assert EntryOf(b').links == EntryOf(b).links[i := v];
  }

  lemma EntryAfterCount(b: seq<bv8>, v: nat)
    requires |b| == SIZE_OF_PWD_BLOCK && v < 65536
    ensures EntryOf(Splice(b, PWD_OFFSET_PWD_COUNT, IdBytes(v))) == EntryOf(b).(count := v)
  {
    hide IdOf, IdBytes;
    IdRoundTrip(v);
    var b' := Splice(b, PWD_OFFSET_PWD_COUNT, IdBytes(v));
    assert b'[PWD_OFFSET_PWD_COUNT] == IdBytes(v)[0] && b'[PWD_OFFSET_PWD_COUNT + 1] == IdBytes(v)[1];
    assert EntryOf(b').links == EntryOf(b).links;
  }

  lemma EntryAfterName(b: seq<bv8>, name: seq<bv8>)
    requires |b| == SIZE_OF_PWD_BLOCK && |name| == 32
    ensures EntryOf(Splice(b, PWD_OFFSET_PWD_NAME, name)) == EntryOf(b).(name := name)
  {
    hide IdOf;
    assert EntryOf(Splice(b, PWD_OFFSET_PWD_NAME, name)).links == EntryOf(b).links;
  }

  lemma EntryAfterSecret(b: seq<bv8>, b': seq<bv8>)
    requires |b| == |b'| == SIZE_OF_PWD_BLOCK && b'[..PWD_OFFSET_PWD_IV] == b[..PWD_OFFSET_PWD_IV]
    ensures EntryOf(b') == EntryOf(b).(secret := EntryOf(b').secret)
  {
    hide IdOf;
    assert forall i: nat | i < PWD_OFFSET_PWD_IV ::
      b'[i] == b'[..PWD_OFFSET_PWD_IV][i] == b[..PWD_OFFSET_PWD_IV][i] == b[i];
    assert EntryOf(b').links == EntryOf(b).links;
    assert EntryOf(b').name == EntryOf(b).name;
  }

  lemma IndexAfterHead(m: Image, o: Order, v: nat)
    requires v < 65536
    ensures IndexOf(Splice(m, OFFSET_FIRST_PWD_USE + 2 * HeadNo(o), IdBytes(v)))
      == IndexOf(m).(heads := IndexOf(m).heads[HeadNo(o) := v])
  {
    var a := OFFSET_FIRST_PWD_USE + 2 * HeadNo(o);
    IndexAfterStart(m, a, v);
    hide IdOf, IdBytes, EntryOf;
    IdRoundTrip(v);
    var m' := Splice(m, a, IdBytes(v));
    assert m'[a] == IdBytes(v)[0] && m'[a + 1] == IdBytes(v)[1];
  }

  lemma IndexAfterNum(m: Image, v: nat)
    requires v < 65536
    ensures IndexOf(Splice(m, OFFSET_NUM_PWD, IdBytes(v))) == IndexOf(m).(num := v)
  {
    IndexAfterStart(m, OFFSET_NUM_PWD, v);
    hide IdOf, IdBytes, EntryOf;
    IdRoundTrip(v);
    var m' := Splice(m, OFFSET_NUM_PWD, IdBytes(v));
    assert m'[OFFSET_NUM_PWD] == IdBytes(v)[0] && m'[OFFSET_NUM_PWD + 1] == IdBytes(v)[1];
  }

  /** A 16-bit number among the first bytes. */
  lemma IndexAfterStart(m: Image, a: nat, v: nat)
    requires 1 <= a && a + 2 <= OFFSET_ENTROPY_POOL
    ensures
      var m' := Splice(m, a, IdBytes(v));
      IndexOf(m') == IndexOf(m).(heads := IndexOf(m').heads, num := IndexOf(m').num)
  {
    hide EntryOf, IdOf, IdBytes;
    var m' := Splice(m, a, IdBytes(v));
    SpliceKeepsEnds(m, a, IdBytes(v), 1, OFFSET_ENTROPY_POOL);
    LaterPartsKept(m, m');
  }

  lemma LaterPartsKept(m: Image, m': Image)
    requires m'[..1] == m[..1] && m'[OFFSET_ENTROPY_POOL..] == m[OFFSET_ENTROPY_POOL..]
    ensures IndexOf(m') == IndexOf(m).(heads := IndexOf(m').heads, num := IndexOf(m').num)
  {
    hide EntryOf, IdOf;
    assert m'[0] == m'[..1][0] && m[0] == m[..1][0];
    assert forall i: nat | OFFSET_ENTROPY_POOL <= i < FRAM_BYTE_SIZE ::
      m'[i] == m'[OFFSET_ENTROPY_POOL..][i - OFFSET_ENTROPY_POOL] == m[OFFSET_ENTROPY_POOL..][i - OFFSET_ENTROPY_POOL] == m[i];
    forall j: nat | j < CAPACITY
      ensures BlockOf(m', j) == BlockOf(m, j)
    {
    }
    assert IndexOf(m').entries == IndexOf(m).entries;
  }

  lemma IndexAfterMapByte(m: Image, i: nat, b: bv8)
    requires i < SIZE_MEMORY_MAP
    ensures IndexOf(m[OFFSET_MEMORY_MAP + i := b]) == IndexOf(m).(bits := IndexOf(m).bits[i := b])
  {
    hide EntryOf, IdOf;
    var m' := m[OFFSET_MEMORY_MAP + i := b];
    forall j: nat | j < CAPACITY
      ensures BlockOf(m', j) == BlockOf(m, j)
    {
    }
    assert IndexOf(m').entries == IndexOf(m).entries;
    assert IndexOf(m').bits == IndexOf(m).bits[i := b];
  }
}
