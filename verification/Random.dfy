/** Random bytes (Code/src/Security/Random.c). They are drawn from a pool in FRAM, so that
  every draw writes: the byte that is handed out is cleared, and an empty pool is filled
  with four bytes first. Here is what a draw does to the memories; the drawing itself is
  in Device. */
module Random {
  import opened Memory
  import opened Crash

  type PoolOffset = n: nat | n < SIZE_ENTROPY_POOL

  datatype PoolWrite = PoolWrite(at: PoolOffset, byte: bv8)

  /** A random byte and the writes its drawing has made. */
  datatype Drawn = Drawn(byte: bv8, pool: seq<PoolWrite>)

  /** Sixteen of them: an IV, a key, or the random sequence of the validation pair. */
  type Draw = d: seq<Drawn> | |d| == 16 witness seq(16, _ => Drawn(0, []))

  function DrawBytes(d: seq<Drawn>): (bytes: seq<bv8>)
    ensures |bytes| == |d|
  {
    seq(|d|, i requires 0 <= i < |d| => d[i].byte)
  }

  function PoolWrites(pool: seq<PoolWrite>): (ws: seq<Write>)
    ensures |ws| == |pool|
  {
    seq(|pool|, i requires 0 <= i < |pool| => ToFram(OFFSET_ENTROPY_POOL + pool[i].at, pool[i].byte))
  }

  /** The writes of drawing bytes one after the other. */
  function DrawWrites(d: seq<Drawn>): seq<Write>
    decreases |d|
  {
    if d == [] then [] else DrawWrites(d[..|d| - 1]) + PoolWrites(d[|d| - 1].pool)
  }

  lemma DrawOneMore(d: seq<Drawn>, r: Drawn)
    ensures DrawWrites(d + [r]) == DrawWrites(d) + PoolWrites(r.pool)
    ensures DrawBytes(d + [r]) == DrawBytes(d) + [r.byte]
  {
    assert (d + [r])[..|d|] == d;
  }

  /** Draws stay in the pool. */
  lemma {:induction false} DrawsWithin(d: seq<Drawn>, lo: nat, hi: nat)
    ensures Within(DrawWrites(d), lo, hi)
    decreases |d|
  {
    if d != [] {
      DrawsWithin(d[..|d| - 1], lo, hi);
    }
  }

  // ----- drawing and storing byte by byte -----

  /** Every byte goes to the EEPROM as soon as it is drawn. */
  function StoredDrawWrites(d: seq<Drawn>): seq<Write>
    decreases |d|
  {
    if d == [] then []
    else StoredDrawWrites(d[..|d| - 1]) + PoolWrites(d[|d| - 1].pool) + [ToEeprom(|d| - 1, d[|d| - 1].byte)]
  }

  lemma StoreOneMore(d: seq<Drawn>, r: Drawn)
    ensures StoredDrawWrites(d + [r]) == StoredDrawWrites(d) + PoolWrites(r.pool) + [ToEeprom(|d|, r.byte)]
  {
    assert (d + [r])[..|d|] == d;
  }
}
