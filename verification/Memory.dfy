/** The persistent memories: the layout of the FRAM image (Code/src/Memory/MemoryLayout.h)
  and what every single write does. A power cut can fall between any two writes, so
  the operations are described by the list of writes they issue. */
module Memory {
  import opened Bytes
  import opened Aes

  // ----- layout -----

  const FRAM_BYTE_SIZE: nat := 131072

  const OFFSET_FIRST_PWD_USE: nat := 1
  const OFFSET_FIRST_PWD_ALPHA: nat := OFFSET_FIRST_PWD_USE + 2
  const OFFSET_NUM_PWD: nat := OFFSET_FIRST_PWD_ALPHA + 2
  const OFFSET_ENTROPY_POOL: nat := OFFSET_NUM_PWD + 2
  const SIZE_ENTROPY_POOL: nat := 256
  const OFFSET_MEMORY_MAP: nat := OFFSET_ENTROPY_POOL + SIZE_ENTROPY_POOL
  const SIZE_MEMORY_MAP: nat := 99
  const OFFSET_BACKUP_STATUS: nat := OFFSET_MEMORY_MAP + SIZE_MEMORY_MAP
  const OFFSET_BACKUP_ID: nat := OFFSET_BACKUP_STATUS + 1
  const OFFSET_BACKUP_DATA: nat := OFFSET_BACKUP_ID + 2
  const OFFSET_FIRST_PWD: nat := OFFSET_BACKUP_DATA + SIZE_OF_PWD_BLOCK

  const PWD_OFFSET_PREV_PWD_USE: nat := 0
  const PWD_OFFSET_NEXT_PWD_USE: nat := 2
  const PWD_OFFSET_PREV_PWD_ALPHA: nat := 4
  const PWD_OFFSET_NEXT_PWD_ALPHA: nat := 6
  const PWD_OFFSET_PWD_COUNT: nat := 8
  const PWD_OFFSET_PWD_NAME: nat := 10
  const PWD_OFFSET_PWD_IV: nat := PWD_OFFSET_PWD_NAME + 32
  const PWD_OFFSET_PWD_DATA: nat := PWD_OFFSET_PWD_IV + 16
  const PWD_OFFSET_USR_IV: nat := PWD_OFFSET_PWD_DATA + 32
  const PWD_OFFSET_USR_NAME: nat := PWD_OFFSET_USR_IV + 16
  const SIZE_OF_PWD_BLOCK: nat := 170

  /** One more than the largest id the bitmap is searched for; also the end mark of the lists. */
  const MAXIMUM_NUMBER_OF_PWD: nat := 768

  /** The ids whose blocks lie inside the FRAM. */
  const CAPACITY: nat := MAXIMUM_NUMBER_OF_PWD - 1

  function PwdAddr(id: nat, field: nat): nat {
    OFFSET_FIRST_PWD + SIZE_OF_PWD_BLOCK * id + field
  }

  /** The constants agree with the expressions of the header. The last id below
    MAXIMUM_NUMBER_OF_PWD has a block that sticks out of the FRAM: only CAPACITY fit. */
  lemma LayoutFits(id: nat)
    ensures PwdAddr(id, PWD_OFFSET_PWD_IV) == 535 + 170 * id + 42 && PwdAddr(id, PWD_OFFSET_PWD_DATA) == 535 + 170 * id + 58
    ensures PwdAddr(id, PWD_OFFSET_USR_IV) == 535 + 170 * id + 90 && PwdAddr(id, PWD_OFFSET_USR_NAME) == 535 + 170 * id + 106
    ensures OFFSET_BACKUP_STATUS == 362 && OFFSET_BACKUP_ID == 363 && OFFSET_BACKUP_DATA == 365
    ensures SIZE_OF_PWD_BLOCK == PWD_OFFSET_USR_NAME + 64
    ensures MAXIMUM_NUMBER_OF_PWD == (FRAM_BYTE_SIZE - OFFSET_FIRST_PWD) / SIZE_OF_PWD_BLOCK + 1
    ensures id < MAXIMUM_NUMBER_OF_PWD ==> id / 8 < SIZE_MEMORY_MAP
    ensures PwdAddr(id, SIZE_OF_PWD_BLOCK) <= FRAM_BYTE_SIZE <==> id < CAPACITY
  {
  }

  type Image = m: seq<bv8> | |m| == FRAM_BYTE_SIZE witness seq(FRAM_BYTE_SIZE, _ => 0)

  function GetId(m: Image, a: nat): nat
    requires a + 2 <= FRAM_BYTE_SIZE
  {
    IdOf(m[a], m[a + 1])
  }

  /** The bytes of a credential block. */
  function BlockOf(m: Image, id: nat): (b: seq<bv8>)
    requires id < CAPACITY
    ensures |b| == SIZE_OF_PWD_BLOCK
  {
    m[PwdAddr(id, 0)..PwdAddr(id, SIZE_OF_PWD_BLOCK)]
  }

  /** The bit of the memory map that says whether a block is in use. */
  predicate Used(m: seq<bv8>, id: nat)
    requires |m| >= OFFSET_BACKUP_STATUS && id < 8 * SIZE_MEMORY_MAP
  {
    Bit(m[OFFSET_MEMORY_MAP + id / 8], id % 8)
  }

  /** The entropy pool: every random byte that is drawn writes to it. */
  predicate InPool(a: nat) {
    OFFSET_ENTROPY_POOL <= a < OFFSET_MEMORY_MAP
  }

  function PoolOf(m: Image): (pool: seq<bv8>)
    ensures |pool| == SIZE_ENTROPY_POOL
  {
    m[OFFSET_ENTROPY_POOL..OFFSET_MEMORY_MAP]
  }

  function WithPool(m: Image, pool: seq<bv8>): (r: Image)
    requires |pool| == SIZE_ENTROPY_POOL
  {
    Splice(m, OFFSET_ENTROPY_POOL, pool)
  }

  /** What comes before the backup area, without the entropy pool: list heads, counter
    and memory map. */
  function HeadOf(m: seq<bv8>): (head: seq<bv8>)
    requires |m| >= OFFSET_BACKUP_STATUS
    ensures |head| == OFFSET_BACKUP_STATUS
    ensures forall a: nat | a < OFFSET_BACKUP_STATUS && !InPool(a) :: head[a] == m[a]
  {
    seq(OFFSET_BACKUP_STATUS, a requires 0 <= a < OFFSET_BACKUP_STATUS => if InPool(a) then 0 else m[a])
  }

  lemma SameHead(m: seq<bv8>, m': seq<bv8>)
    requires |m| >= OFFSET_BACKUP_STATUS && |m'| >= OFFSET_BACKUP_STATUS
    ensures HeadOf(m') == HeadOf(m) <==> forall a: nat | a < OFFSET_BACKUP_STATUS && !InPool(a) :: m'[a] == m[a]
  {
    if HeadOf(m') == HeadOf(m) {
      forall a: nat | a < OFFSET_BACKUP_STATUS && !InPool(a)
        ensures m'[a] == m[a]
      {
        assert m'[a] == HeadOf(m')[a] == HeadOf(m)[a] == m[a];
      }
    }
  }

  /** A bit of the memory map does not depend on what the head leaves out. */
  lemma UsedInHead(m: seq<bv8>, id: nat)
    requires |m| >= OFFSET_BACKUP_STATUS && id < 8 * SIZE_MEMORY_MAP
    ensures Used(HeadOf(m), id) == Used(m, id)
  {
    hide HeadOf, Bit;
  }

  // ----- writes -----

  /** The FRAM, the two key sectors of the card and the validation pair in EEPROM. */
  datatype Store = Store(fram: Image, card: Block, temp: Block, eeprom: Eeprom)

  /** rand_seq in the first half, enc_validation in the second. */
  type Eeprom = e: seq<bv8> | |e| == 32 witness seq(32, _ => 0)

  /** FRAM and EEPROM are written byte by byte, a card sector at once. */
  datatype Write =
    | ToFram(addr: nat, byte: bv8)
    | ToEeprom(addr: nat, byte: bv8)
    | ToCard(key: Block)
    | ToCardTemp(key: Block)

  function Apply(s: Store, w: Write): Store {
    match w
    case ToFram(a, b) => if a < FRAM_BYTE_SIZE then s.(fram := s.fram[a := b]) else s
    case ToEeprom(a, b) => if a < 32 then s.(eeprom := s.eeprom[a := b]) else s
    case ToCard(k) => s.(card := k)
    case ToCardTemp(k) => s.(temp := k)
  }

  function ApplyAll(s: Store, ws: seq<Write>): Store
    decreases |ws|
  {
    if ws == [] then s else ApplyAll(Apply(s, ws[0]), ws[1..])
  }

  lemma {:induction false} ApplyAppend(s: Store, a: seq<Write>, b: seq<Write>)
    ensures ApplyAll(s, a + b) == ApplyAll(ApplyAll(s, a), b)
    decreases |a|
  {
    if a == [] {
      assert a + b == b;
    } else {
      assert (a + b)[1..] == a[1..] + b;
      ApplyAppend(Apply(s, a[0]), a[1..], b);
    }
  }

  lemma ApplyOne(s: Store, w: Write)
    ensures ApplyAll(s, [w]) == Apply(s, w)
  {
    assert [w][1..] == [];
  }

  /** The writes of fram_write_bytes. */
  function FramWrites(addr: nat, bytes: seq<bv8>): (ws: seq<Write>)
    ensures |ws| == |bytes|
  {
    seq(|bytes|, i requires 0 <= i < |bytes| => ToFram(addr + i, bytes[i]))
  }

  lemma FramWritesGrow(addr: nat, bytes: seq<bv8>, i: nat)
    requires i < |bytes|
    ensures FramWrites(addr, bytes[..i + 1]) == FramWrites(addr, bytes[..i]) + [ToFram(addr + i, bytes[i])]
    ensures bytes[..|bytes|] == bytes
  {
  }

  lemma {:induction false} ApplyFramWrites(s: Store, addr: nat, bytes: seq<bv8>)
    requires addr + |bytes| <= FRAM_BYTE_SIZE
    ensures ApplyAll(s, FramWrites(addr, bytes)) == s.(fram := Splice(s.fram, addr, bytes))
    decreases |bytes|
  {
    if bytes == [] {
      assert Splice(s.fram, addr, bytes) == s.fram;
    } else {
      var s1 := Apply(s, ToFram(addr, bytes[0]));
      assert FramWrites(addr, bytes)[1..] == FramWrites(addr + 1, bytes[1..]);
      ApplyFramWrites(s1, addr + 1, bytes[1..]);
      SpliceFirst(s.fram, addr, bytes);
    }
  }

  /** The writes of an eeprom_update_byte loop. */
  function EepromWrites(addr: nat, bytes: seq<bv8>): (ws: seq<Write>)
    ensures |ws| == |bytes|
  {
    seq(|bytes|, i requires 0 <= i < |bytes| => ToEeprom(addr + i, bytes[i]))
  }

  lemma EepromWritesGrow(addr: nat, bytes: seq<bv8>, i: nat)
    requires i < |bytes|
    ensures EepromWrites(addr, bytes[..i + 1]) == EepromWrites(addr, bytes[..i]) + [ToEeprom(addr + i, bytes[i])]
    ensures bytes[..|bytes|] == bytes
  {
  }

  lemma {:induction false} ApplyEepromWrites(s: Store, addr: nat, bytes: seq<bv8>)
    requires addr + |bytes| <= 32
    ensures ApplyAll(s, EepromWrites(addr, bytes)) == s.(eeprom := Splice(s.eeprom, addr, bytes))
    decreases |bytes|
  {
    if bytes == [] {
      assert Splice(s.eeprom, addr, bytes) == s.eeprom;
    } else {
      var s1 := Apply(s, ToEeprom(addr, bytes[0]));
      assert EepromWrites(addr, bytes)[1..] == EepromWrites(addr + 1, bytes[1..]);
      ApplyEepromWrites(s1, addr + 1, bytes[1..]);
      SpliceFirst(s.eeprom, addr, bytes);
    }
  }
}
