/** The cached table of a storage node as a value (kvstore/kv_cache.cpp): what each operation of `KVCache`
    makes of the table, its invariant, and the plain map it stands for.

    The nested maps of the source, `<user, <column, x>>`, are maps keyed by (row, column). A row of the source's
    `cache` that has no column is still "in the cache", so residency is kept as a set of its own. */
module Memtable {
  import opened Extents
  import opened Options

  datatype Key = Key(row: string, col: string)

  type DiskMap = map<Key, seq<BlockPtr>>

  datatype Mem = Mem(
    resident: set<string>,
    cache: map<Key, string>,
    rowSizes: map<string, int>,
    available: Unsigned,
    diskMap: DiskMap,
    blockId: nat,
    blockOffset: Offset,
    blocks: Blocks)

  /** `available_memory` is a `size_t`: arithmetic on it wraps. */
  type Unsigned = n: nat | n < 0x1_0000_0000_0000_0000

  function SizeT(x: int): Unsigned {
    x % 0x1_0000_0000_0000_0000
  }

  /** Number of bytes in the values of a map. */
  ghost function Bytes(c: map<Key, string>): nat {
    if c == map[] then 0 else var k :| k in c; |c[k]| + Bytes(c - {k})
  }

  lemma BytesEmpty()
    ensures Bytes(map[]) == 0
  {
  }

  lemma SizeTSmall(x: int)
    requires 0 <= x < 0x1_0000_0000_0000_0000
    ensures SizeT(x) == x
  {
  }

  lemma {:induction false} BytesRemove(c: map<Key, string>, k: Key)
    requires k in c
    ensures Bytes(c) == |c[k]| + Bytes(c - {k})
    decreases |c|
  {
    var k0 :| k0 in c && Bytes(c) == |c[k0]| + Bytes(c - {k0});
    if k0 != k {
      BytesRemove(c - {k0}, k);
      BytesRemove(c - {k}, k0);
      assert c - {k0} - {k} == c - {k} - {k0};
    }
  }

  lemma BytesInsert(c: map<Key, string>, k: Key, v: string)
    requires k !in c
    ensures Bytes(c[k := v]) == Bytes(c) + |v|
  {
    BytesRemove(c[k := v], k);
    assert c[k := v] - {k} == c;
  }

  function RowSize(m: Mem, row: string): int {
    if row in m.rowSizes then m.rowSizes[row] else 0
  }

  // ---- Operations -----------------------------------------------------------------------------------

  /** The row's columns, read from the block files. */
  function RowOnDisk(m: Mem, row: string): map<Key, string> {
    map k | k in m.diskMap && k.row == row :: ReadExtent(m.blocks, m.diskMap[k])
  }

  /** `load_user_from_disk`: a row without any column on disk does not become resident. */
  ghost function LoadRow(m: Mem, row: string): Mem {
    if row in m.resident then m
    else
      var loaded := RowOnDisk(m, row);
      m.(resident := if loaded == map[] then m.resident else m.resident + {row},
         cache := m.cache + loaded,
         available := SizeT(m.available - Bytes(loaded)))
  }

  /** `update_disk_map` */
  function UpdateDiskMap(m: Mem, k: Key, size: nat): Mem
  {
    var p := Place(m.blockId, m.blockOffset, size);
    m.(diskMap := m.diskMap[k := p.extent], blockId := p.id, blockOffset := p.offset,
       blocks := Recreated(m.blocks, m.blockId, p.id))
  }

  /** `dele`: the first component is false when the source returns 1 (missing key). A resident row whose cache lacks
      the column keeps its `disk_map` entry. */
  function DeleteColumn(m: Mem, k: Key): (bool, Mem) {
    if k !in m.diskMap then (false, m)
    else if k.row in m.resident && k !in m.cache then (false, m)
    else if k.row in m.resident then
      (true, m.(available := SizeT(m.available + |m.cache[k]|),
                rowSizes := m.rowSizes[k.row := RowSize(m, k.row) - |m.cache[k]|],
                cache := m.cache - {k},
                diskMap := m.diskMap - {k}))
    else (true, m.(diskMap := m.diskMap - {k}))
  }

  /** `put` */
  ghost function PutColumn(m: Mem, k: Key, value: string): Mem
  {
    var m1 := LoadRow(m, k.row);
    var m2 := if k in m1.cache then DeleteColumn(m1, k).1 else m1;
    UpdateDiskMap(
      m2.(resident := m2.resident + {k.row},
          cache := m2.cache[k := value],
          available := SizeT(m2.available - |value|),
          rowSizes := m2.rowSizes[k.row := RowSize(m2, k.row) + |value|]),
      k, |value|)
  }

  /** `get`: the row becomes resident whether or not the column is found. */
  ghost function GetColumn(m: Mem, k: Key): (Option<string>, Mem) {
    var m1 := LoadRow(m, k.row);
    (if k in m1.cache then Some(m1.cache[k]) else None, m1.(resident := m1.resident + {k.row}))
  }

  datatype CPutResult = Swapped | NoColumn | Mismatch

  /** `cput`: note that the change of `available_memory` has the opposite sign of the change in the row's size. */
  ghost function CPutColumn(m: Mem, k: Key, expected: string, value: string): (CPutResult, Mem)
  {
    var (found, m1) := GetColumn(m, k);
    if found.None? then (NoColumn, m1)
    else if found.value != expected then (Mismatch, m1)
    else
      (Swapped, UpdateDiskMap(
         m1.(cache := m1.cache[k := value],
             available := SizeT(m1.available - (|expected| - |value|)),
             rowSizes := m1.rowSizes[k.row := RowSize(m1, k.row) + (|value| - |expected|)]),
         k, |value|))
  }

  /** One turn of `evict_users`: the row leaves the cache and its recorded size is credited, resident or not. */
  function DropRow(m: Mem, row: string): Mem {
    m.(resident := m.resident - {row},
       cache := map k | k in m.cache && k.row != row :: m.cache[k],
       available := SizeT(m.available + RowSize(m, row)))
  }

  /** `evict_users` over the queue of row names it builds from `row_sizes`; `None` when it takes the front of an
      empty queue, which C++ leaves undefined. */
  function Evict(m: Mem, user: string, size: nat, queue: seq<string>): Option<Mem>
    decreases |queue|
  {
    if size <= m.available then Some(m)
    else if queue == [] then None
    else if queue[0] == user then Evict(m, user, size, queue[1..])
    else Evict(DropRow(m, queue[0]), user, size, queue[1..])
  }

  // ---- Invariant ------------------------------------------------------------------------------------

  ghost predicate ExtentOk(e: seq<BlockPtr>, id: nat, offset: nat) {
    ExtentInBounds(e) && ExtentBefore(e, id, offset) && SelfApart(e)
  }

  ghost predicate ExtentsOk(d: DiskMap, id: nat, offset: nat) {
    forall k :: k in d ==> ExtentOk(d[k], id, offset)
  }

  ghost predicate ExtentsApart(d: DiskMap) {
    forall k, k' :: k in d && k' in d && k != k' ==> MutuallyApart(d[k], d[k'])
  }

  /** Every live extent is allocated and no two of them overlap. */
  ghost predicate DiskOk(d: DiskMap, id: nat, offset: nat, b: Blocks) {
    Allocated(b, id) && ExtentsOk(d, id, offset) && ExtentsApart(d)
  }

  /** Cached columns belong to resident rows and have an extent of their length; a column that a resident row
      has on disk only is an empty one (see `Hollow`). */
  ghost predicate CacheOk(resident: set<string>, cache: map<Key, string>, d: DiskMap) {
    && (forall k :: k in cache ==> k.row in resident && k in d && Total(d[k]) == |cache[k]|)
    && (forall k :: k in d && k.row in resident && k !in cache ==> d[k] == [])
  }

  /** Write-back: what is not dirty is on disk. */
  ghost predicate CleanOnDisk(cache: map<Key, string>, d: DiskMap, b: Blocks, dirty: set<Key>) {
    forall k :: k in cache && k in d && k !in dirty ==> ReadExtent(b, d[k]) == cache[k]
  }

  /** What is dirty is in a resident row. */
  ghost predicate DirtyResident(resident: set<string>, dirty: set<Key>) {
    forall k :: k in dirty ==> k.row in resident
  }

  ghost predicate Valid(m: Mem, dirty: set<Key>) {
    && DiskOk(m.diskMap, m.blockId, m.blockOffset, m.blocks)
    && CacheOk(m.resident, m.cache, m.diskMap)
    && CleanOnDisk(m.cache, m.diskMap, m.blocks, dirty)
    && DirtyResident(m.resident, dirty)
  }

  /** The plain map the table stands for: a column holds its cached bytes, or else the bytes on disk. */
  function Contents(cache: map<Key, string>, d: DiskMap, b: Blocks): map<Key, string> {
    map k | k in d :: if k in cache then cache[k] else ReadExtent(b, d[k])
  }

  function View(m: Mem): map<Key, string> {
    Contents(m.cache, m.diskMap, m.blocks)
  }

  /** Columns named by `disk_map` that their resident row does not have. */
  function Hollow(m: Mem): set<Key> {
    set k | k in m.diskMap && k.row in m.resident && k !in m.cache
  }

  datatype Layout = Layout(diskMap: DiskMap, blockId: nat, blockOffset: Offset)

  function LayoutOf(m: Mem): Layout {
    Layout(m.diskMap, m.blockId, m.blockOffset)
  }

  /** The layout after a value of `size` bytes is written to column `k`. */
  function Rewritten(l: Layout, k: Key, size: nat): Layout
  {
    var p := Place(l.blockId, l.blockOffset, size);
    Layout(l.diskMap[k := p.extent], p.id, p.offset)
  }

  // ---- What the operations keep ---------------------------------------------------------------------

  lemma LoadRowView(m: Mem, row: string)
    requires CacheOk(m.resident, m.cache, m.diskMap)
    ensures View(LoadRow(m, row)) == View(m) && Hollow(LoadRow(m, row)) == Hollow(m)
  {
  }

  lemma LoadRowCache(m: Mem, row: string)
    requires CacheOk(m.resident, m.cache, m.diskMap)
    ensures CacheOk(LoadRow(m, row).resident, LoadRow(m, row).cache, m.diskMap)
    ensures forall k :: k in m.diskMap && k.row == row ==> row in LoadRow(m, row).resident
  {
    if row !in m.resident {
      forall k | k in m.diskMap && k.row == row ensures row in LoadRow(m, row).resident {
        assert k in RowOnDisk(m, row);
      }
    }
  }

  lemma LoadRowKeeps(m: Mem, row: string, dirty: set<Key>)
    requires Valid(m, dirty)
    ensures Valid(LoadRow(m, row), dirty) && View(LoadRow(m, row)) == View(m)
    ensures LayoutOf(LoadRow(m, row)) == LayoutOf(m) && LoadRow(m, row).blocks == m.blocks
    ensures forall k :: k in m.diskMap && k.row == row ==> row in LoadRow(m, row).resident
    ensures Hollow(LoadRow(m, row)) == Hollow(m)
  {
    LoadRowView(m, row);
    LoadRowCache(m, row);
    assert CleanOnDisk(LoadRow(m, row).cache, m.diskMap, m.blocks, dirty);
  }

  /** A loaded row can be marked resident, as `cache[user]` does. */
  lemma TouchRowKeeps(m: Mem, row: string, dirty: set<Key>)
    requires Valid(m, dirty)
    requires forall k :: k in m.diskMap && k.row == row ==> row in m.resident
    ensures var m' := m.(resident := m.resident + {row});
            Valid(m', dirty) && View(m') == View(m) && Hollow(m') == Hollow(m)
  {
  }

  lemma UpdateDiskMapKeepsDisk(m: Mem, k: Key, size: nat)
    requires DiskOk(m.diskMap, m.blockId, m.blockOffset, m.blocks)
    ensures var m' := UpdateDiskMap(m, k, size);
            && DiskOk(m'.diskMap, m'.blockId, m'.blockOffset, m'.blocks) && Total(m'.diskMap[k]) == size
            && AgreeBefore(m.blocks, m'.blocks, m.blockId, m.blockOffset)
            && ExtentNotBefore(m'.diskMap[k], m.blockId, m.blockOffset)
  {
    var m' := UpdateDiskMap(m, k, size);
    var p := Place(m.blockId, m.blockOffset, size);
    PlaceIsExact(m.blockId, m.blockOffset, size);
    RecreatedAgrees(m.blocks, m.blockId, p.id, m.blockOffset);
    forall k' | k' in m.diskMap && k' != k
      ensures ExtentOk(m.diskMap[k'], p.id, p.offset)
      ensures MutuallyApart(m.diskMap[k'], p.extent) && MutuallyApart(p.extent, m.diskMap[k'])
    {
      assert ExtentOk(m.diskMap[k'], m.blockId, m.blockOffset);
      BeforeMonotone(m.diskMap[k'], m.blockId, m.blockOffset, p.id, p.offset);
      BeforeIsApart(m.diskMap[k'], p.extent, m.blockId, m.blockOffset);
    }
  }

  lemma UpdateDiskMapReadsSame(m: Mem, k: Key, size: nat)
    requires DiskOk(m.diskMap, m.blockId, m.blockOffset, m.blocks)
    ensures forall k' :: k' in m.diskMap ==>
              ReadExtent(UpdateDiskMap(m, k, size).blocks, m.diskMap[k']) == ReadExtent(m.blocks, m.diskMap[k'])
  {
    var m' := UpdateDiskMap(m, k, size);
    RecreatedAgrees(m.blocks, m.blockId, m'.blockId, m.blockOffset);
    forall k' | k' in m.diskMap
      ensures ReadExtent(m'.blocks, m.diskMap[k']) == ReadExtent(m.blocks, m.diskMap[k'])
    {
      assert ExtentOk(m.diskMap[k'], m.blockId, m.blockOffset);
      AgreeReadsSame(m.blocks, m'.blocks, m.blockId, m.blockOffset, m.diskMap[k']);
    }
  }

  /** Writing a column into a loaded row: cache entry and fresh extent. */
  ghost function Written(m: Mem, k: Key, value: string): Mem
  {
    UpdateDiskMap(m.(resident := m.resident + {k.row}, cache := m.cache[k := value]), k, |value|)
  }

  /** What a write of column `k` leaves behind, seen from the disk: `m'` extends `m` beyond the bump pointer only. */
  ghost predicate Appended(m: Mem, m': Mem) {
    && AgreeBefore(m.blocks, m'.blocks, m.blockId, m.blockOffset)
    && PosLe(m.blockId, m.blockOffset, m'.blockId, m'.blockOffset)
  }

  lemma WrittenView(m: Mem, k: Key, value: string)
    requires DiskOk(m.diskMap, m.blockId, m.blockOffset, m.blocks)
    ensures View(Written(m, k, value)) == View(m)[k := value]
  {
    hide DiskOk;
    UpdateDiskMapReadsSame(m, k, |value|);
  }

  lemma WrittenCache(m: Mem, k: Key, value: string, dirty: set<Key>)
    requires Valid(m, dirty)
    requires forall k' :: k' in m.diskMap && k'.row == k.row ==> k.row in m.resident
    ensures var m' := Written(m, k, value);
            && CacheOk(m'.resident, m'.cache, m'.diskMap)
            && CleanOnDisk(m'.cache, m'.diskMap, m'.blocks, dirty + {k})
            && DirtyResident(m'.resident, dirty + {k})
  {
    hide DiskOk; hide CleanOnDisk;
    UpdateDiskMapKeepsDisk(m, k, |value|);
    WrittenClean(m, k, value, dirty);
  }

  lemma WrittenClean(m: Mem, k: Key, value: string, dirty: set<Key>)
    requires DiskOk(m.diskMap, m.blockId, m.blockOffset, m.blocks) && CacheOk(m.resident, m.cache, m.diskMap)
    requires CleanOnDisk(m.cache, m.diskMap, m.blocks, dirty)
    ensures var m' := Written(m, k, value); CleanOnDisk(m'.cache, m'.diskMap, m'.blocks, dirty + {k})
  {
    hide DiskOk;
    UpdateDiskMapReadsSame(m, k, |value|);
  }

  lemma WrittenKeeps(m: Mem, k: Key, value: string, dirty: set<Key>)
    requires Valid(m, dirty)
    requires forall k' :: k' in m.diskMap && k'.row == k.row ==> k.row in m.resident
    ensures var m' := Written(m, k, value);
            && Valid(m', dirty + {k}) && View(m') == View(m)[k := value]
            && Hollow(m') == Hollow(m) - {k}
            && Appended(m, m') && ExtentNotBefore(m'.diskMap[k], m.blockId, m.blockOffset)
  {
    hide DiskOk; hide CacheOk; hide CleanOnDisk; hide DirtyResident; hide View; hide Appended; hide AgreeBefore;
    hide ExtentNotBefore;
    UpdateDiskMapKeepsDisk(m, k, |value|);
    WrittenView(m, k, value);
    WrittenCache(m, k, value, dirty);
    WrittenAppends(m, k, value);
  }

  lemma WrittenAppends(m: Mem, k: Key, value: string)
    requires DiskOk(m.diskMap, m.blockId, m.blockOffset, m.blocks)
    ensures Appended(m, Written(m, k, value))
  {
    hide DiskOk;
    UpdateDiskMapKeepsDisk(m, k, |value|);
  }

  lemma DeleteColumnView(m: Mem, k: Key)
    requires CacheOk(m.resident, m.cache, m.diskMap)
    ensures var (ok, m') := DeleteColumn(m, k);
            && Hollow(m') == Hollow(m)
            && (ok <==> k in m.diskMap && k !in Hollow(m))
            && View(m') == (if ok then View(m) - {k} else View(m))
  {
    hide SizeT; hide RowSize;
  }

  lemma DeleteColumnDisk(d: DiskMap, id: nat, offset: nat, b: Blocks, k: Key)
    requires DiskOk(d, id, offset, b)
    ensures DiskOk(d - {k}, id, offset, b)
  {
  }

  lemma DeleteColumnKeeps(m: Mem, k: Key, dirty: set<Key>)
    requires Valid(m, dirty)
    ensures var (ok, m') := DeleteColumn(m, k);
            && Valid(m', dirty) && Hollow(m') == Hollow(m)
            && (ok <==> k in m.diskMap && k !in Hollow(m))
            && View(m') == (if ok then View(m) - {k} else View(m))
            && m'.blocks == m.blocks && m'.resident == m.resident
            && LayoutOf(m') == LayoutOf(m).(diskMap := if ok then m.diskMap - {k} else m.diskMap)
  {
    hide DiskOk; hide View; hide Hollow;
    DeleteColumnView(m, k);
    DeleteColumnDisk(m.diskMap, m.blockId, m.blockOffset, m.blocks, k);
  }

  /** `put` stores the value, whatever was cached, evicted or on disk before. */
  lemma PutColumnKeeps(m: Mem, k: Key, value: string, dirty: set<Key>)
    requires Valid(m, dirty)
    ensures var m' := PutColumn(m, k, value);
            && Valid(m', dirty + {k}) && View(m') == View(m)[k := value]
            && Hollow(m') == Hollow(m) - {k}
            && Appended(m, m') && ExtentNotBefore(m'.diskMap[k], m.blockId, m.blockOffset)
            && LayoutOf(m') == Rewritten(LayoutOf(m), k, |value|)
  {
    hide DiskOk; hide CacheOk; hide CleanOnDisk; hide DirtyResident; hide View; hide Hollow; hide LoadRow;
    hide AgreeBefore; hide ExtentNotBefore;
    var m1 := LoadRow(m, k.row);
    LoadRowKeeps(m, k.row, dirty);
    var m2 := if k in m1.cache then DeleteColumn(m1, k).1 else m1;
    DeleteColumnKeeps(m1, k, dirty);
    var m3 := m2.(available := SizeT(m2.available - |value|),
                  rowSizes := m2.rowSizes[k.row := RowSize(m2, k.row) + |value|]);
    SameTable(m2, m3);
    WrittenKeeps(m3, k, value, dirty);
    var p := Place(m.blockId, m.blockOffset, |value|);
    assert m2.diskMap[k := p.extent] == m.diskMap[k := p.extent];
    assert View(m2)[k := value] == View(m)[k := value];
  }

  /** The memory counters do not matter to what the table holds. */
  lemma SameTable(m: Mem, m': Mem)
    requires m' == m.(available := m'.available, rowSizes := m'.rowSizes)
    ensures View(m') == View(m) && Hollow(m') == Hollow(m)
    ensures forall dirty :: Valid(m, dirty) ==> Valid(m', dirty)
  {
  }

  lemma GetColumnKeeps(m: Mem, k: Key, dirty: set<Key>)
    requires Valid(m, dirty)
    ensures var (v, m') := GetColumn(m, k);
            && Valid(m', dirty) && View(m') == View(m) && Hollow(m') == Hollow(m)
            && LayoutOf(m') == LayoutOf(m) && m'.blocks == m.blocks
            && k.row in m'.resident
            && (v.Some? <==> k in m.diskMap && k !in Hollow(m))
            && (k in m.diskMap ==> View(m)[k] == if v.Some? then v.value else "")
  {
    LoadRowKeeps(m, k.row, dirty);
    TouchRowKeeps(LoadRow(m, k.row), k.row, dirty);
    assert k in m.diskMap ==> k in View(m);
  }

  /** `cput` is a compare-and-swap on the plain map, except that a hollow column counts as missing. */
  lemma CPutColumnKeeps(m: Mem, k: Key, expected: string, value: string, dirty: set<Key>)
    requires Valid(m, dirty)
    ensures var (r, m') := CPutColumn(m, k, expected, value);
            && Valid(m', if r.Swapped? then dirty + {k} else dirty)
            && (r.NoColumn? <==> k !in m.diskMap || k in Hollow(m))
            && (r.Swapped? <==> !r.NoColumn? && View(m)[k] == expected)
            && View(m') == (if r.Swapped? then View(m)[k := value] else View(m))
            && Hollow(m') == Hollow(m) && k.row in m'.resident
            && Appended(m, m')
            && (r.Swapped? ==> ExtentNotBefore(m'.diskMap[k], m.blockId, m.blockOffset))
            && LayoutOf(m') == (if r.Swapped? then Rewritten(LayoutOf(m), k, |value|) else LayoutOf(m))
  {
    hide DiskOk; hide CacheOk; hide CleanOnDisk; hide DirtyResident; hide View; hide Hollow; hide GetColumn;
    hide ExtentNotBefore;
    var (found, m1) := GetColumn(m, k);
    GetColumnKeeps(m, k, dirty);
    if found == Some(expected) {
      var m2 := m1.(available := SizeT(m1.available - (|expected| - |value|)),
                    rowSizes := m1.rowSizes[k.row := RowSize(m1, k.row) + (|value| - |expected|)]);
      SameTable(m1, m2);
      WrittenKeeps(m2, k, value, dirty);
      assert m2.resident + {k.row} == m2.resident;
      assert Hollow(m) - {k} == Hollow(m);
    }
  }

  /** A row may leave the cache when nothing in it is dirty. */
  lemma DropRowKeeps(m: Mem, row: string, dirty: set<Key>)
    requires Valid(m, dirty) && forall k :: k in dirty ==> k.row != row
    ensures Valid(DropRow(m, row), dirty) && View(DropRow(m, row)) == View(m)
    ensures Hollow(DropRow(m, row)) <= Hollow(m)
    ensures LayoutOf(DropRow(m, row)) == LayoutOf(m) && DropRow(m, row).blocks == m.blocks
  {
    hide DiskOk;
  }

  lemma DropRowSpares(m: Mem, row: string, user: string)
    requires row != user
    ensures var m' := DropRow(m, row);
            RowInCache(m', user) == RowInCache(m, user) && (user in m'.resident <==> user in m.resident)
            && m'.rowSizes == m.rowSizes
  {
  }

  /** With nothing dirty, eviction changes no answer; it never evicts `user` and ends with enough memory. */
  lemma {:induction false} EvictKeeps(m: Mem, user: string, size: nat, queue: seq<string>)
    requires Valid(m, {}) && Evict(m, user, size, queue).Some?
    ensures var m' := Evict(m, user, size, queue).value;
            && Valid(m', {}) && View(m') == View(m) && Hollow(m') <= Hollow(m)
            && LayoutOf(m') == LayoutOf(m) && m'.blocks == m.blocks && m'.rowSizes == m.rowSizes
            && size <= m'.available
            && (user in m'.resident <==> user in m.resident)
            && RowInCache(m', user) == RowInCache(m, user)
    decreases |queue|
  {
    hide Valid; hide View; hide Hollow; hide RowInCache; hide DropRow;
    if size <= m.available || queue == [] {
    } else {
      if queue[0] == user {
        EvictKeeps(m, user, size, queue[1..]);
      } else {
        DropRowKeeps(m, queue[0], {});
        DropRowSpares(m, queue[0], user);
        EvictKeeps(DropRow(m, queue[0]), user, size, queue[1..]);
      }
    }
  }

  function RowInCache(m: Mem, row: string): map<Key, string> {
    map k | k in m.cache && k.row == row :: m.cache[k]
  }
}
