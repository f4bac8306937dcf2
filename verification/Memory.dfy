/** The memory accounting of `KVCache` (kvstore/kv_cache.cpp): `available_memory` against the bytes in the cache,
    `row_sizes` against the bytes of each row, and when `evict_users` can keep its promise. */
module Memory {
  import opened Extents
  import opened Memtable
  import opened Options
  import Recovery

  // ---- Counting bytes -------------------------------------------------------------------------------

  lemma {:induction false} BytesUnion(c: map<Key, string>, d: map<Key, string>)
    requires c.Keys !! d.Keys
    ensures Bytes(c + d) == Bytes(c) + Bytes(d)
    decreases |d|
  {
    hide Bytes;
    BytesEmpty();
    if d == map[] {
      assert c + d == c;
    } else {
      var k :| k in d;
      BytesRemove(d, k);
      BytesUnion(c, d - {k});
      UnionInsert(c, d, k);
      BytesInsert(c + (d - {k}), k, d[k]);
    }
  }

  lemma UnionInsert(c: map<Key, string>, d: map<Key, string>, k: Key)
    requires k in d && k !in c
    ensures c + d == (c + (d - {k}))[k := d[k]] && k !in c + (d - {k})
  {
  }

  function RowOf(t: map<Key, string>, row: string): map<Key, string> {
    map k | k in t && k.row == row :: t[k]
  }

  // ---- What the counters should say -----------------------------------------------------------------

  /** `available_memory` plus the bytes of resident rows is the capacity. */
  ghost predicate Conserved(m: Mem, capacity: nat) {
    m.available + Bytes(m.cache) == capacity
  }

  /** By how much the two exceed the capacity. */
  ghost function Excess(m: Mem, capacity: nat): int {
    m.available + Bytes(m.cache) - capacity
  }

  /** Equal up to wrapping around: what every operation but eviction and `cput` keeps without further ado. */
  ghost predicate Congruent(m: Mem, capacity: nat) {
    m.available == SizeT(capacity - Bytes(m.cache))
  }

  /** `row_sizes[row]` is the number of bytes in the row. */
  ghost predicate SizedRight(m: Mem, row: string) {
    RowSize(m, row) == Bytes(RowOf(View(m), row))
  }

  ghost predicate Accurate(m: Mem) {
    forall row :: SizedRight(m, row)
  }

  /** No node holds so many bytes: the source keeps capacities and row sizes in `int`. */
  const LIMIT: int := 0x1000_0000_0000_0000

  /** `string::max_size` */
  const MAX_SIZE: int := 0x7FFF_FFFF_FFFF_FFFF

  lemma SizeTSum(a: int, b: int)
    ensures SizeT(SizeT(a) + b) == SizeT(a + b) && SizeT(SizeT(a) - b) == SizeT(a - b)
  {
  }

  /** A counter that is right up to wrapping around is right exactly when the rows fit in the capacity. */
  lemma ConservedIff(m: Mem, capacity: nat)
    requires capacity < LIMIT
    ensures Conserved(m, capacity) <==> Congruent(m, capacity) && Bytes(m.cache) <= capacity
  {
    hide Bytes;
  }

  // ---- available_memory -----------------------------------------------------------------------------

  /** The bytes that the row brings into the cache if it is loaded. */
  ghost function LoadCost(m: Mem, row: string): nat {
    if row in m.resident then 0 else Bytes(RowOnDisk(m, row))
  }

  /** The bytes that a put of the column makes free first. */
  ghost function Freed(m: Mem, k: Key): nat {
    if k in View(m) then |View(m)[k]| else 0
  }

  lemma LoadRowCongruent(m: Mem, row: string, capacity: nat, dirty: set<Key>)
    requires Valid(m, dirty)
    ensures Bytes(LoadRow(m, row).cache) == Bytes(m.cache) + LoadCost(m, row)
    ensures Congruent(m, capacity) ==> Congruent(LoadRow(m, row), capacity)
  {
    hide DiskOk; hide CleanOnDisk; hide Bytes; hide SizeT;
    if row !in m.resident {
      var loaded := RowOnDisk(m, row);
      BytesUnion(m.cache, loaded);
      SizeTSum(capacity - Bytes(m.cache), Bytes(loaded));
    }
  }

  /** Loading a row conserves memory exactly when there is room for it. */
  lemma LoadRowConservesIff(m: Mem, row: string, capacity: nat, dirty: set<Key>)
    requires Valid(m, dirty) && Conserved(m, capacity) && capacity < LIMIT
    ensures Conserved(LoadRow(m, row), capacity) <==> LoadCost(m, row) <= m.available
  {
    hide Valid; hide Bytes; hide SizeT; hide Congruent; hide LoadRow; hide LoadCost;
    LoadRowCongruent(m, row, capacity, dirty);
    ConservedIff(m, capacity);
    ConservedIff(LoadRow(m, row), capacity);
  }

  /** Where there is room, loading moves bytes from the counter to the cache. */
  lemma LoadRowExcess(m: Mem, row: string, capacity: nat, dirty: set<Key>)
    requires Valid(m, dirty) && LoadCost(m, row) <= m.available
    ensures Excess(LoadRow(m, row), capacity) == Excess(m, capacity)
    ensures LoadRow(m, row).available == m.available - LoadCost(m, row)
  {
    hide Valid; hide Bytes; hide SizeT;
    LoadRowCongruent(m, row, capacity, dirty);
    SizeTSmall(m.available - LoadCost(m, row));
  }

  /** `dele` always conserves memory. */
  lemma DeleteColumnConserves(m: Mem, k: Key, capacity: nat, dirty: set<Key>)
    requires Valid(m, dirty)
    ensures Congruent(m, capacity) ==> Congruent(DeleteColumn(m, k).1, capacity)
    ensures Conserved(m, capacity) && capacity < LIMIT ==> Conserved(DeleteColumn(m, k).1, capacity)
  {
    hide DiskOk; hide CleanOnDisk; hide Bytes; hide SizeT;
    if k in m.cache {
      BytesRemove(m.cache, k);
      SizeTSum(capacity - Bytes(m.cache), |m.cache[k]|);
      if Conserved(m, capacity) && capacity < LIMIT { SizeTSmall(m.available + |m.cache[k]|); }
    }
  }

  /** The cache after a put, and the counter up to wrapping around. */
  lemma PutColumnCongruent(m: Mem, k: Key, value: string, capacity: nat, dirty: set<Key>)
    requires Valid(m, dirty)
    ensures Bytes(PutColumn(m, k, value).cache) == Bytes(m.cache) + LoadCost(m, k.row) - Freed(m, k) + |value|
    ensures Congruent(m, capacity) ==> Congruent(PutColumn(m, k, value), capacity)
  {
    hide Valid; hide LoadRow; hide View; hide Hollow; hide Bytes; hide SizeT; hide LoadCost;
    var m1 := LoadRow(m, k.row);
    LoadRowKeeps(m, k.row, dirty);
    LoadRowCongruent(m, k.row, capacity, dirty);
    LoadedContent(m, k, dirty);
    CachedIsResident(m1, dirty);
    var m2 := if k in m1.cache then DeleteColumn(m1, k).1 else m1;
    DeleteColumnConserves(m1, k, capacity, dirty);
    if k in m1.cache {
      DroppedFromCache(m1, k, dirty);
      BytesRemove(m1.cache, k);
    }
    BytesInsert(m2.cache, k, value);
    SizeTSum(capacity - Bytes(m2.cache), |value|);
  }

  lemma DroppedFromCache(m: Mem, k: Key, dirty: set<Key>)
    requires Valid(m, dirty) && k in m.cache
    ensures DeleteColumn(m, k).1.cache == m.cache - {k}
  {
  }

  /** `put` conserves memory exactly when the value and what must be loaded fit into what is available and what the
      old value frees. */
  lemma PutColumnConservesIff(m: Mem, k: Key, value: string, capacity: nat, dirty: set<Key>)
    requires Valid(m, dirty) && Conserved(m, capacity) && capacity < LIMIT
    ensures Conserved(PutColumn(m, k, value), capacity)
            <==> LoadCost(m, k.row) + |value| <= m.available + Freed(m, k)
  {
    hide Valid; hide Bytes; hide SizeT; hide Congruent; hide PutColumn; hide LoadCost; hide Freed;
    PutColumnCongruent(m, k, value, capacity, dirty);
    ConservedIff(m, capacity);
    ConservedIff(PutColumn(m, k, value), capacity);
  }

  /** A put for which there is room never wraps `available_memory` around, even if the counter was too high before. */
  lemma PutColumnExcess(m: Mem, k: Key, value: string, capacity: nat, dirty: set<Key>)
    requires Valid(m, dirty) && LoadCost(m, k.row) + |value| <= m.available
    requires capacity < LIMIT && -LIMIT < Excess(m, capacity) < LIMIT
    ensures Excess(PutColumn(m, k, value), capacity) == Excess(m, capacity)
    ensures PutColumn(m, k, value).available == m.available - LoadCost(m, k.row) - |value| + Freed(m, k)
  {
    hide Valid; hide Bytes; hide SizeT; hide PutColumn; hide LoadCost; hide Freed;
    var shifted: int := capacity + Excess(m, capacity);
    SizeTSmall(m.available);
    PutColumnCongruent(m, k, value, shifted, dirty);
    var m' := PutColumn(m, k, value);
    FreedIsHeld(m, k, dirty);
    SizeTSmall(shifted - Bytes(m'.cache));
  }

  /** What a put frees was in the cache or is part of what is loaded. */
  lemma FreedIsHeld(m: Mem, k: Key, dirty: set<Key>)
    requires Valid(m, dirty)
    ensures Freed(m, k) <= Bytes(m.cache) + LoadCost(m, k.row)
  {
    hide Valid; hide View; hide LoadRow; hide LoadCost; hide Hollow;
    LoadedContent(m, k, dirty);
    LoadRowCongruent(m, k.row, 0, dirty);
    if k in LoadRow(m, k.row).cache {
      BytesRemove(LoadRow(m, k.row).cache, k);
    }
  }

  /** `cput` moves the counter by the change in size with the wrong sign. Where there is room to load the row, the
      sum therefore moves by twice the change, or else the counter wraps around and ends above any capacity. */
  lemma CPutColumnExcess(m: Mem, k: Key, expected: string, value: string, capacity: nat, dirty: set<Key>)
    requires Valid(m, dirty) && LoadCost(m, k.row) <= m.available
    requires capacity < LIMIT && -LIMIT < Excess(m, capacity) < LIMIT && |expected| <= MAX_SIZE && |value| <= MAX_SIZE
    ensures var (r, m') := CPutColumn(m, k, expected, value);
            var d := |expected| - |value|;
            if !r.Swapped? then Excess(m', capacity) == Excess(m, capacity)
            else if 0 <= m.available - LoadCost(m, k.row) - d < 0x1_0000_0000_0000_0000 then
              Excess(m', capacity) == Excess(m, capacity) - 2 * d
            else Excess(m', capacity) == Excess(m, capacity) - 2 * d + (if d > 0 then 1 else -1) * 0x1_0000_0000_0000_0000
  {
    hide Valid; hide LoadRow; hide View; hide Hollow; hide Bytes; hide LoadCost;
    var (found, m1) := GetColumn(m, k);
    LoadRowExcess(m, k.row, capacity, dirty);
    if found == Some(expected) {
      BytesRemove(m1.cache, k);
      BytesInsert(m1.cache - {k}, k, value);
      assert (m1.cache - {k})[k := value] == m1.cache[k := value];
    }
  }

  /** So it conserves memory exactly when there is room to load the row and the two values have the same length, or it
      fails. */
  lemma CPutColumnConservesIff(m: Mem, k: Key, expected: string, value: string, capacity: nat, dirty: set<Key>)
    requires Valid(m, dirty) && Conserved(m, capacity) && capacity < LIMIT
    requires |expected| <= MAX_SIZE && |value| <= MAX_SIZE
    ensures var (r, m') := CPutColumn(m, k, expected, value);
            Conserved(m', capacity)
            <==> LoadCost(m, k.row) <= m.available && (r.Swapped? ==> |expected| == |value|)
  {
    hide Valid; hide LoadRow; hide View; hide Hollow; hide Bytes; hide LoadCost; hide Conserved; hide Congruent;
    var (r, m') := CPutColumn(m, k, expected, value);
    ConservedIff(m, capacity);
    ConservedIff(m', capacity);
    CPutColumnCongruentIff(m, k, expected, value, capacity, dirty);
    ConservedRoom(m, capacity);
  }

  lemma ConservedRoom(m: Mem, capacity: nat)
    requires Conserved(m, capacity)
    ensures m.available == capacity - Bytes(m.cache)
  {
  }

  lemma CPutColumnCongruentIff(m: Mem, k: Key, expected: string, value: string, capacity: nat, dirty: set<Key>)
    requires Valid(m, dirty) && Congruent(m, capacity) && |expected| <= MAX_SIZE && |value| <= MAX_SIZE
    ensures var (r, m') := CPutColumn(m, k, expected, value);
            && (Congruent(m', capacity) <==> (r.Swapped? ==> |expected| == |value|))
            && Bytes(m'.cache)
               == Bytes(m.cache) + LoadCost(m, k.row) + (if r.Swapped? then |value| - |expected| else 0)
  {
    hide Valid; hide LoadRow; hide View; hide Hollow; hide Bytes; hide LoadCost;
    var (found, m1) := GetColumn(m, k);
    LoadRowCongruent(m, k.row, capacity, dirty);
    if found == Some(expected) {
      BytesRemove(m1.cache, k);
      BytesInsert(m1.cache - {k}, k, value);
      assert (m1.cache - {k})[k := value] == m1.cache[k := value];
      SizeTSum(capacity - Bytes(m1.cache), |expected| - |value|);
      WrongSign(capacity - Bytes(m1.cache), |expected| - |value|);
    }
  }

  lemma WrongSign(a: int, d: int)
    requires -MAX_SIZE <= d <= MAX_SIZE
    ensures SizeT(a - d) == SizeT(a + d) <==> d == 0
  {
  }

  /** What one eviction does to the sum: the row's recorded size comes in, its cached bytes go out. */
  lemma DropRowExcess(m: Mem, row: string, capacity: nat)
    requires 0 <= m.available + RowSize(m, row) < 0x1_0000_0000_0000_0000
    ensures Excess(DropRow(m, row), capacity)
            == Excess(m, capacity) + RowSize(m, row) - Bytes(RowInCache(m, row))
    ensures DropRow(m, row).available == m.available + RowSize(m, row)
  {
    hide Bytes; hide SizeT;
    var rest := DropRow(m, row).cache;
    BytesUnion(rest, RowInCache(m, row));
    assert rest + RowInCache(m, row) == m.cache;
    SizeTSmall(m.available + RowSize(m, row));
  }

  /** With accurate sizes a row that is not in the cache is credited all the same. */
  lemma CachedRowBytes(m: Mem, row: string, dirty: set<Key>)
    requires Valid(m, dirty) && SizedRight(m, row)
    ensures Bytes(RowInCache(m, row)) == if row in m.resident then RowSize(m, row) else 0
  {
    hide DiskOk; hide CleanOnDisk; hide Bytes;
    BytesEmpty();
    var cached, all := RowInCache(m, row), RowOf(View(m), row);
    if row in m.resident {
      var hollow := all - cached.Keys;
      assert forall k :: k in hollow ==> m.diskMap[k] == [];
      EmptyBytes(hollow);
      BytesUnion(cached, hollow);
      assert cached + hollow == all;
    } else {
      assert cached == map[];
    }
  }

  /** One eviction with accurate sizes conserves memory exactly when the row is in the cache or empty: a row that was
      evicted before is credited a second time. */
  lemma EvictedTwiceIsCreditedTwice(m: Mem, row: string, capacity: nat, dirty: set<Key>)
    requires Valid(m, dirty) && Conserved(m, capacity) && capacity < LIMIT && SizedRight(m, row)
    requires RowSize(m, row) < LIMIT
    ensures Conserved(DropRow(m, row), capacity) <==> (row in m.resident || RowSize(m, row) == 0)
  {
    hide Valid; hide View; hide Bytes; hide SizeT; hide RowInCache;
    CachedRowBytes(m, row, dirty);
    DropRowExcess(m, row, capacity);
  }

  // ---- row_sizes ------------------------------------------------------------------------------------

  /** Replacing one column of the view moves that row's bytes by the difference in length. */
  lemma RowBytesAfter(t: map<Key, string>, k: Key, value: string, row: string)
    ensures Bytes(RowOf(t[k := value], row))
            == Bytes(RowOf(t, row)) + (if row == k.row then |value| - (if k in t then |t[k]| else 0) else 0)
  {
    if row == k.row {
      var before := RowOf(t, row);
      if k in t {
        BytesRemove(before, k);
        BytesInsert(before - {k}, k, value);
        assert RowOf(t[k := value], row) == (before - {k})[k := value];
      } else {
        BytesInsert(before, k, value);
        assert RowOf(t[k := value], row) == before[k := value];
      }
    } else {
      assert RowOf(t[k := value], row) == RowOf(t, row);
    }
  }

  lemma RowBytesWithout(t: map<Key, string>, k: Key, row: string)
    requires k in t
    ensures Bytes(RowOf(t - {k}, row)) == Bytes(RowOf(t, row)) - (if row == k.row then |t[k]| else 0)
  {
    if row == k.row {
      BytesRemove(RowOf(t, row), k);
      assert RowOf(t - {k}, row) == RowOf(t, row) - {k};
    } else {
      assert RowOf(t - {k}, row) == RowOf(t, row);
    }
  }

  /** `dele` keeps the sizes right exactly when the row is in the cache or the deleted value is empty. */
  lemma DeleteColumnAccurateIff(m: Mem, k: Key, dirty: set<Key>)
    requires Valid(m, dirty) && Accurate(m) && DeleteColumn(m, k).0
    ensures Accurate(DeleteColumn(m, k).1) <==> (k.row in m.resident || View(m)[k] == "")
  {
    hide Valid; hide View; hide Hollow;
    DeleteColumnKeeps(m, k, dirty);
    var m' := DeleteColumn(m, k).1;
    DeletedSize(m, k, dirty);
    assert SizedRight(m, k.row);
    forall row ensures SizedRight(m', row) <==> (row != k.row || k.row in m.resident || View(m)[k] == "") {
      assert SizedRight(m, row);
      RowBytesWithout(View(m), k, row);
    }
    assert SizedRight(m', k.row) <==> (k.row in m.resident || View(m)[k] == "");
  }

  lemma DeletedSize(m: Mem, k: Key, dirty: set<Key>)
    requires Valid(m, dirty) && DeleteColumn(m, k).0
    ensures k in View(m)
    ensures forall row :: RowSize(DeleteColumn(m, k).1, row)
                          == RowSize(m, row) - (if row == k.row && row in m.resident then |View(m)[k]| else 0)
  {
  }

  lemma PutColumnAccurate(m: Mem, k: Key, value: string, dirty: set<Key>)
    requires Valid(m, dirty) && Accurate(m)
    ensures Accurate(PutColumn(m, k, value))
  {
    hide Valid; hide View; hide Hollow; hide Appended; hide ExtentNotBefore; hide PutColumn;
    PutColumnKeeps(m, k, value, dirty);
    var m' := PutColumn(m, k, value);
    PutSize(m, k, value, dirty);
    forall row ensures SizedRight(m', row) {
      assert SizedRight(m, row);
      RowBytesAfter(View(m), k, value, row);
    }
  }

  lemma LoadedContent(m: Mem, k: Key, dirty: set<Key>)
    requires Valid(m, dirty)
    ensures var m1 := LoadRow(m, k.row);
            (k in m1.cache ==> k in View(m) && m1.cache[k] == View(m)[k])
            && (k !in m1.cache && k in View(m) ==> View(m)[k] == "")
            && m1.rowSizes == m.rowSizes
  {
    hide DiskOk; hide CleanOnDisk;
    if k in m.diskMap && k.row !in m.resident {
      assert k in RowOnDisk(m, k.row);
    }
  }

  lemma PutSize(m: Mem, k: Key, value: string, dirty: set<Key>)
    requires Valid(m, dirty)
    ensures forall row :: RowSize(PutColumn(m, k, value), row)
              == RowSize(m, row) + (if row == k.row then |value| - (if k in View(m) then |View(m)[k]| else 0) else 0)
  {
    hide Valid; hide View; hide LoadRow; hide Hollow;
    LoadedContent(m, k, dirty);
    LoadRowKeeps(m, k.row, dirty);
    CachedIsResident(LoadRow(m, k.row), dirty);
  }

  lemma CachedIsResident(m: Mem, dirty: set<Key>)
    requires Valid(m, dirty)
    ensures forall k :: k in m.cache ==> k in m.diskMap && k.row in m.resident
  {
    hide DiskOk; hide CleanOnDisk;
  }

  lemma CPutColumnAccurate(m: Mem, k: Key, expected: string, value: string, dirty: set<Key>)
    requires Valid(m, dirty) && Accurate(m)
    ensures Accurate(CPutColumn(m, k, expected, value).1)
  {
    hide Valid; hide View; hide Hollow; hide Appended; hide ExtentNotBefore; hide LoadRow;
    CPutColumnKeeps(m, k, expected, value, dirty);
    LoadedContent(m, k, dirty);
    var m' := CPutColumn(m, k, expected, value).1;
    forall row ensures SizedRight(m', row) {
      assert SizedRight(m, row);
      RowBytesAfter(View(m), k, value, row);
    }
  }

  // ---- Eviction -------------------------------------------------------------------------------------

  /** What evicting every row of the queue but `user` would credit. */
  function Credit(m: Mem, user: string, queue: seq<string>): int
    decreases |queue|
  {
    if queue == [] then 0
    else (if queue[0] == user then 0 else RowSize(m, queue[0])) + Credit(m, user, queue[1..])
  }

  lemma {:induction false} CreditSame(m: Mem, m': Mem, user: string, queue: seq<string>)
    requires m'.rowSizes == m.rowSizes
    ensures Credit(m', user, queue) == Credit(m, user, queue)
    decreases |queue|
  {
    if queue == [] {
    } else {
      CreditSame(m, m', user, queue[1..]);
    }
  }

  lemma {:induction false} CreditNonNegative(m: Mem, user: string, queue: seq<string>)
    requires forall row :: RowSize(m, row) >= 0
    ensures Credit(m, user, queue) >= 0
    decreases |queue|
  {
    if queue == [] {
    } else {
      CreditNonNegative(m, user, queue[1..]);
    }
  }

  /** `evict_users` never takes the front of an empty queue exactly when the rows other than `user` are recorded to
      hold what is missing; it then ends with `size <= available_memory` (see `EvictKeeps`). */
  lemma {:induction false} EvictSucceedsIff(m: Mem, user: string, size: nat, queue: seq<string>)
    requires forall row :: RowSize(m, row) >= 0
    requires m.available + Credit(m, user, queue) < 0x1_0000_0000_0000_0000
    ensures Evict(m, user, size, queue).Some? <==> size <= m.available + Credit(m, user, queue)
    decreases |queue|
  {
    CreditNonNegative(m, user, queue);
    if queue == [] || size <= m.available {
    } else {
      CreditNonNegative(m, user, queue[1..]);
      if queue[0] == user {
        EvictSucceedsIff(m, user, size, queue[1..]);
      } else {
        var m1 := DropRow(m, queue[0]);
        CreditSame(m, m1, user, queue[1..]);
        assert RowSize(m, queue[0]) >= 0;
        SizeTSmall(m.available + RowSize(m, queue[0]));
        assert forall row :: RowSize(m1, row) == RowSize(m, row);
        EvictSucceedsIff(m1, user, size, queue[1..]);
      }
    }
  }

  /** The columns of the queue's rows, `user` aside. */
  function InQueue(t: map<Key, string>, user: string, queue: seq<string>): map<Key, string> {
    map k | k in t && k.row in queue && k.row != user :: t[k]
  }

  lemma {:induction false} CreditCoversQueue(m: Mem, user: string, queue: seq<string>)
    requires Accurate(m) && forall i, j :: 0 <= i < j < |queue| ==> queue[i] != queue[j]
    ensures Credit(m, user, queue) == Bytes(InQueue(View(m), user, queue))
    decreases |queue|
  {
    hide View; hide Bytes; hide RowSize;
    BytesEmpty();
    if queue == [] {
      assert InQueue(View(m), user, queue) == map[];
    } else {
      var first, rest := queue[0], queue[1..];
      assert forall i :: 0 <= i < |rest| ==> rest[i] == queue[i + 1];
      CreditCoversQueue(m, user, rest);
      assert SizedRight(m, first);
      QueueSplits(View(m), user, queue);
      if first != user {
        BytesUnion(InQueue(View(m), user, rest), RowOf(View(m), first));
      }
    }
  }

  lemma QueueSplits(t: map<Key, string>, user: string, queue: seq<string>)
    requires queue != [] && forall i, j :: 0 <= i < j < |queue| ==> queue[i] != queue[j]
    ensures var first, rest := queue[0], queue[1..];
            if first == user then InQueue(t, user, queue) == InQueue(t, user, rest)
            else InQueue(t, user, queue) == InQueue(t, user, rest) + RowOf(t, first)
                 && InQueue(t, user, rest).Keys !! RowOf(t, first).Keys
  {
    var first, rest := queue[0], queue[1..];
    assert forall i :: 0 <= i < |rest| ==> rest[i] == queue[i + 1];
    assert queue == [first] + rest;
    hide InQueue; hide RowOf;
    FirstRow(t, user, queue, first, rest);
  }

  lemma FirstRow(t: map<Key, string>, user: string, queue: seq<string>, first: string, rest: seq<string>)
    requires first !in rest && forall row :: row in queue <==> row == first || row in rest
    ensures first == user ==> InQueue(t, user, queue) == InQueue(t, user, rest)
    ensures first != user ==> InQueue(t, user, queue) == InQueue(t, user, rest) + RowOf(t, first)
                              && InQueue(t, user, rest).Keys !! RowOf(t, first).Keys
  {
  }

  lemma BytesSubmap(c: map<Key, string>, d: map<Key, string>)
    requires forall k :: k in c ==> k in d && d[k] == c[k]
    ensures Bytes(c) <= Bytes(d)
  {
    var rest := d - c.Keys;
    BytesUnion(c, rest);
    assert c + rest == d;
  }

  lemma NoRowNoBytes(m: Mem, row: string)
    requires Accurate(m) && row !in m.rowSizes
    ensures Bytes(RowOf(View(m), row)) == 0
  {
    assert SizedRight(m, row);
  }

  /** Rows that `row_sizes` does not list have no bytes in the cache. */
  lemma {:induction false} UnlistedIsEmpty(m: Mem, c: map<Key, string>)
    requires Accurate(m) && forall k :: k in c ==> k in View(m) && View(m)[k] == c[k] && k.row !in m.rowSizes
    ensures Bytes(c) == 0
    decreases |c|
  {
    hide View;
    if c == map[] {
    } else {
      var k :| k in c;
      BytesRemove(c, k);
      UnlistedIsEmpty(m, c - {k});
      NoRowNoBytes(m, k.row);
      BytesRemove(RowOf(View(m), k.row), k);
    }
  }

  // ---- What eviction conserves ----------------------------------------------------------------------

  /** The rows that `evict_users` drops, in order. */
  function Dropped(m: Mem, user: string, size: nat, queue: seq<string>): seq<string>
    decreases |queue|
  {
    if size <= m.available || queue == [] then []
    else if queue[0] == user then Dropped(m, user, size, queue[1..])
    else [queue[0]] + Dropped(DropRow(m, queue[0]), user, size, queue[1..])
  }

  /** What is credited for rows that are not in the cache. */
  function Overcredit(m: Mem, rows: seq<string>): int
    decreases |rows|
  {
    if rows == [] then 0
    else (if rows[0] in m.resident then 0 else RowSize(m, rows[0])) + Overcredit(m, rows[1..])
  }

  ghost predicate Distinct(queue: seq<string>) {
    forall i, j :: 0 <= i < j < |queue| ==> queue[i] != queue[j]
  }

  lemma {:induction false} OvercreditSame(m: Mem, m': Mem, rows: seq<string>)
    requires m'.rowSizes == m.rowSizes && forall row :: row in rows ==> (row in m'.resident <==> row in m.resident)
    ensures Overcredit(m', rows) == Overcredit(m, rows)
    decreases |rows|
  {
    if rows == [] {
    } else {
      OvercreditSame(m, m', rows[1..]);
    }
  }

  lemma {:induction false} OvercreditZeroIff(m: Mem, rows: seq<string>)
    requires forall row :: RowSize(m, row) >= 0
    ensures Overcredit(m, rows) >= 0
    ensures Overcredit(m, rows) == 0 <==> forall row :: row in rows ==> row in m.resident || RowSize(m, row) == 0
    decreases |rows|
  {
    if rows == [] {
    } else {
      OvercreditZeroIff(m, rows[1..]);
      assert forall row :: row in rows <==> row == rows[0] || row in rows[1..];
    }
  }

  lemma {:induction false} DroppedFromQueue(m: Mem, user: string, size: nat, queue: seq<string>)
    ensures forall row :: row in Dropped(m, user, size, queue) ==> row in queue && row != user
    decreases |queue|
  {
    if queue == [] {
    } else {
      DroppedFromQueue(m, user, size, queue[1..]);
      DroppedFromQueue(DropRow(m, queue[0]), user, size, queue[1..]);
    }
  }

  /** The rows dropped depend on the counters alone. */
  lemma {:induction false} DroppedSame(m: Mem, m': Mem, user: string, size: nat, queue: seq<string>)
    requires m'.available == m.available && forall row :: RowSize(m', row) == RowSize(m, row)
    ensures Dropped(m', user, size, queue) == Dropped(m, user, size, queue)
    decreases |queue|
  {
    if queue == [] {
    } else {
      DroppedSame(m, m', user, size, queue[1..]);
      DropRowFields(m, queue[0]);
      DropRowFields(m', queue[0]);
      DroppedSame(DropRow(m, queue[0]), DropRow(m', queue[0]), user, size, queue[1..]);
    }
  }

  lemma DropRowAccurate(m: Mem, row: string)
    requires Valid(m, {}) && Accurate(m)
    ensures Accurate(DropRow(m, row)) && Valid(DropRow(m, row), {})
  {
    hide Valid; hide View; hide Hollow;
    DropRowKeeps(m, row, {});
    forall r ensures SizedRight(DropRow(m, row), r) {
      assert SizedRight(m, r);
    }
  }

  /** A whole eviction adds to the sum exactly what it credits for rows that are not in the cache. */
  lemma {:induction false} EvictExcess(m: Mem, user: string, size: nat, queue: seq<string>, capacity: nat)
    requires Valid(m, {}) && Accurate(m) && Distinct(queue) && Evict(m, user, size, queue).Some?
    requires m.available + Credit(m, user, queue) < 0x1_0000_0000_0000_0000
    ensures Excess(Evict(m, user, size, queue).value, capacity)
            == Excess(m, capacity) + Overcredit(m, Dropped(m, user, size, queue))
    ensures Accurate(Evict(m, user, size, queue).value)
    decreases |queue|
  {
    hide Valid; hide Excess; hide Accurate; hide DropRow; hide RowInCache; hide RowSize;
    SizesNonNegative(m);
    if size <= m.available || queue == [] {
    } else if queue[0] == user {
      EvictExcess(m, user, size, queue[1..], capacity);
    } else {
      var row, rest := queue[0], queue[1..];
      var m1 := DropRow(m, row);
      DropRowAccurate(m, row);
      DropRowFields(m, row);
      CreditNonNegative(m, user, rest);
      CachedRowBytes(m, row, {}) by { assert SizedRight(m, row) by { AccurateAt(m, row); } }
      DropRowExcess(m, row, capacity);
      CreditSame(m, m1, user, rest);
      EvictExcess(m1, user, size, rest, capacity);
      DroppedFromQueue(m1, user, size, rest);
      OvercreditSame(m, m1, Dropped(m1, user, size, rest));
    }
  }

  lemma AccurateAt(m: Mem, row: string)
    requires Accurate(m)
    ensures SizedRight(m, row)
  {
  }

  lemma DropRowFields(m: Mem, row: string)
    ensures var m' := DropRow(m, row);
            m'.rowSizes == m.rowSizes && (forall r :: RowSize(m', r) == RowSize(m, r))
            && m'.resident == m.resident - {row}
  {
  }

  /** `evict_users` conserves memory exactly when every row that it drops is in the cache or empty. */
  lemma EvictConservesIff(m: Mem, user: string, size: nat, queue: seq<string>, capacity: nat)
    requires Valid(m, {}) && Accurate(m) && Distinct(queue) && Evict(m, user, size, queue).Some?
    requires Conserved(m, capacity) && capacity < LIMIT && Bytes(View(m)) < LIMIT
    ensures Conserved(Evict(m, user, size, queue).value, capacity)
            <==> forall row :: row in Dropped(m, user, size, queue) ==> row in m.resident || RowSize(m, row) == 0
  {
    hide Valid; hide View; hide Bytes; hide Evict; hide Dropped; hide RowSize; hide Accurate;
    CreditBounded(m, user, queue);
    EvictExcess(m, user, size, queue, capacity);
    SizesNonNegative(m);
    OvercreditZeroIff(m, Dropped(m, user, size, queue));
  }

  lemma CreditBounded(m: Mem, user: string, queue: seq<string>)
    requires Accurate(m) && Distinct(queue)
    ensures 0 <= Credit(m, user, queue) <= Bytes(View(m))
  {
    hide View; hide Bytes;
    CreditCoversQueue(m, user, queue);
    BytesSubmap(InQueue(View(m), user, queue), View(m));
  }

  // ---- When eviction succeeds -----------------------------------------------------------------------

  /** The columns of the other rows. */
  function OtherRows(t: map<Key, string>, user: string): map<Key, string> {
    map k | k in t && k.row != user :: t[k]
  }

  /** The queue names every row of `row_sizes` once; whether it names `user` does not matter. */
  ghost predicate ListsRows(m: Mem, user: string, queue: seq<string>) {
    Distinct(queue) && forall row :: row != user ==> (row in queue <==> row in m.rowSizes)
  }

  /** With accurate sizes the queue credits all bytes of the other rows, in the cache or not. */
  lemma CreditIsOthers(m: Mem, user: string, queue: seq<string>)
    requires Accurate(m) && ListsRows(m, user, queue)
    ensures Credit(m, user, queue) == Bytes(OtherRows(View(m), user)) <= Bytes(View(m))
  {
    hide View; hide Bytes; hide Accurate;
    var listed, all := InQueue(View(m), user, queue), OtherRows(View(m), user);
    var unlisted := all - listed.Keys;
    CreditCoversQueue(m, user, queue);
    UnlistedIsEmpty(m, unlisted);
    BytesUnion(listed, unlisted);
    assert listed + unlisted == all;
    BytesSubmap(all, View(m));
  }

  /** With accurate sizes `evict_users` succeeds exactly when what is available and what the other rows hold, in the
      cache or on disk, come to the size asked for. */
  lemma EvictSucceedsExactly(m: Mem, user: string, size: nat, queue: seq<string>)
    requires Accurate(m) && ListsRows(m, user, queue)
    requires m.available + Bytes(View(m)) < 0x1_0000_0000_0000_0000
    ensures Evict(m, user, size, queue).Some? <==> size <= m.available + Bytes(OtherRows(View(m), user))
  {
    hide View; hide Bytes; hide Evict; hide Accurate; hide ListsRows;
    CreditIsOthers(m, user, queue);
    SizesNonNegative(m);
    EvictSucceedsIff(m, user, size, queue);
  }

  /** In particular whenever `size` plus the bytes that `user` has in the cache fit in the capacity. */
  lemma EvictSucceeds(m: Mem, user: string, size: nat, queue: seq<string>, capacity: nat, dirty: set<Key>)
    requires Valid(m, dirty) && Conserved(m, capacity) && Accurate(m) && ListsRows(m, user, queue)
    requires capacity < LIMIT && Bytes(View(m)) < LIMIT
    requires size + Bytes(RowInCache(m, user)) <= capacity
    ensures Evict(m, user, size, queue).Some?
  {
    hide Valid; hide View; hide Bytes; hide Evict; hide RowInCache; hide Accurate; hide ListsRows; hide OtherRows;
    CachedAreOthers(m, user, dirty);
    EvictSucceedsExactly(m, user, size, queue);
  }

  /** What is cached of rows other than `user` is part of what they hold. */
  lemma CachedAreOthers(m: Mem, user: string, dirty: set<Key>)
    requires Valid(m, dirty)
    ensures Bytes(m.cache) <= Bytes(RowInCache(m, user)) + Bytes(OtherRows(View(m), user))
  {
    hide Valid; hide View; hide Bytes;
    var mine, others := RowInCache(m, user), OtherRows(m.cache, user);
    CachedIsViewed(m, dirty);
    BytesUnion(mine, others);
    assert mine + others == m.cache;
    BytesSubmap(others, OtherRows(View(m), user));
  }

  lemma SizesNonNegative(m: Mem)
    requires Accurate(m)
    ensures forall row :: RowSize(m, row) >= 0
  {
    forall row ensures RowSize(m, row) >= 0 { assert SizedRight(m, row); }
  }

  lemma CachedIsViewed(m: Mem, dirty: set<Key>)
    requires Valid(m, dirty)
    ensures forall k :: k in m.cache ==> k in View(m) && View(m)[k] == m.cache[k]
  {
    hide DiskOk; hide CleanOnDisk;
  }

  // ---- Restart --------------------------------------------------------------------------------------

  lemma LoadedBytes(m: Mem, row: string, dirty: set<Key>)
    requires Valid(m, dirty) && row !in m.resident
    ensures RowOnDisk(m, row) == RowOf(View(m), row)
  {
    hide DiskOk; hide CleanOnDisk;
  }

  lemma {:induction false} EmptyBytes(c: map<Key, string>)
    requires forall k :: k in c ==> c[k] == ""
    ensures Bytes(c) == 0
    decreases |c|
  {
    if c == map[] {
    } else {
      var k :| k in c;
      BytesRemove(c, k);
      EmptyBytes(c - {k});
    }
  }

  /** A restart forgets `row_sizes`: they are right again exactly when nothing on disk has a byte. */
  lemma RestartAccurateIff(b: Blocks, l: Layout, capacity: nat)
    ensures var m := Recovery.Restarted(b, l, capacity);
            Accurate(m) <==> forall k :: k in View(m) ==> View(m)[k] == ""
  {
    hide View;
    var m := Recovery.Restarted(b, l, capacity);
    if Accurate(m) {
      forall k | k in View(m) ensures View(m)[k] == "" {
        BytesRemove(map[k := View(m)[k]], k);
        UnlistedIsEmpty(m, map[k := View(m)[k]]);
      }
    } else {
      var row :| !SizedRight(m, row);
      if forall k :: k in View(m) ==> View(m)[k] == "" {
        EmptyBytes(RowOf(View(m), row));
      }
    }
  }
}
