/** The memory accounting of whole requests and runs (kvstore/kv_store.cpp:378-625): when a request keeps the counters of
    `KVCache` right, when its eviction succeeds, and that `available_memory` then never wraps around. */
module Budget {
  import opened Memtable
  import opened StorageNode
  import opened NodeRuns
  import opened Memory

  /** Both counters say what they should. */
  ghost predicate Sound(m: Mem, capacity: nat) {
    Conserved(m, capacity) && Accurate(m)
  }

  // ---- What a request evicts ------------------------------------------------------------------------

  /** The size that the request asks `evict_users` for. */
  function Asked(n: Node, op: Op): nat
    requires !op.Delete?
  {
    match op
    case Put(k, v, _) => Demand(n.mem, k.row, |v|)
    case CPut(k, _, v, _) => Demand(n.mem, k.row, |v|)
    case Get(k, _) => SizeT(RowSize(n.mem, k.row))
  }

  /** The rows that the request evicts. */
  function Evictees(n: Node, op: Op): seq<string> {
    if Forces(n, op) then Dropped(n.mem, op.key.row, Asked(n, op), op.queue) else []
  }

  /** What they are credited for although they are not in the cache. */
  function Over(n: Node, op: Op): int {
    Overcredit(n.mem, Evictees(n, op))
  }

  /** Every evicted row is in the cache or empty. */
  ghost predicate EvictsCached(n: Node, op: Op) {
    forall row :: row in Evictees(n, op) ==> row in n.mem.resident || RowSize(n.mem, row) == 0
  }

  /** What is available after the eviction and the loading of the request's row. */
  ghost function Left(n: Node, op: Op): int {
    n.mem.available + Credit(n.mem, op.key.row, Evictees(n, op)) - LoadCost(n.mem, op.key.row)
  }

  /** Whether the request leaves the counters right. A conditional put that changes the length of the value moves them
      apart by twice the change, which can make good at most what an eviction credited too much. */
  ghost predicate KeepsBooks(n: Node, op: Op) {
    match op
    case Put(_, _, _) => EvictsCached(n, op)
    case Get(_, _) => EvictsCached(n, op)
    case CPut(k, e, v, _) =>
      if Swaps(n, op) then Over(n, op) == 2 * (|e| - |v|) && |e| - |v| <= Left(n, op) else EvictsCached(n, op)
    case Delete(k) => k !in n.mem.diskMap || k.row in n.mem.resident || View(n.mem)[k] == ""
  }

  /** Whether a conditional put finds the column with the expected value. */
  ghost predicate Swaps(n: Node, op: Op)
    requires op.CPut?
  {
    op.key in n.mem.diskMap && op.key !in Hollow(n.mem) && View(n.mem)[op.key] == op.expected
  }

  /** The eviction queue is the one that `evict_users` builds, and strings are strings. */
  ghost predicate WellPosed(n: Node, op: Op) {
    && Bytes(View(n.mem)) < LIMIT
    && match op
       case Put(k, v, queue) => |v| <= MAX_SIZE && ListsRows(n.mem, k.row, queue)
       case CPut(k, e, v, queue) => |e| <= MAX_SIZE && |v| <= MAX_SIZE && ListsRows(n.mem, k.row, queue)
       case Get(k, queue) => ListsRows(n.mem, k.row, queue)
       case Delete(_) => true
  }

  // ---- Checkpoints ----------------------------------------------------------------------------------

  lemma EmptiesWeighNothing(t: map<Key, string>, back: set<Key>)
    requires back !! t.Keys
    ensures Bytes(t + Empties(back)) == Bytes(t)
    ensures forall row :: Bytes(RowOf(t + Empties(back), row)) == Bytes(RowOf(t, row))
  {
    hide Bytes;
    EmptyBytes(Empties(back));
    BytesUnion(t, Empties(back));
    forall row ensures Bytes(RowOf(t + Empties(back), row)) == Bytes(RowOf(t, row)) {
      EmptyBytes(RowOf(Empties(back), row));
      BytesUnion(RowOf(t, row), RowOf(Empties(back), row));
      assert RowOf(t + Empties(back), row) == RowOf(t, row) + RowOf(Empties(back), row);
    }
  }

  /** Tables that differ in what costs no memory. */
  ghost predicate SameBooks(m: Mem, m': Mem) {
    && m'.available == m.available && m'.cache == m.cache && m'.resident == m.resident
    && (forall row :: RowSize(m', row) == RowSize(m, row))
    && (forall row :: Bytes(RowOf(View(m'), row)) == Bytes(RowOf(View(m), row)))
    && Bytes(View(m')) == Bytes(View(m))
  }

  lemma SameBooksSound(m: Mem, m': Mem, capacity: nat)
    requires SameBooks(m, m')
    ensures Accurate(m') <==> Accurate(m)
    ensures Excess(m', capacity) == Excess(m, capacity) && (Conserved(m', capacity) <==> Conserved(m, capacity))
  {
    hide View; hide Bytes;
    if Accurate(m) {
      forall row ensures SizedRight(m', row) { assert SizedRight(m, row); }
    }
    if Accurate(m') {
      forall row ensures SizedRight(m, row) { assert SizedRight(m', row); }
    }
  }

  lemma CheckpointBooks(n: Node)
    requires NodeValid(n)
    ensures SameBooks(n.mem, Checkpoint(n).mem)
  {
    hide Valid; hide View; hide Hollow; hide Bytes; hide Checkpoint;
    CheckpointKeeps(n);
    ViewKeys(n.mem);
    EmptiesWeighNothing(View(n.mem), Limbo(n));
    CheckpointCounters(n);
  }

  lemma CheckpointCounters(n: Node)
    ensures var m := Checkpoint(n).mem;
            m.available == n.mem.available && m.cache == n.mem.cache && m.resident == n.mem.resident
            && m.rowSizes == n.mem.rowSizes
  {
  }

  lemma CountedBooks(n: Node)
    requires NodeValid(n)
    ensures SameBooks(n.mem, Counted(n).mem)
  {
    hide NodeValid; hide View; hide Bytes; hide Checkpoint;
    if n.operations == CHECKPOINT_THRESHOLD {
      CheckpointBooks(n);
    }
  }

  /** The table on which `evict_users` is called. */
  ghost function BeforeEviction(n: Node, op: Op): Mem {
    if op.Get? then Sized(Checkpoint(n).mem, op.key.row)
    else Checkpoint(n.(mem := Consulted(n.mem, op.key.row))).mem
  }

  lemma SizedBooks(m: Mem, row: string)
    ensures SameBooks(m, Sized(m, row))
    ensures forall dirty :: Valid(m, dirty) ==> Valid(Sized(m, row), dirty)
    ensures View(Sized(m, row)) == View(m) && Hollow(Sized(m, row)) == Hollow(m)
  {
    hide View; hide Hollow; hide Valid;
    SameTable(m, Sized(m, row));
  }

  lemma ConsultedBooks(m: Mem, row: string)
    ensures SameBooks(m, Consulted(m, row))
    ensures forall dirty :: Valid(m, dirty) ==> Valid(Consulted(m, row), dirty)
    ensures forall r :: r != row ==> (r in Consulted(m, row).rowSizes <==> r in m.rowSizes)
  {
    hide View; hide Hollow; hide Valid;
    SizedBooks(m, row);
  }

  lemma SameBooksTrans(m: Mem, m': Mem, m'': Mem)
    requires SameBooks(m, m') && SameBooks(m', m'')
    ensures SameBooks(m, m'')
  {
    hide View; hide Bytes;
  }

  lemma BeforeEvictionBooks(n: Node, op: Op)
    requires NodeValid(n)
    ensures Valid(BeforeEviction(n, op), {}) && SameBooks(n.mem, BeforeEviction(n, op))
    ensures forall r :: r != op.key.row ==> (r in BeforeEviction(n, op).rowSizes <==> r in n.mem.rowSizes)
  {
    hide Valid; hide View; hide Hollow; hide Bytes; hide Checkpoint; hide SameBooks;
    var row := op.key.row;
    if op.Get? {
      CheckpointKeeps(n);
      CheckpointBooks(n);
      CheckpointCounters(n);
      SizedBooks(Checkpoint(n).mem, row);
      SameBooksTrans(n.mem, Checkpoint(n).mem, BeforeEviction(n, op));
    } else {
      var n0 := n.(mem := Consulted(n.mem, row));
      ConsultedBooks(n.mem, row);
      CheckpointKeeps(n0);
      CheckpointBooks(n0);
      CheckpointCounters(n0);
      SameBooksTrans(n.mem, n0.mem, BeforeEviction(n, op));
    }
  }

  // ---- Eviction within a request --------------------------------------------------------------------

  /** What the eviction of a request leaves. */
  ghost predicate RoomIsMade(n: Node, op: Op, e: Mem, capacity: nat)
    requires !op.Delete?
  {
    && Accurate(e) && Excess(e, capacity) == Excess(n.mem, capacity) + Over(n, op)
    && e.available == n.mem.available + Credit(n.mem, op.key.row, Evictees(n, op))
    && Asked(n, op) <= e.available
    && 0 <= Over(n, op) < LIMIT && (Over(n, op) == 0 <==> EvictsCached(n, op))
    && (op.key.row in e.resident <==> op.key.row in n.mem.resident)
    && RowInCache(e, op.key.row) == RowInCache(n.mem, op.key.row)
    && RowSize(e, op.key.row) == RowSize(n.mem, op.key.row)
    && Bytes(View(e)) == Bytes(View(n.mem))
  }

  lemma {:induction false} EvictCounter(m: Mem, user: string, size: nat, queue: seq<string>)
    requires Evict(m, user, size, queue).Some? && forall row :: RowSize(m, row) >= 0
    requires m.available + Credit(m, user, queue) < 0x1_0000_0000_0000_0000
    ensures Evict(m, user, size, queue).value.available
            == m.available + Credit(m, user, Dropped(m, user, size, queue))
    ensures 0 <= Overcredit(m, Dropped(m, user, size, queue)) <= Credit(m, user, queue)
    decreases |queue|
  {
    hide DropRow; hide RowSize;
    CreditNonNegative(m, user, queue);
    if size <= m.available || queue == [] {
    } else if queue[0] == user {
      EvictCounter(m, user, size, queue[1..]);
    } else {
      var m1 := DropRow(m, queue[0]);
      var rows := Dropped(m1, user, size, queue[1..]);
      DropRowFields(m, queue[0]);
      CreditNonNegative(m, user, queue[1..]);
      assert m1.available == m.available + RowSize(m, queue[0]) by { DropRowExcess(m, queue[0], 0); }
      CreditSame(m, m1, user, queue[1..]);
      CreditSame(m, m1, user, rows);
      EvictCounter(m1, user, size, queue[1..]);
      OvercreditFewer(m, m1, rows);
      assert ([queue[0]] + rows)[1..] == rows;
    }
  }

  /** More rows out of the cache, more is credited too much. */
  lemma {:induction false} OvercreditFewer(m: Mem, m': Mem, rows: seq<string>)
    requires m'.rowSizes == m.rowSizes && m'.resident <= m.resident && forall row :: RowSize(m, row) >= 0
    ensures 0 <= Overcredit(m, rows) <= Overcredit(m', rows)
    decreases |rows|
  {
    if rows == [] {
    } else {
      OvercreditFewer(m, m', rows[1..]);
      assert rows[0] in m'.resident ==> rows[0] in m.resident;
      assert RowSize(m', rows[0]) == RowSize(m, rows[0]) >= 0;
    }
  }

  lemma EvictionMakesRoom(n: Node, op: Op, capacity: nat)
    requires NodeValid(n) && Accurate(n.mem) && WellPosed(n, op) && capacity < LIMIT
    requires Excess(n.mem, capacity) <= 0 && !op.Delete? && Forces(n, op)
    requires Evict(BeforeEviction(n, op), op.key.row, Asked(n, op), op.queue).Some?
    ensures RoomIsMade(n, op, Evict(BeforeEviction(n, op), op.key.row, Asked(n, op), op.queue).value, capacity)
  {
    hide NodeValid; hide Valid; hide View; hide Bytes; hide Evict; hide BeforeEviction; hide Accurate; hide Dropped;
    hide Hollow; hide SameBooks; hide Asked; hide Forces; hide ListsRows; hide Credit; hide Overcredit; hide RowInCache;
    var row, m := op.key.row, BeforeEviction(n, op);
    BeforeEvictionBooks(n, op);
    SameBooksSound(n.mem, m, capacity);
    SameBooksTell(n.mem, m);
    assert ListsRows(m, row, op.queue) by { ListsRowsSame(n.mem, m, row, op.queue); }
    assert Distinct(op.queue) by { ListsDistinct(m, row, op.queue); }
    CreditIsOthers(m, row, op.queue);
    SizesNonNegative(m);
    EvictExcess(m, row, Asked(n, op), op.queue, capacity);
    EvictCounter(m, row, Asked(n, op), op.queue);
    EvictKeeps(m, row, Asked(n, op), op.queue);
    DroppedSame(n.mem, m, row, Asked(n, op), op.queue);
    RowInSameCache(n.mem, m, row);
    SameSizes(m, Evict(m, row, Asked(n, op), op.queue).value, row);
    var rows := Dropped(n.mem, row, Asked(n, op), op.queue);
    OvercreditTells(n.mem, m, rows);
    CreditTells(n.mem, m, row, rows);
    OvercreditZeroIff(n.mem, rows);
  }

  lemma RowInSameCache(m: Mem, m': Mem, row: string)
    requires m'.cache == m.cache
    ensures RowInCache(m', row) == RowInCache(m, row)
  {
  }

  lemma SameSizes(m: Mem, m': Mem, row: string)
    requires m'.rowSizes == m.rowSizes
    ensures RowSize(m', row) == RowSize(m, row)
  {
  }

  lemma SameBooksTell(m: Mem, m': Mem)
    requires SameBooks(m, m')
    ensures m'.available == m.available && m'.cache == m.cache && m'.resident == m.resident
    ensures forall row :: RowSize(m', row) == RowSize(m, row)
    ensures Bytes(View(m')) == Bytes(View(m)) && Bytes(m.cache) == Bytes(m'.cache)
  {
    hide View; hide Bytes;
  }

  lemma ListsRowsSame(m: Mem, m': Mem, user: string, queue: seq<string>)
    requires ListsRows(m, user, queue) && forall r :: r != user ==> (r in m'.rowSizes <==> r in m.rowSizes)
    ensures ListsRows(m', user, queue)
  {
  }

  lemma ListsDistinct(m: Mem, user: string, queue: seq<string>)
    requires ListsRows(m, user, queue)
    ensures Distinct(queue)
  {
  }

  lemma {:induction false} OvercreditTells(m: Mem, m': Mem, rows: seq<string>)
    requires m'.resident == m.resident && forall row :: RowSize(m', row) == RowSize(m, row)
    ensures Overcredit(m', rows) == Overcredit(m, rows)
    decreases |rows|
  {
    if rows == [] {
    } else {
      OvercreditTells(m, m', rows[1..]);
    }
  }

  lemma {:induction false} CreditTells(m: Mem, m': Mem, user: string, rows: seq<string>)
    requires forall row :: RowSize(m', row) == RowSize(m, row)
    ensures Credit(m', user, rows) == Credit(m, user, rows)
    decreases |rows|
  {
    if rows == [] {
    } else {
      CreditTells(m, m', user, rows[1..]);
    }
  }

  // ---- Requests -------------------------------------------------------------------------------------

  /** The node after `Reserve` has the room that the request asked for. */
  lemma ReservedBooks(n: Node, op: Op, capacity: nat)
    requires NodeValid(n) && Sound(n.mem, capacity) && WellPosed(n, op) && capacity < LIMIT && (op.Put? || op.CPut?)
    requires Reserve(n, op.key.row, |op.value|, op.queue, true).Some? && (op.CPut? ==> op.key in n.mem.diskMap)
    ensures var n1 := Reserve(n, op.key.row, |op.value|, op.queue, true).value;
            NodeValid(n1) && RoomIsMade(n, op, n1.mem, capacity)
  {
    hide NodeValid; hide View; hide Bytes; hide Evict; hide Checkpoint; hide Dropped; hide Demand; hide Valid;
    hide Accurate; hide ListsRows; hide RowInCache; hide Hollow; hide SameBooks; hide Empties;
    ReserveKeeps(n, op.key.row, |op.value|, op.queue);
    if Forces(n, op) {
      EvictionMakesRoom(n, op, capacity);
    } else {
      var m := Consulted(n.mem, op.key.row);
      ConsultedBooks(n.mem, op.key.row);
      SameBooksSound(n.mem, m, capacity);
      SameBooksTell(n.mem, m);
      RowInSameCache(n.mem, m, op.key.row);
    }
  }

  lemma GetRoomBooks(n: Node, op: Op, capacity: nat)
    requires NodeValid(n) && Sound(n.mem, capacity) && WellPosed(n, op) && capacity < LIMIT && op.Get? && Forces(n, op)
    requires Evict(BeforeEviction(n, op), op.key.row, Asked(n, op), op.queue).Some?
    ensures var e := Evict(BeforeEviction(n, op), op.key.row, Asked(n, op), op.queue).value;
            Valid(e, {}) && RoomIsMade(n, op, e, capacity)
  {
    hide NodeValid; hide View; hide Bytes; hide Evict; hide BeforeEviction; hide Dropped; hide Asked; hide Valid;
    hide Accurate; hide ListsRows; hide RowInCache; hide Hollow; hide SameBooks; hide Forces; hide RoomIsMade;
    BeforeEvictionBooks(n, op);
    EvictKeeps(BeforeEviction(n, op), op.key.row, Asked(n, op), op.queue);
    EvictionMakesRoom(n, op, capacity);
  }

  /** With accurate sizes the bytes to be loaded are those recorded. */
  lemma LoadCostIsSize(m: Mem, row: string, dirty: set<Key>)
    requires Valid(m, dirty) && Accurate(m)
    ensures LoadCost(m, row) == if row in m.resident then 0 else RowSize(m, row)
    ensures LoadCost(m, row) <= Bytes(View(m))
  {
    hide Valid; hide View; hide Bytes;
    assert SizedRight(m, row);
    BytesSubmap(RowOf(View(m), row), View(m));
    if row !in m.resident { LoadedBytes(m, row, dirty); }
  }

  lemma PutAsks(n: Node, op: Op, e: Mem, capacity: nat, dirty: set<Key>)
    requires op.Put? || op.CPut?
    requires NodeValid(n) && Accurate(n.mem) && WellPosed(n, op) && Valid(e, dirty) && RoomIsMade(n, op, e, capacity)
    ensures LoadCost(e, op.key.row) == LoadCost(n.mem, op.key.row)
    ensures LoadCost(e, op.key.row) + |op.value| <= e.available
  {
    hide Valid; hide View; hide Bytes; hide Accurate; hide RowSize; hide LoadCost; hide ListsRows; hide SizeT;
    LoadCostIsSize(n.mem, op.key.row, n.modified);
    LoadCostIsSize(e, op.key.row, dirty);
    if op.key.row !in n.mem.resident {
      SizeTSmall(RowSize(n.mem, op.key.row) + |op.value|);
    }
  }

  /** A put leaves the counters right exactly when the rows that it evicts are in the cache or empty. */
  lemma PutBooksIff(n: Node, op: Op, capacity: nat)
    requires NodeValid(n) && Sound(n.mem, capacity) && WellPosed(n, op) && capacity < LIMIT
    requires op.Put? && Step(n, op).Done?
    ensures Sound(Step(n, op).node.mem, capacity) <==> KeepsBooks(n, op)
  {
    hide Valid; hide View; hide Bytes; hide Accurate; hide Reserve; hide WellPosed; hide PutColumn; hide LoadCost;
    hide Counted; hide Freed; hide EvictsCached; hide Over; hide SameBooks; hide Asked;
    var n1 := Reserve(n, op.key.row, |op.value|, op.queue, true).value;
    ReservedBooks(n, op, capacity);
    PutAsks(n, op, n1.mem, capacity, n1.modified);
    PutColumnExcess(n1.mem, op.key, op.value, capacity, n1.modified);
    PutColumnAccurate(n1.mem, op.key, op.value, n1.modified);
    var n2 := ApplyPut(n1, op.key, op.value);
    ApplyPutValid(n1, op.key, op.value);
    CountedBooks(n2);
    SameBooksSound(n2.mem, Counted(n2).mem, capacity);
  }

  /** The put itself never wraps `available_memory` around: it lowers the counter by what it loads and stores, less
      what the old value frees. */
  lemma PutNeverWraps(n: Node, op: Op, capacity: nat)
    requires NodeValid(n) && Sound(n.mem, capacity) && WellPosed(n, op) && capacity < LIMIT
    requires op.Put? && Reserve(n, op.key.row, |op.value|, op.queue, true).Some?
    ensures var m := Reserve(n, op.key.row, |op.value|, op.queue, true).value.mem;
            PutColumn(m, op.key, op.value).available
            == m.available - LoadCost(m, op.key.row) - |op.value| + Freed(m, op.key)
  {
    hide Valid; hide View; hide Bytes; hide Accurate; hide Reserve; hide WellPosed; hide PutColumn; hide LoadCost;
    hide Freed; hide EvictsCached; hide Over; hide Asked;
    var n1 := Reserve(n, op.key.row, |op.value|, op.queue, true).value;
    ReservedBooks(n, op, capacity);
    PutAsks(n, op, n1.mem, capacity, n1.modified);
    PutColumnExcess(n1.mem, op.key, op.value, capacity, n1.modified);
  }

  lemma GetColumnBooks(m: Mem, k: Key, capacity: nat, dirty: set<Key>)
    requires Valid(m, dirty) && LoadCost(m, k.row) <= m.available
    ensures var m' := GetColumn(m, k).1;
            && Excess(m', capacity) == Excess(m, capacity) && (Accurate(m) ==> Accurate(m'))
            && m'.available == m.available - LoadCost(m, k.row) && LoadCost(m', k.row) == 0
  {
    hide Valid; hide View; hide Bytes; hide LoadCost; hide LoadRow;
    var m' := GetColumn(m, k).1;
    GetColumnKeeps(m, k, dirty);
    LoadRowExcess(m, k.row, capacity, dirty);
    LoadedSizes(m, k.row);
    if Accurate(m) {
      forall row ensures SizedRight(m', row) { assert SizedRight(m, row); }
    }
    ResidentCostsNothing(m', k.row);
  }

  lemma ResidentCostsNothing(m: Mem, row: string)
    requires row in m.resident
    ensures LoadCost(m, row) == 0
  {
  }

  lemma LoadedSizes(m: Mem, row: string)
    ensures LoadRow(m, row).rowSizes == m.rowSizes
  {
  }

  /** Whether the swap takes place is decided before room is made. */
  lemma SwapsAfterRoom(n: Node, op: Op, e: Mem, capacity: nat)
    requires op.CPut? && NodeValid(n) && RoomIsMade(n, op, e, capacity) && op.key in n.mem.diskMap
    requires op.key in e.diskMap && View(e)[op.key] == View(n.mem)[op.key]
    ensures (op.key !in Hollow(e) && View(e)[op.key] == op.expected) <==> Swaps(n, op)
  {
    hide NodeValid; hide View; hide Bytes; hide Accurate; hide EvictsCached; hide Over; hide Asked; hide Evictees;
    var k := op.key;
    assert k in e.cache <==> k in RowInCache(e, k.row);
    assert k in n.mem.cache <==> k in RowInCache(n.mem, k.row);
  }

  lemma ReservedView(n: Node, op: Op)
    requires NodeValid(n) && op.CPut? && op.key in n.mem.diskMap
    requires Reserve(n, op.key.row, |op.value|, op.queue, true).Some?
    ensures var n1 := Reserve(n, op.key.row, |op.value|, op.queue, true).value;
            op.key in n1.mem.diskMap && View(n1.mem)[op.key] == View(n.mem)[op.key]
  {
    hide NodeValid; hide Reserve; hide View; hide Hollow;
    ReserveKeeps(n, op.key.row, |op.value|, op.queue);
    ViewKeys(n.mem);
    ViewKeys(Reserve(n, op.key.row, |op.value|, op.queue, true).value.mem);
    EmptiesAway(View(n.mem), if NeedsRoom(n.mem, op.key.row, |op.value|) then Limbo(n) else {}, op.key);
  }

  /** What the two counters of a conditional put come to, once room has been made. */
  lemma ApplyCPutBooks(n: Node, k: Key, expected: string, value: string, capacity: nat, over: int)
    requires NodeValid(n) && Accurate(n.mem) && k in n.mem.diskMap && capacity < LIMIT && Bytes(View(n.mem)) < LIMIT
    requires LoadCost(n.mem, k.row) + |value| <= n.mem.available && |expected| <= MAX_SIZE && |value| <= MAX_SIZE
    requires Excess(n.mem, capacity) == over && 0 <= over < LIMIT
    ensures var m' := ApplyCPut(n, k, expected, value).1.mem;
            var d, left := |expected| - |value|, n.mem.available - LoadCost(n.mem, k.row);
            && Accurate(m')
            && (Conserved(m', capacity) <==>
                  if k !in Hollow(n.mem) && k in View(n.mem) && View(n.mem)[k] == expected then over == 2 * d && d <= left
                  else over == 0)
  {
    hide Valid; hide View; hide Bytes; hide Accurate; hide LoadCost; hide GetColumn; hide CPutColumn; hide Hollow;
    var m := GetColumn(n.mem, k).1;
    ViewKeys(n.mem);
    GetColumnKeeps(n.mem, k, n.modified);
    GetColumnBooks(n.mem, k, capacity, n.modified);
    CPutColumnKeeps(m, k, expected, value, n.modified);
    CPutColumnAccurate(m, k, expected, value, n.modified);
    CPutColumnExcess(m, k, expected, value, capacity, n.modified);
    if k !in Hollow(n.mem) && View(n.mem)[k] == expected {
      BytesRemove(View(n.mem), k);
      ExcessBounds(n.mem, capacity);
    }
  }

  lemma ExcessBounds(m: Mem, capacity: nat)
    ensures m.available <= capacity + Excess(m, capacity)
  {
  }

  /** So does a conditional put that fails; one that succeeds must besides make no difference in length, or exactly
      half of what the eviction credited too much. */
  lemma CPutBooksIff(n: Node, op: Op, capacity: nat)
    requires NodeValid(n) && Sound(n.mem, capacity) && WellPosed(n, op) && capacity < LIMIT
    requires op.CPut? && Step(n, op).Done?
    ensures Sound(Step(n, op).node.mem, capacity) <==> KeepsBooks(n, op)
  {
    hide Valid; hide View; hide Bytes; hide Accurate; hide Reserve; hide ApplyCPut; hide LoadCost; hide Evictees;
    hide Counted; hide SameBooks; hide Asked; hide Swaps; hide Hollow; hide Credit; hide ListsRows; hide Overcredit;
    if op.key !in n.mem.diskMap {
      NoEvictees(n, op);
      assert !Swaps(n, op) by { NotThere(n, op); }
    } else {
      var n1 := Reserve(n, op.key.row, |op.value|, op.queue, true).value;
      ReservedBooks(n, op, capacity);
      ReservedView(n, op);
      PutAsks(n, op, n1.mem, capacity, n1.modified);
      SwapsAfterRoom(n, op, n1.mem, capacity);
      ViewKeys(n1.mem);
      assert Left(n, op) == n1.mem.available - LoadCost(n1.mem, op.key.row);
      ApplyCPutBooks(n1, op.key, op.expected, op.value, capacity, Over(n, op));
      var (r, n2) := ApplyCPut(n1, op.key, op.expected, op.value);
      if !r.Mismatch? {
        ApplyCPutValid(n1, op.key, op.expected, op.value);
        CountedBooks(n2);
        SameBooksSound(n2.mem, Counted(n2).mem, capacity);
      }
    }
  }

  lemma NoEvictees(n: Node, op: Op)
    requires !Forces(n, op)
    ensures EvictsCached(n, op) && Over(n, op) == 0
  {
  }

  lemma NotThere(n: Node, op: Op)
    requires op.CPut? && op.key !in n.mem.diskMap
    ensures !Swaps(n, op)
  {
  }

  /** A get that loads its row does the same as a put. */
  lemma GetBooksIff(n: Node, op: Op, capacity: nat)
    requires NodeValid(n) && Sound(n.mem, capacity) && WellPosed(n, op) && capacity < LIMIT
    requires op.Get? && Step(n, op).Done?
    ensures Sound(Step(n, op).node.mem, capacity) <==> KeepsBooks(n, op)
  {
    hide Valid; hide View; hide Bytes; hide Accurate; hide Evict; hide GetColumn; hide LoadCost; hide Evictees;
    hide SameBooks; hide Hollow; hide Credit; hide ListsRows; hide Overcredit; hide Checkpoint; hide EvictsCached;
    var k := op.key;
    if k !in n.mem.diskMap {
      NoEvictees(n, op);
    } else if k.row in n.mem.resident {
      NoEvictees(n, op);
      ResidentCostsNothing(n.mem, k.row);
      GetColumnBooks(n.mem, k, capacity, n.modified);
    } else {
      var m := BeforeEviction(n, op);
      SameGetSize(n, op);
      var e := Evict(m, k.row, Asked(n, op), op.queue).value;
      GetRoomBooks(n, op, capacity);
      LoadCostIsSize(n.mem, k.row, n.modified);
      LoadCostIsSize(e, k.row, {});
      SizeTSmall(RowSize(n.mem, k.row));
      GetColumnBooks(e, k, capacity, {});
    }
  }

  lemma SameGetSize(n: Node, op: Op)
    requires op.Get?
    ensures RowSize(Sized(Checkpoint(n).mem, op.key.row), op.key.row) == RowSize(n.mem, op.key.row)
  {
    hide Checkpoint;
    CheckpointCounters(n);
  }

  /** A delete exactly when the row is in the cache or the value empty. */
  lemma DeleteBooksIff(n: Node, op: Op, capacity: nat)
    requires NodeValid(n) && Sound(n.mem, capacity) && capacity < LIMIT && op.Delete?
    ensures Sound(Step(n, op).node.mem, capacity) <==> KeepsBooks(n, op)
  {
    hide Valid; hide View; hide Bytes; hide Accurate; hide Counted; hide SameBooks; hide DeleteColumn; hide Conserved;
    var k := op.key;
    if k in n.mem.diskMap {
      var n2 := ApplyDelete(n, k);
      DeleteColumnConserves(n.mem, k, capacity, n.modified);
      if DeleteColumn(n.mem, k).0 {
        DeleteColumnAccurateIff(n.mem, k, n.modified);
      } else {
        HollowIsResident(n.mem, k);
      }
      ApplyDeleteValid(n, k);
      CountedBooks(n2);
      SameBooksSound(n2.mem, Counted(n2).mem, capacity);
    }
  }

  lemma HollowIsResident(m: Mem, k: Key)
    requires k in m.diskMap && !DeleteColumn(m, k).0
    ensures k.row in m.resident && DeleteColumn(m, k).1 == m
  {
  }

  /** Memory conservation, request by request. */
  lemma StepBooksIff(n: Node, op: Op, capacity: nat)
    requires NodeValid(n) && Sound(n.mem, capacity) && WellPosed(n, op) && capacity < LIMIT && Step(n, op).Done?
    ensures Sound(Step(n, op).node.mem, capacity) <==> KeepsBooks(n, op)
  {
    hide NodeValid; hide Sound; hide WellPosed; hide Step; hide KeepsBooks;
    match op
    case Put(_, _, _) => PutBooksIff(n, op, capacity);
    case CPut(_, _, _, _) => CPutBooksIff(n, op, capacity);
    case Get(_, _) => GetBooksIff(n, op, capacity);
    case Delete(_) => DeleteBooksIff(n, op, capacity);
  }

  // ---- When a request is defined --------------------------------------------------------------------

  /** The columns of a row that the cache does not hold. */
  function Uncached(m: Mem, row: string): map<Key, string> {
    map k | k in View(m) && k.row == row && k !in m.cache :: View(m)[k]
  }

  /** What a request needs room for: the value that it brings and what it must load of its row. */
  ghost function Cost(n: Node, op: Op): nat
    requires !op.Delete?
  {
    Bytes(Uncached(n.mem, op.key.row)) + if op.Get? then 0 else |op.value|
  }

  /** Whether a request needs room at all: a put always, others if their column is there, a get if the row is not. */
  predicate Needs(n: Node, op: Op) {
    match op
    case Put(_, _, _) => true
    case CPut(k, _, _, _) => k in View(n.mem)
    case Get(k, _) => k in View(n.mem) && k.row !in n.mem.resident
    case Delete(_) => false
  }

  /** The cost fits into the capacity beside what is cached, once all other rows are credited with what they hold. With
      the other rows all in the cache this says that it fits beside what is cached of the request's row. */
  ghost predicate Affordable(n: Node, op: Op, capacity: nat) {
    Needs(n, op) ==> Cost(n, op) + Bytes(n.mem.cache) <= capacity + Bytes(OtherRows(View(n.mem), op.key.row))
  }

  lemma UncachedIsCost(m: Mem, row: string, dirty: set<Key>)
    requires Valid(m, dirty)
    ensures Bytes(Uncached(m, row)) == LoadCost(m, row)
  {
    hide DiskOk; hide CleanOnDisk; hide Bytes;
    if row in m.resident {
      forall k | k in Uncached(m, row) ensures Uncached(m, row)[k] == "" {
        assert m.diskMap[k] == [];
      }
      EmptyBytes(Uncached(m, row));
    } else {
      LoadedBytes(m, row, dirty);
      assert Uncached(m, row) == RowOf(View(m), row);
    }
  }

  /** With right counters that is what the request asks for, and it forces a checkpoint when it does not fit. */
  lemma AskedIsCost(n: Node, op: Op, capacity: nat)
    requires NodeValid(n) && Sound(n.mem, capacity) && WellPosed(n, op) && capacity < LIMIT && Needs(n, op)
    ensures Asked(n, op) == Cost(n, op)
    ensures Forces(n, op) <==> op.Get? || Cost(n, op) + Bytes(n.mem.cache) > capacity
  {
    hide Valid; hide View; hide Bytes; hide Accurate; hide LoadCost; hide RowSize; hide ListsRows; hide Uncached;
    var row := op.key.row;
    ViewKeys(n.mem);
    UncachedIsCost(n.mem, row, n.modified);
    LoadCostIsSize(n.mem, row, n.modified);
    if row !in n.mem.resident {
      SizeTSmall(RowSize(n.mem, row) + if op.Get? then 0 else |op.value|);
    }
  }

  lemma RowAndOthers(t: map<Key, string>, row: string)
    ensures Bytes(t) == Bytes(RowOf(t, row)) + Bytes(OtherRows(t, row))
  {
    hide Bytes;
    BytesUnion(RowOf(t, row), OtherRows(t, row));
    assert RowOf(t, row) + OtherRows(t, row) == t;
  }

  lemma SameOthers(m: Mem, m': Mem, row: string)
    requires SameBooks(m, m')
    ensures Bytes(OtherRows(View(m'), row)) == Bytes(OtherRows(View(m), row))
  {
    hide View; hide Bytes; hide OtherRows; hide RowOf;
    RowAndOthers(View(m), row);
    RowAndOthers(View(m'), row);
  }

  lemma EvictionDefinedIff(n: Node, op: Op, capacity: nat)
    requires NodeValid(n) && Sound(n.mem, capacity) && WellPosed(n, op) && capacity < LIMIT && !op.Delete?
    ensures Evict(BeforeEviction(n, op), op.key.row, Asked(n, op), op.queue).Some?
            <==> Asked(n, op) + Bytes(n.mem.cache) <= capacity + Bytes(OtherRows(View(n.mem), op.key.row))
  {
    hide NodeValid; hide Valid; hide View; hide Bytes; hide Evict; hide BeforeEviction; hide Accurate; hide OtherRows;
    hide SameBooks; hide Asked; hide ListsRows;
    var row, m := op.key.row, BeforeEviction(n, op);
    BeforeEvictionBooks(n, op);
    SameBooksSound(n.mem, m, capacity);
    SameBooksTell(n.mem, m);
    SameOthers(n.mem, m, row);
    assert ListsRows(m, row, op.queue) by { ListsRowsSame(n.mem, m, row, op.queue); }
    EvictSucceedsExactly(m, row, Asked(n, op), op.queue);
  }

  /** A request never takes the front of an empty queue exactly when it is affordable. */
  lemma StepDefinedIff(n: Node, op: Op, capacity: nat)
    requires NodeValid(n) && Sound(n.mem, capacity) && WellPosed(n, op) && capacity < LIMIT
    ensures Step(n, op).Done? <==> Affordable(n, op, capacity)
  {
    hide NodeValid; hide Sound; hide WellPosed; hide View; hide Bytes; hide Evict; hide Checkpoint; hide OtherRows;
    hide Uncached;
    ViewKeys(n.mem);
    if Needs(n, op) {
      EvictionDefinedIff(n, op, capacity);
      AskedIsCost(n, op, capacity);
      if op.Get? { SameGetSize(n, op); }
    }
  }

  /** In particular whenever what it asks for fits into the capacity beside what is cached of its own row. */
  lemma FittingIsAffordable(n: Node, op: Op, capacity: nat)
    requires NodeValid(n) && Sound(n.mem, capacity)
    requires Needs(n, op) ==> Cost(n, op) + Bytes(RowInCache(n.mem, op.key.row)) <= capacity
    ensures Affordable(n, op, capacity)
  {
    hide NodeValid; hide Valid; hide View; hide Bytes; hide OtherRows; hide RowInCache; hide Accurate; hide Uncached;
    if Needs(n, op) {
      assert Valid(n.mem, n.modified) by { ValidOf(n); }
      CachedAreOthers(n.mem, op.key.row, n.modified);
    }
  }

  lemma ValidOf(n: Node)
    requires NodeValid(n)
    ensures Valid(n.mem, n.modified)
  {
  }

  // ---- Runs -----------------------------------------------------------------------------------------

  ghost predicate RunWellPosed(n: Node, ops: seq<Op>)
    decreases |ops|
  {
    ops == []
    || (WellPosed(n, ops[0]) && (Step(n, ops[0]).Done? ==> RunWellPosed(Step(n, ops[0]).node, ops[1..])))
  }

  /** Every request keeps the counters right. */
  ghost predicate BooksKept(n: Node, ops: seq<Op>)
    decreases |ops|
  {
    ops == []
    || (KeepsBooks(n, ops[0]) && (Step(n, ops[0]).Done? ==> BooksKept(Step(n, ops[0]).node, ops[1..])))
  }

  /** The counters are right after every request. */
  ghost predicate SoundThroughout(n: Node, ops: seq<Op>, capacity: nat)
    requires Run(n, ops).Some?
    decreases |ops|
  {
    Sound(n.mem, capacity) && (ops == [] || SoundThroughout(Step(n, ops[0]).node, ops[1..], capacity))
  }

  ghost predicate AllAffordable(n: Node, ops: seq<Op>, capacity: nat)
    decreases |ops|
  {
    ops == []
    || (Affordable(n, ops[0], capacity)
        && (Step(n, ops[0]).Done? ==> AllAffordable(Step(n, ops[0]).node, ops[1..], capacity)))
  }

  /** Memory conservation over every run: `available_memory` and the cached bytes come to the capacity, and `row_sizes`
      are the bytes of the rows, after every request if and only if every request keeps the books. */
  lemma {:induction false} RunConservesIff(n: Node, ops: seq<Op>, capacity: nat)
    requires NodeValid(n) && Sound(n.mem, capacity) && capacity < LIMIT
    requires Run(n, ops).Some? && RunWellPosed(n, ops)
    ensures SoundThroughout(n, ops, capacity) <==> BooksKept(n, ops)
    decreases |ops|
  {
    hide NodeValid; hide Sound; hide Step; hide KeepsBooks; hide WellPosed;
    if ops == [] {
    } else {
      var n1 := Step(n, ops[0]).node;
      StepBooksIff(n, ops[0], capacity);
      StepValid(n, ops[0]);
      if KeepsBooks(n, ops[0]) {
        RunConservesIff(n1, ops[1..], capacity);
      } else {
        assert !Sound(n1.mem, capacity);
        NotThroughout(n1, ops[1..], capacity);
      }
    }
  }

  lemma NotThroughout(n: Node, ops: seq<Op>, capacity: nat)
    requires Run(n, ops).Some? && !Sound(n.mem, capacity)
    ensures !SoundThroughout(n, ops, capacity)
  {
  }

  /** A run that keeps the books is defined if and only if every request is affordable; the counter then never leaves
      the range from 0 to the capacity. */
  lemma {:induction false} RunDefinedIff(n: Node, ops: seq<Op>, capacity: nat)
    requires NodeValid(n) && Sound(n.mem, capacity) && capacity < LIMIT
    requires RunWellPosed(n, ops) && BooksKept(n, ops)
    ensures Run(n, ops).Some? <==> AllAffordable(n, ops, capacity)
    ensures Run(n, ops).Some? ==> Sound(Run(n, ops).value.0.mem, capacity)
                                  && Run(n, ops).value.0.mem.available <= capacity
    decreases |ops|
  {
    hide NodeValid; hide Step; hide KeepsBooks; hide WellPosed; hide Affordable; hide Accurate;
    if ops == [] {
    } else {
      StepDefinedIff(n, ops[0], capacity);
      if Step(n, ops[0]).Done? {
        StepBooksIff(n, ops[0], capacity);
        StepValid(n, ops[0]);
        RunDefinedIff(Step(n, ops[0]).node, ops[1..], capacity);
      }
    }
  }

  lemma FreshIsSound(capacity: nat)
    requires capacity < LIMIT
    ensures Sound(FreshNode(capacity).mem, capacity) && NodeValid(FreshNode(capacity))
  {
    var m := FreshNode(capacity).mem;
    assert View(m) == map[];
    forall row ensures SizedRight(m, row) { assert RowOf(View(m), row) == map[]; }
  }
}
