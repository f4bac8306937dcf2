/** When a request takes a checkpoint and what it evicts (kvstore/kv_store.cpp:357-374, 387-407, 454-468, 488-497,
    539-571), told from the plain map, the cache and the capacity. */
module Timing {
  import opened Extents
  import opened Memtable
  import opened Options
  import opened StorageNode
  import opened NodeRuns
  import opened NodeLayout
  import opened Memory
  import opened Budget

  // ---- Checkpoints ----------------------------------------------------------------------------------

  /** The value and the bytes of its row that are still on disk do not fit into the capacity beside the cached bytes; a get
      whose row is not in the cache counts as short in any case. */
  ghost predicate RunsShort(n: Node, op: Op, capacity: nat) {
    match op
    case Put(k, v, _) => |v| + Bytes(Uncached(n.mem, k.row)) + Bytes(n.mem.cache) > capacity
    case CPut(k, _, v, _) => k in View(n.mem) && |v| + Bytes(Uncached(n.mem, k.row)) + Bytes(n.mem.cache) > capacity
    case Get(k, _) => k in View(n.mem) && k.row !in n.mem.resident
    case Delete(_) => false
  }

  /** The write after which `CHECKPOINT_THRESHOLD` have been counted. */
  ghost predicate FillsUp(n: Node, op: Op) {
    Step(n, op).Done? && Step(n, op).reply == Success && n.operations + 1 == CHECKPOINT_THRESHOLD
  }

  /** What the request adds to the log: nothing if it is a get or finds no column. */
  function Recorded(n: Node, op: Op): seq<Record> {
    if op.Put? || (!op.Get? && op.key in View(n.mem)) then [RecordOf(op)] else []
  }

  /** With right counters the source's test of `available_memory` is this one. */
  lemma ForcesIff(n: Node, op: Op, capacity: nat)
    requires NodeValid(n) && Sound(n.mem, capacity) && WellPosed(n, op) && capacity < LIMIT
    ensures Forces(n, op) <==> RunsShort(n, op, capacity)
  {
    hide NodeValid; hide Sound; hide WellPosed; hide View; hide Bytes; hide NeedsRoom; hide Uncached;
    ViewKeys(n.mem);
    if Needs(n, op) { AskedIsCost(n, op, capacity); }
  }

  /** The fields that a checkpoint sets and the others leave. */
  ghost predicate Fields(n: Node, version: nat, operations: nat, log: seq<Record>) {
    n.version == version && n.logVersion == version && n.operations == operations && n.log == log
  }

  lemma CheckpointFieldsAre(n: Node)
    ensures Fields(Checkpoint(n), n.version + 1, 0, [])
  {
    CheckpointFields(n);
  }

  lemma CountedFields(n: Node)
    requires n.logVersion == n.version
    ensures if n.operations == CHECKPOINT_THRESHOLD then Fields(Counted(n), n.version + 1, 0, [])
            else Counted(n) == n && Fields(n, n.version, n.operations, n.log)
  {
    hide Checkpoint; hide Fields;
    if n.operations == CHECKPOINT_THRESHOLD {
      CheckpointFieldsAre(n);
    } else {
      ItsFields(n);
    }
  }

  lemma ItsFields(n: Node)
    requires n.logVersion == n.version
    ensures Fields(n, n.version, n.operations, n.log)
  {
  }

  lemma ReserveFields(n: Node, row: string, size: nat, queue: seq<string>)
    requires n.logVersion == n.version && Reserve(n, row, size, queue, true).Some?
    ensures var n' := Reserve(n, row, size, queue, true).value;
            if NeedsRoom(n.mem, row, size) then Fields(n', n.version + 1, 0, [])
            else Fields(n', n.version, n.operations, n.log) && n'.metadata == n.metadata && n'.saved == n.saved
  {
    hide Checkpoint; hide Evict; hide NeedsRoom; hide Demand;
    CheckpointFieldsAre(n.(mem := Consulted(n.mem, row)));
  }

  /** What becomes of version, counter and log when the request runs short or not. */
  ghost predicate CheckpointsSo(n: Node, op: Op, short: bool) {
    Step(n, op).Done?
    && var n', full := Step(n, op).node, FillsUp(n, op);
       && n'.version == n'.logVersion == n.version + (if short || full then 1 else 0)
       && n'.operations == (if full && !short then 0
                            else (if short then 0 else n.operations) + (if Step(n, op).reply == Success then 1 else 0))
       && n'.log == (if full && !short then [] else (if short then [] else n.log) + Recorded(n, op))
       && (!short && !full ==> n'.metadata == n.metadata && n'.saved == n.saved)
  }

  lemma PutFields(n: Node, op: Op)
    requires op.Put? && n.logVersion == n.version && Step(n, op).Done?
    ensures CheckpointsSo(n, op, Forces(n, op))
  {
    hide Reserve; hide Counted; hide PutColumn; hide NeedsRoom;
    var k, v := op.key, op.value;
    ReserveFields(n, k.row, |v|, op.queue);
    var n1 := Reserve(n, k.row, |v|, op.queue, true).value;
    CountedFields(ApplyPut(n1, k, v));
  }

  lemma CPutFields(n: Node, op: Op)
    requires op.CPut? && n.logVersion == n.version && Step(n, op).Done?
    ensures CheckpointsSo(n, op, Forces(n, op))
  {
    hide Reserve; hide Counted; hide GetColumn; hide CPutColumn; hide NeedsRoom; hide View;
    var k, v := op.key, op.value;
    ViewKeys(n.mem);
    if k in n.mem.diskMap {
      ReserveFields(n, k.row, |v|, op.queue);
      var n1 := Reserve(n, k.row, |v|, op.queue, true).value;
      CountedFields(ApplyCPut(n1, k, op.expected, v).1);
    }
  }

  lemma GetFields(n: Node, op: Op)
    requires op.Get? && n.logVersion == n.version && Step(n, op).Done?
    ensures CheckpointsSo(n, op, Forces(n, op))
  {
    hide Checkpoint; hide Evict; hide GetColumn; hide View;
    CheckpointFieldsAre(n);
  }

  lemma DeleteFields(n: Node, op: Op)
    requires op.Delete? && n.logVersion == n.version && Step(n, op).Done?
    ensures CheckpointsSo(n, op, Forces(n, op))
  {
    hide Counted; hide DeleteColumn; hide View;
    ViewKeys(n.mem);
    CountedFields(ApplyDelete(n, op.key));
  }

  lemma StepFields(n: Node, op: Op)
    requires n.logVersion == n.version && Step(n, op).Done?
    ensures CheckpointsSo(n, op, Forces(n, op))
  {
    hide CheckpointsSo; hide Forces;
    match op
    case Put(_, _, _) => PutFields(n, op);
    case CPut(_, _, _, _) => CPutFields(n, op);
    case Get(_, _) => GetFields(n, op);
    case Delete(_) => DeleteFields(n, op);
  }

  /** A request that runs short takes its checkpoint before it is logged, a write that fills up takes it afterwards, no
      other request takes one, and none takes two. */
  lemma StepCheckpointsExactly(n: Node, op: Op, capacity: nat)
    requires NodeValid(n) && Sound(n.mem, capacity) && WellPosed(n, op) && capacity < LIMIT
    requires n.logVersion == n.version && Step(n, op).Done?
    ensures CheckpointsSo(n, op, RunsShort(n, op, capacity))
  {
    hide NodeValid; hide Sound; hide WellPosed; hide RunsShort; hide CheckpointsSo;
    ForcesIff(n, op, capacity);
    StepFields(n, op);
  }

  /** The version line of the log is the node's version, over every run. */
  lemma {:induction false} RunKeepsLogVersion(n: Node, ops: seq<Op>)
    requires n.logVersion == n.version && Run(n, ops).Some?
    ensures Run(n, ops).value.0.logVersion == Run(n, ops).value.0.version
    decreases |ops|
  {
    hide Step; hide FillsUp; hide Forces;
    if ops == [] {
    } else {
      StepFields(n, ops[0]);
      RunKeepsLogVersion(Step(n, ops[0]).node, ops[1..]);
    }
  }

  // ---- Eviction -------------------------------------------------------------------------------------

  /** Rows other than the user's among the first `i` of the queue. */
  function Evicted(queue: seq<string>, i: nat, user: string): set<string>
    requires i <= |queue|
  {
    (set row | row in queue[..i]) - {user}
  }

  /** `i` is the least number of rows to go through until what is available comes to `size`. */
  ghost predicate LeastCredit(m: Mem, user: string, size: nat, queue: seq<string>, i: nat) {
    && i <= |queue| && size <= m.available + Credit(m, user, queue[..i])
    && forall j :: 0 <= j < i ==> m.available + Credit(m, user, queue[..j]) < size
  }

  lemma {:induction false} EvictIsLeast(m: Mem, user: string, size: nat, queue: seq<string>) returns (i: nat)
    requires Evict(m, user, size, queue).Some? && forall row :: RowSize(m, row) >= 0
    requires m.available + Credit(m, user, queue) < 0x1_0000_0000_0000_0000
    ensures LeastCredit(m, user, size, queue, i)
    ensures Evict(m, user, size, queue).value.resident == m.resident - Evicted(queue, i, user)
    decreases |queue|
  {
    hide RowSize; hide DropRow;
    CreditNonNegative(m, user, queue);
    if size <= m.available {
      i := 0;
      assert queue[..0] == [];
    } else {
      var first, rest := queue[0], queue[1..];
      var m1 := if first == user then m else DropRow(m, first);
      CreditNonNegative(m, user, rest);
      if first != user {
        DropRowFields(m, first);
        assert m1.available == m.available + RowSize(m, first) by { DropRowExcess(m, first, 0); }
        CreditSame(m, m1, user, rest);
      }
      var j := EvictIsLeast(m1, user, size, rest);
      i := j + 1;
      LeastFurther(m, m1, user, size, queue, j);
      assert (set row | row in queue[..i]) == {first} + set row | row in rest[..j] by {
        assert queue[..i] == [first] + rest[..j];
      }
    }
  }

  lemma LeastFurther(m: Mem, m1: Mem, user: string, size: nat, queue: seq<string>, j: nat)
    requires queue != [] && size > m.available && LeastCredit(m1, user, size, queue[1..], j) && m1.rowSizes == m.rowSizes
    requires m1.available == m.available + if queue[0] == user then 0 else RowSize(m, queue[0])
    ensures LeastCredit(m, user, size, queue, j + 1)
  {
    hide RowSize;
    forall l | 0 <= l <= j
      ensures m.available + Credit(m, user, queue[..l + 1]) == m1.available + Credit(m1, user, queue[1..][..l]) {
      assert queue[..l + 1][1..] == queue[1..][..l];
      CreditSame(m, m1, user, queue[1..][..l]);
    }
    forall l | 0 <= l < j + 1 ensures m.available + Credit(m, user, queue[..l]) < size {
      if l > 0 {
        assert m1.available + Credit(m1, user, queue[1..][..l - 1]) < size;
      }
    }
  }

  /** The cost fits into the capacity beside what is cached once the first `i` rows of the queue, but the request's own, are
      credited with all they hold, in the cache or on disk. */
  ghost predicate RoomAfter(n: Node, op: Op, capacity: nat, i: nat)
    requires !op.Delete? && i <= |op.queue|
  {
    Cost(n, op) + Bytes(n.mem.cache) <= capacity + Bytes(InQueue(View(n.mem), op.key.row, op.queue[..i]))
  }

  /** No fewer rows would do. */
  ghost predicate LeastRoom(n: Node, op: Op, capacity: nat, i: nat)
    requires !op.Delete?
  {
    && i <= |op.queue| && RoomAfter(n, op, capacity, i)
    && forall j :: 0 <= j < i ==> !RoomAfter(n, op, capacity, j)
  }

  lemma CreditOfRows(n: Node, op: Op, m: Mem, capacity: nat, j: nat)
    requires NodeValid(n) && Sound(n.mem, capacity) && WellPosed(n, op) && capacity < LIMIT && Needs(n, op)
    requires SameBooks(n.mem, m) && j <= |op.queue|
    ensures RoomAfter(n, op, capacity, j) <==> Asked(n, op) <= m.available + Credit(m, op.key.row, op.queue[..j])
  {
    hide NodeValid; hide View; hide Bytes; hide Accurate; hide Cost; hide Asked; hide Credit; hide InQueue; hide RowOf;
    AskedIsCost(n, op, capacity);
    SameBooksTell(n.mem, m);
    CreditTells(n.mem, m, op.key.row, op.queue[..j]);
    assert Distinct(op.queue) by { ListsDistinct(n.mem, op.key.row, op.queue); }
    CreditCoversQueue(n.mem, op.key.row, op.queue[..j]);
  }

  /** The eviction within a request. */
  lemma EvictsLeast(n: Node, op: Op, capacity: nat) returns (i: nat)
    requires NodeValid(n) && Sound(n.mem, capacity) && WellPosed(n, op) && capacity < LIMIT && Needs(n, op)
    requires !op.Delete? && Evict(BeforeEviction(n, op), op.key.row, Asked(n, op), op.queue).Some?
    ensures i <= |op.queue| && LeastRoom(n, op, capacity, i)
    ensures Evict(BeforeEviction(n, op), op.key.row, Asked(n, op), op.queue).value.resident
            == n.mem.resident - Evicted(op.queue, i, op.key.row)
  {
    hide NodeValid; hide Valid; hide View; hide Bytes; hide Evict; hide BeforeEviction; hide Accurate; hide Asked;
    hide SameBooks; hide Credit; hide ListsRows; hide RoomAfter; hide Needs;
    var row, m := op.key.row, BeforeEviction(n, op);
    BeforeEvictionBooks(n, op);
    SameBooksSound(n.mem, m, capacity);
    SameBooksTell(n.mem, m);
    assert ListsRows(m, row, op.queue) by { ListsRowsSame(n.mem, m, row, op.queue); }
    CreditIsOthers(m, row, op.queue);
    SizesNonNegative(m);
    i := EvictIsLeast(m, row, Asked(n, op), op.queue);
    forall j | 0 <= j <= i
      ensures RoomAfter(n, op, capacity, j) <==> Asked(n, op) <= m.available + Credit(m, row, op.queue[..j]) {
      CreditOfRows(n, op, m, capacity, j);
    }
  }

  /** Which rows are in the cache after a request: its own, if it needed it there, and of the others all that were, but when
      the request runs short those that come first in the queue, no more than make room. */
  lemma StepEvictsLeast(n: Node, op: Op, capacity: nat) returns (i: nat)
    requires NodeValid(n) && Sound(n.mem, capacity) && WellPosed(n, op) && capacity < LIMIT && Step(n, op).Done?
    requires !op.Delete? && (op.Put? || op.key in View(n.mem))
    ensures if RunsShort(n, op, capacity) then LeastRoom(n, op, capacity, i) else i == 0
    ensures i <= |op.queue|
    ensures Step(n, op).node.mem.resident == n.mem.resident - Evicted(op.queue, i, op.key.row) + {op.key.row}
  {
    hide NodeValid; hide Sound; hide WellPosed; hide View; hide RunsShort; hide Evict; hide BeforeEviction; hide Asked;
    hide LeastRoom; hide Forces;
    ForcesIff(n, op, capacity);
    ViewKeys(n.mem);
    i := 0;
    assert Evicted(op.queue, 0, op.key.row) == {} by { assert op.queue[..0] == []; }
    EvictionWithin(n, op);
    if Forces(n, op) {
      assert Needs(n, op) by { ForcesNeeds(n, op); }
      i := EvictsLeast(n, op, capacity);
    }
  }

  lemma ForcesNeeds(n: Node, op: Op)
    requires Forces(n, op)
    ensures Needs(n, op)
  {
    ViewKeys(n.mem);
  }

  lemma EvictionWithin(n: Node, op: Op)
    requires Step(n, op).Done? && !op.Delete? && (op.Put? || op.key in n.mem.diskMap)
    ensures if Forces(n, op) then
              var e := Evict(BeforeEviction(n, op), op.key.row, Asked(n, op), op.queue);
              e.Some? && Step(n, op).node.mem.resident == e.value.resident + {op.key.row}
            else Step(n, op).node.mem.resident == n.mem.resident + {op.key.row}
  {
    hide Evict; hide Checkpoint; hide Demand; hide NeedsRoom;
    match op
    case Put(k, v, queue) =>
      PutResident(Reserve(n, k.row, |v|, queue, true).value.mem, k, v);
      CountedResident(ApplyPut(Reserve(n, k.row, |v|, queue, true).value, k, v));
    case CPut(k, e, v, queue) =>
      var n1 := Reserve(n, k.row, |v|, queue, true).value;
      CPutResident(GetColumn(n1.mem, k).1, k, e, v);
      GetResident(n1.mem, k);
      CountedResident(ApplyCPut(n1, k, e, v).1);
    case Get(k, queue) =>
      SameGetSize(n, op);
      if Forces(n, op) {
        GetResident(Evict(BeforeEviction(n, op), k.row, Asked(n, op), queue).value, k);
      } else {
        GetResident(n.mem, k);
      }
  }

  lemma PutResident(m: Mem, k: Key, value: string)
    ensures PutColumn(m, k, value).resident == m.resident + {k.row}
  {
    hide Place; hide Recreated; hide SizeT; hide RowSize;
  }

  lemma GetResident(m: Mem, k: Key)
    ensures GetColumn(m, k).1.resident == m.resident + {k.row}
  {
  }

  lemma CPutResident(m: Mem, k: Key, expected: string, value: string)
    ensures CPutColumn(m, k, expected, value).1.resident == m.resident + {k.row}
  {
    hide Place; hide Recreated; hide SizeT; hide RowSize; hide GetColumn;
    GetResident(m, k);
  }

  lemma CountedResident(n: Node)
    ensures Counted(n).mem.resident == n.mem.resident
  {
    CheckpointCache(n);
  }
}
