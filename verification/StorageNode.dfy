/** One storage node (kvstore/kv_store.cpp): the request handlers as functions of the node's state, and what each
    of them does to the plain map the node stands for. This is the primary's path through the handlers, without
    the messages to the replicas. */
module StorageNode {
  import opened Extents
  import opened Memtable
  import opened Options
  import opened Checkpointing

  /** With a threshold of 1, the write after a forced checkpoint would be followed by a counted one, which a secondary
      does not take (kvstore/kv_store.cpp:446-447). */
  type Threshold = x: nat | x > 1 witness 2

  /** 100 (kvstore/kv_store.cpp:39) */
  const CHECKPOINT_THRESHOLD: Threshold

  datatype Record =
    | PutRecord(key: Key, value: string)
    | CPutRecord(key: Key, expected: string, value: string)
    | DeleteRecord(key: Key)

  /** `metadata` is the layout in the metadata file, which the first checkpoint creates (`saved`); `log` is the log file
      after its version line. */
  datatype Node = Node(
    mem: Mem,
    modified: set<Key>,
    operations: nat,
    version: nat,
    metadata: Layout,
    saved: bool,
    logVersion: nat,
    log: seq<Record>)

  datatype Reply = Success | Found(value: string) | MissingKey | ValueMismatch

  /** `Undefined`: the request took the front of an empty eviction queue. */
  datatype Outcome = Undefined | Done(node: Node, reply: Reply)

  /** `queue` is the order in which `evict_users` would visit the rows of `row_sizes`; what is proved here holds
      for every order. */
  datatype Op =
    | Put(key: Key, value: string, queue: seq<string>)
    | CPut(key: Key, expected: string, value: string, queue: seq<string>)
    | Get(key: Key, queue: seq<string>)
    | Delete(key: Key)

  /** What a request that writes adds to the log. */
  function RecordOf(op: Op): Record
    requires !op.Get?
  {
    match op
    case Put(k, v, _) => PutRecord(k, v)
    case CPut(k, e, v, _) => CPutRecord(k, e, v)
    case Delete(k) => DeleteRecord(k)
  }

  /** A node that has just been set up (kvstore/kv_store.cpp:888-899): it has no metadata file yet. */
  function FreshNode(capacity: nat): Node {
    Node(Mem({}, map[], map[], SizeT(capacity), map[], 0, 0, map[0 := Zeros(BLOCK_SIZE)]),
         {}, 0, 1, Layout(map[], 0, 0), false, 1, [])
  }

  // ---- Handlers -------------------------------------------------------------------------------------

  /** `checkpoint()` */
  ghost function Checkpoint(n: Node): Node {
    var m := Flushed(n.mem, n.modified);
    n.(mem := m, modified := {}, operations := 0, version := n.version + 1,
       metadata := LayoutOf(m), saved := true, logVersion := n.version + 1, log := [])
  }

  /** `try_checkpoint()` after a request. */
  ghost function Counted(n: Node): Node {
    if n.operations == CHECKPOINT_THRESHOLD then Checkpoint(n) else n
  }

  /** `row_sizes[row]` creates the entry of a row it does not have. */
  function Sized(m: Mem, row: string): Mem {
    m.(rowSizes := m.rowSizes[row := RowSize(m, row)])
  }

  /** Memory a write of `size` bytes to `row` asks for: a row that must be loaded first counts too. */
  function Demand(m: Mem, row: string, size: nat): nat {
    if row in m.resident then size else SizeT(RowSize(m, row) + size)
  }

  predicate NeedsRoom(m: Mem, row: string, size: nat) {
    Demand(m, row, size) > m.available
  }

  function Consulted(m: Mem, row: string): Mem {
    if row in m.resident then m else Sized(m, row)
  }

  /** The checkpoint, when `force` is set, and the eviction that precede a write. */
  ghost function Reserve(n: Node, row: string, size: nat, queue: seq<string>, force: bool): Option<Node> {
    var n0 := n.(mem := Consulted(n.mem, row));
    if !NeedsRoom(n.mem, row, size) then Some(n0)
    else
      var n1 := if force then Checkpoint(n0) else n0;
      match Evict(n1.mem, row, Demand(n.mem, row, size), queue)
      case None => None
      case Some(m) => Some(n1.(mem := m))
  }

  /** Log, table, `modified` and counter of a put. */
  ghost function ApplyPut(n: Node, k: Key, value: string): Node {
    n.(log := n.log + [PutRecord(k, value)], mem := PutColumn(n.mem, k, value),
       modified := n.modified + {k}, operations := n.operations + 1)
  }

  ghost function DoPut(n: Node, k: Key, value: string, queue: seq<string>): Outcome {
    match Reserve(n, k.row, |value|, queue, true)
    case None => Undefined
    case Some(n1) => Done(Counted(ApplyPut(n1, k, value)), Success)
  }

  /** The row is loaded and the request logged before the comparison; a `cput` that finds no column is answered
      like one that succeeded. */
  ghost function ApplyCPut(n: Node, k: Key, expected: string, value: string): (CPutResult, Node) {
    var m := GetColumn(n.mem, k).1;
    var (r, m') := CPutColumn(m, k, expected, value);
    var n1 := n.(log := n.log + [CPutRecord(k, expected, value)], mem := m');
    (r, if r.Mismatch? then n1 else n1.(modified := n.modified + {k}, operations := n.operations + 1))
  }

  ghost function DoCPut(n: Node, k: Key, expected: string, value: string, queue: seq<string>): Outcome {
    if k !in n.mem.diskMap then Done(n, MissingKey)
    else
      match Reserve(n, k.row, |value|, queue, true)
      case None => Undefined
      case Some(n1) =>
        var (r, n2) := ApplyCPut(n1, k, expected, value);
        if r.Mismatch? then Done(n2, ValueMismatch) else Done(Counted(n2), Success)
  }

  ghost function DoGet(n: Node, k: Key, queue: seq<string>): Outcome {
    if k !in n.mem.diskMap then Done(n, MissingKey)
    else
      var room :=
        if k.row in n.mem.resident then Some(n)
        else
          var n1 := Checkpoint(n);
          var m := Sized(n1.mem, k.row);
          match Evict(m, k.row, SizeT(RowSize(m, k.row)), queue)
          case None => None
          case Some(m') => Some(n1.(mem := m'));
      match room
      case None => Undefined
      case Some(n2) =>
        var (v, m) := GetColumn(n2.mem, k);
        Done(n2.(mem := m), Found(if v.Some? then v.value else ""))
  }

  /** The result of `memtable.dele` is ignored. */
  function ApplyDelete(n: Node, k: Key): Node {
    n.(log := n.log + [DeleteRecord(k)], mem := DeleteColumn(n.mem, k).1, operations := n.operations + 1)
  }

  ghost function DoDelete(n: Node, k: Key): Outcome {
    if k !in n.mem.diskMap then Done(n, MissingKey)
    else Done(Counted(ApplyDelete(n, k)), Success)
  }

  ghost function Step(n: Node, op: Op): Outcome {
    match op
    case Put(k, v, queue) => DoPut(n, k, v, queue)
    case CPut(k, e, v, queue) => DoCPut(n, k, e, v, queue)
    case Get(k, queue) => DoGet(n, k, queue)
    case Delete(k) => DoDelete(n, k)
  }

  // ---- The plain map --------------------------------------------------------------------------------

  function PlainStep(m: map<Key, string>, op: Op): (map<Key, string>, Reply) {
    match op
    case Put(k, v, _) => (m[k := v], Success)
    case CPut(k, e, v, _) =>
      if k !in m then (m, MissingKey)
      else if m[k] != e then (m, ValueMismatch)
      else (m[k := v], Success)
    case Get(k, _) => (m, if k in m then Found(m[k]) else MissingKey)
    case Delete(k) => (m - {k}, if k in m then Success else MissingKey)
  }

  // ---- Invariant ------------------------------------------------------------------------------------

  ghost predicate NodeValid(n: Node) {
    Valid(n.mem, n.modified)
  }

  /** No column is named by `disk_map` without its resident row having it. */
  ghost predicate Clean(n: Node) {
    NodeValid(n) && Hollow(n.mem) == {}
  }

  /** Deleted columns still in `modified`: the next checkpoint re-creates them. */
  function Limbo(n: Node): set<Key> {
    n.modified - n.mem.diskMap.Keys
  }

  function Empties(ks: set<Key>): map<Key, string> {
    map k | k in ks :: ""
  }

  lemma CheckpointKeeps(n: Node)
    requires NodeValid(n)
    ensures var n' := Checkpoint(n);
            && NodeValid(n') && n'.modified == {} && Limbo(n') == {}
            && View(n'.mem) == View(n.mem) + Empties(Limbo(n))
            && Hollow(n'.mem) == Hollow(n.mem) + Limbo(n)
            && n'.mem.resident == n.mem.resident
            && n'.mem.rowSizes == n.mem.rowSizes && n'.mem.available == n.mem.available
  {
    hide Valid; hide View; hide Hollow; hide Flush;
    FlushedKeeps(n.mem, n.modified);
    assert Empties(Limbo(n)) == map k | k in n.modified && k !in n.mem.diskMap :: "";
  }

  lemma CountedKeeps(n: Node)
    requires NodeValid(n)
    ensures var back := if n.operations == CHECKPOINT_THRESHOLD then Limbo(n) else {};
            && NodeValid(Counted(n)) && View(Counted(n).mem) == View(n.mem) + Empties(back)
            && Hollow(Counted(n).mem) == Hollow(n.mem) + back
  {
    hide Valid; hide View; hide Hollow; hide Checkpoint;
    if n.operations == CHECKPOINT_THRESHOLD {
      CheckpointKeeps(n);
    } else {
      assert View(n.mem) + Empties({}) == View(n.mem);
    }
  }

  /** Making room changes no answer but those a forced checkpoint changes. */
  lemma ReserveKeeps(n: Node, row: string, size: nat, queue: seq<string>)
    requires NodeValid(n) && Reserve(n, row, size, queue, true).Some?
    ensures var n' := Reserve(n, row, size, queue, true).value;
            var forced := NeedsRoom(n.mem, row, size);
            var back := if forced then Limbo(n) else {};
            && NodeValid(n') && View(n'.mem) == View(n.mem) + Empties(back)
            && Hollow(n'.mem) <= Hollow(n.mem) + back
            && n'.mem.diskMap.Keys == n.mem.diskMap.Keys + back
            && n'.operations == (if forced then 0 else n.operations)
            && n'.modified == (if forced then {} else n.modified)
            && n'.log == (if forced then [] else n.log)
  {
    hide Valid; hide View; hide Hollow; hide Checkpoint; hide Evict; hide NeedsRoom; hide Demand;
    var n0 := n.(mem := Consulted(n.mem, row));
    SameTable(n.mem, n0.mem);
    assert View(n.mem) + Empties({}) == View(n.mem);
    if NeedsRoom(n.mem, row, size) {
      CheckpointKeeps(n0);
      var n1 := Checkpoint(n0);
      CheckpointFields(n0);
      EvictKeeps(n1.mem, row, Demand(n.mem, row, size), queue);
    }
  }

  lemma CheckpointFields(n: Node)
    ensures var n' := Checkpoint(n);
            n'.operations == 0 && n'.modified == {} && n'.log == [] && n'.version == n'.logVersion == n.version + 1
            && n'.mem.diskMap.Keys == n.mem.diskMap.Keys + Limbo(n) && n'.metadata == LayoutOf(n'.mem)
            && n'.mem.blockId == n.mem.blockId && n'.mem.blockOffset == n.mem.blockOffset
  {
  }
}
