/** What a storage node keeps on its disk between requests: the metadata file, the extents it names and the log
    together determine the node's plain map, in every reachable state. */
module Durability {
  import opened Extents
  import opened Memtable
  import opened Checkpointing
  import opened StorageNode
  import opened NodeRuns
  import opened NodeLayout
  import opened LogReplay

  /** The map that the metadata file names, read from the block files. */
  function OnDisk(l: Layout, b: Blocks): Table {
    Contents(map[], l.diskMap, b)
  }

  ghost predicate MetadataOk(l: Layout, blockId: nat, blockOffset: nat) {
    && ExtentsOk(l.diskMap, l.blockId, l.blockOffset) && ExtentsApart(l.diskMap)
    && PosLe(l.blockId, l.blockOffset, blockId, blockOffset)
  }

  /** The block files already hold what the column holds. */
  ghost predicate Settled(m: Mem, k: Key)
    requires k in m.diskMap
  {
    ReadExtent(m.blocks, m.diskMap[k]) == View(m)[k]
  }

  /** What a checkpoint has to write lies beyond everything the metadata file knows of. */
  ghost predicate Shadowed(m: Mem, modified: set<Key>, l: Layout) {
    forall k :: k in modified && k in m.diskMap ==>
      ExtentNotBefore(m.diskMap[k], l.blockId, l.blockOffset) || Settled(m, k)
  }

  /** No block write, now or at the next checkpoint, touches an extent that the metadata file names. */
  ghost predicate Shadowing(n: Node) {
    MetadataOk(n.metadata, n.mem.blockId, n.mem.blockOffset) && Shadowed(n.mem, n.modified, n.metadata)
  }

  ghost predicate LogExplains(base: Table, log: seq<Record>, m: Table) {
    History(base, log) == m && KeysPresent(base, log)
  }

  ghost predicate Durable(n: Node) {
    && Shadowing(n)
    && LogExplains(OnDisk(n.metadata, n.mem.blocks), n.log, View(n.mem))
    && PutKeys(n.log) <= n.modified
  }

  // ---- Steps ----------------------------------------------------------------------------------------

  lemma CleanIsOnDisk(m: Mem)
    requires Valid(m, {})
    ensures OnDisk(LayoutOf(m), m.blocks) == View(m)
  {
    hide DiskOk;
  }

  lemma ValidIsMetadataOk(m: Mem, dirty: set<Key>)
    requires Valid(m, dirty)
    ensures MetadataOk(LayoutOf(m), m.blockId, m.blockOffset)
  {
  }

  lemma CheckpointDurable(n: Node)
    requires NodeValid(n)
    ensures Durable(Checkpoint(n))
  {
    hide Valid; hide View; hide Hollow; hide Flush; hide MetadataOk; hide Contents;
    CheckpointKeeps(n);
    CleanIsOnDisk(Checkpoint(n).mem);
    ValidIsMetadataOk(Checkpoint(n).mem, {});
  }

  /** Loading and evicting rows touches nothing that is on disk. */
  lemma SameDiskDurable(n: Node, n': Node)
    requires Durable(n)
    requires n'.mem.blocks == n.mem.blocks && LayoutOf(n'.mem) == LayoutOf(n.mem) && View(n'.mem) == View(n.mem)
    requires n'.log == n.log && n'.metadata == n.metadata && n'.modified == n.modified
    ensures Durable(n')
  {
    hide View; hide MetadataOk; hide LogExplains; hide Contents;
  }

  lemma AgreeMonotone(b: Blocks, b': Blocks, id: nat, offset: nat, id': nat, offset': nat)
    requires AgreeBefore(b, b', id', offset') && PosLe(id, offset, id', offset')
    ensures AgreeBefore(b, b', id, offset)
  {
  }

  /** Disks that agree up to the metadata file's own pointer hold the same map for it. */
  lemma AgreeOnDisk(l: Layout, b: Blocks, b': Blocks)
    requires ExtentsOk(l.diskMap, l.blockId, l.blockOffset) && AgreeBefore(b, b', l.blockId, l.blockOffset)
    ensures OnDisk(l, b') == OnDisk(l, b)
  {
    forall k | k in l.diskMap ensures ReadExtent(b', l.diskMap[k]) == ReadExtent(b, l.diskMap[k]) {
      assert ExtentOk(l.diskMap[k], l.blockId, l.blockOffset);
      AgreeReadsSame(b, b', l.blockId, l.blockOffset, l.diskMap[k]);
    }
  }

  /** A write to column `k` that touches the block files beyond the bump pointer only. */
  ghost predicate WritesBeyond(n: Node, n': Node, k: Key) {
    && n'.metadata == n.metadata
    && Appended(n.mem, n'.mem)
    && n.modified <= n'.modified <= n.modified + {k}
    && (forall k' :: k' in n'.mem.diskMap && k' != k ==>
          k' in n.mem.diskMap && n'.mem.diskMap[k'] == n.mem.diskMap[k'] && View(n'.mem)[k'] == View(n.mem)[k'])
    && (k in n'.modified && k in n'.mem.diskMap ==>
          ExtentNotBefore(n'.mem.diskMap[k], n.mem.blockId, n.mem.blockOffset)
          || (k in n.modified && k in n.mem.diskMap && n'.mem.diskMap[k] == n.mem.diskMap[k]
              && View(n'.mem)[k] == View(n.mem)[k]))
  }

  /** Such a write that was logged as `r`. */
  ghost predicate Extended(n: Node, n': Node, r: Record) {
    && WritesBeyond(n, n', r.key)
    && n'.log == n.log + [r]
    && View(n'.mem) == Apply(View(n.mem), r) && (!r.PutRecord? ==> r.key in View(n.mem))
    && (r.PutRecord? ==> r.key in n'.modified)
  }

  lemma NotBeforeMonotone(e: seq<BlockPtr>, id: nat, offset: nat, id': nat, offset': nat)
    requires ExtentNotBefore(e, id', offset') && PosLe(id, offset, id', offset')
    ensures ExtentNotBefore(e, id, offset)
  {
  }

  /** Shadow writes: what a checkpoint will have to write still lies beyond what the metadata file knows of. */
  lemma WritesBeyondShadowed(n: Node, n': Node, k: Key)
    requires NodeValid(n) && Shadowing(n) && WritesBeyond(n, n', k)
    ensures Shadowing(n')
  {
    hide Valid; hide View; hide Contents; hide ExtentNotBefore; hide AgreeBefore; hide ExtentsOk; hide ExtentsApart;
    var l := n.metadata;
    ViewKeys(n.mem);
    ViewKeys(n'.mem);
    forall k' | k' in n'.modified && k' in n'.mem.diskMap
      ensures ExtentNotBefore(n'.mem.diskMap[k'], l.blockId, l.blockOffset) || Settled(n'.mem, k')
    {
      if k' == k && ExtentNotBefore(n'.mem.diskMap[k'], n.mem.blockId, n.mem.blockOffset) {
        NotBeforeMonotone(n'.mem.diskMap[k'], l.blockId, l.blockOffset, n.mem.blockId, n.mem.blockOffset);
      } else {
        ReadsKept(n, n', k');
        assert ExtentNotBefore(n.mem.diskMap[k'], l.blockId, l.blockOffset) || Settled(n.mem, k');
      }
    }
  }

  lemma ReadsKept(n: Node, n': Node, k: Key)
    requires NodeValid(n) && Appended(n.mem, n'.mem) && k in n.mem.diskMap
    ensures ReadExtent(n'.mem.blocks, n.mem.diskMap[k]) == ReadExtent(n.mem.blocks, n.mem.diskMap[k])
  {
    assert ExtentOk(n.mem.diskMap[k], n.mem.blockId, n.mem.blockOffset);
    AgreeReadsSame(n.mem.blocks, n'.mem.blocks, n.mem.blockId, n.mem.blockOffset, n.mem.diskMap[k]);
  }

  lemma ExtendedDurable(n: Node, n': Node, r: Record)
    requires NodeValid(n) && Durable(n) && Extended(n, n', r)
    ensures Durable(n')
  {
    hide Valid; hide View; hide Contents; hide ExtentNotBefore; hide AgreeBefore; hide Apply; hide Shadowed;
    hide ExtentsOk; hide ExtentsApart; hide OnDisk; hide WritesBeyond; hide Shadowing;
    WritesBeyondShadowed(n, n', r.key);
    WritesBeyondTells(n, n', r.key);
    var l := n.metadata;
    AgreeMonotone(n.mem.blocks, n'.mem.blocks, l.blockId, l.blockOffset, n.mem.blockId, n.mem.blockOffset);
    AgreeOnDisk(l, n.mem.blocks, n'.mem.blocks);
    HistoryAppend(OnDisk(l, n.mem.blocks), n.log, r);
    PutKeysAppend(n.log, r);
  }

  lemma WritesBeyondTells(n: Node, n': Node, k: Key)
    requires WritesBeyond(n, n', k) && Shadowing(n)
    ensures n'.metadata == n.metadata && n.modified <= n'.modified
    ensures AgreeBefore(n.mem.blocks, n'.mem.blocks, n.mem.blockId, n.mem.blockOffset)
    ensures ExtentsOk(n.metadata.diskMap, n.metadata.blockId, n.metadata.blockOffset)
    ensures PosLe(n.metadata.blockId, n.metadata.blockOffset, n.mem.blockId, n.mem.blockOffset)
  {
    hide View; hide AgreeBefore;
  }

  lemma CountedDurable(n: Node)
    requires NodeValid(n) && Durable(n)
    ensures Durable(Counted(n))
  {
    hide NodeValid; hide Durable; hide Checkpoint;
    if n.operations == CHECKPOINT_THRESHOLD {
      CheckpointDurable(n);
    }
  }

  lemma ReserveDurable(n: Node, row: string, size: nat, queue: seq<string>)
    requires NodeValid(n) && Durable(n) && Reserve(n, row, size, queue, true).Some?
    ensures Durable(Reserve(n, row, size, queue, true).value)
  {
    hide Valid; hide View; hide Hollow; hide Checkpoint; hide Evict; hide NeedsRoom; hide Demand; hide Durable;
    var n0 := n.(mem := Consulted(n.mem, row));
    SameTable(n.mem, n0.mem);
    SameDiskDurable(n, n0);
    if NeedsRoom(n.mem, row, size) {
      CheckpointKeeps(n0);
      CheckpointDurable(n0);
      var n1 := Checkpoint(n0);
      EvictKeeps(n1.mem, row, Demand(n.mem, row, size), queue);
      SameDiskDurable(n1, Reserve(n, row, size, queue, true).value);
    }
  }

  lemma ApplyPutDurable(n: Node, k: Key, value: string)
    requires NodeValid(n) && Durable(n)
    ensures Durable(ApplyPut(n, k, value))
  {
    hide Valid; hide View; hide Hollow; hide Appended; hide ExtentNotBefore; hide PutColumn; hide Durable;
    PutColumnKeeps(n.mem, k, value, n.modified);
    ExtendedDurable(n, ApplyPut(n, k, value), PutRecord(k, value));
  }

  /** A request on a hollow column that is logged as one thing and does another: the log says that the value was swapped
      or the column deleted, and neither was. */
  predicate Strays(n: Node, k: Key, r: Record) {
    k in Hollow(n.mem) && (r.DeleteRecord? || (r.CPutRecord? && r.expected == "" && r.value != ""))
  }

  lemma StrayChanges(n: Node, r: Record)
    requires NodeValid(n) && Strays(n, r.key, r)
    ensures Apply(View(n.mem), r) != View(n.mem)
  {
    hide Valid;
    HollowIsEmpty(n.mem, r.key, n.modified);
    assert r.key in View(n.mem) && View(n.mem)[r.key] == "";
  }

  /** The log then no longer explains the map. */
  lemma StrayedLog(n: Node, n': Node, r: Record)
    requires NodeValid(n) && Durable(n) && Strays(n, r.key, r)
    requires n'.metadata == n.metadata && n'.log == n.log + [r] && View(n'.mem) == View(n.mem)
    requires AgreeBefore(n.mem.blocks, n'.mem.blocks, n.mem.blockId, n.mem.blockOffset)
    ensures !Durable(n')
  {
    hide Valid; hide View; hide Contents; hide AgreeBefore; hide Apply; hide Shadowed; hide Strays;
    hide ExtentsOk; hide ExtentsApart; hide OnDisk;
    var l := n.metadata;
    AgreeMonotone(n.mem.blocks, n'.mem.blocks, l.blockId, l.blockOffset, n.mem.blockId, n.mem.blockOffset);
    AgreeOnDisk(l, n.mem.blocks, n'.mem.blocks);
    HistoryAppend(OnDisk(l, n.mem.blocks), n.log, r);
    StrayChanges(n, r);
  }

  lemma ApplyCPutDurableIff(n: Node, k: Key, expected: string, value: string)
    requires NodeValid(n) && Durable(n) && k in n.mem.diskMap
    ensures Durable(ApplyCPut(n, k, expected, value).1) <==> !Strays(n, k, CPutRecord(k, expected, value))
  {
    hide Valid; hide View; hide Hollow; hide AgreeBefore; hide ExtentNotBefore; hide CPutColumn; hide GetColumn;
    hide Durable;
    var m := GetColumn(n.mem, k).1;
    var n' := ApplyCPut(n, k, expected, value).1;
    GetColumnKeeps(n.mem, k, n.modified);
    CPutColumnKeeps(m, k, expected, value, n.modified);
    ViewKeys(n.mem);
    if Strays(n, k, CPutRecord(k, expected, value)) {
      StrayedLog(n, n', CPutRecord(k, expected, value));
    } else {
      if k in Hollow(n.mem) { HollowBlank(n, k); }
      ExtendedDurable(n, n', CPutRecord(k, expected, value));
    }
  }

  lemma HollowBlank(n: Node, k: Key)
    requires NodeValid(n) && k in Hollow(n.mem)
    ensures k in View(n.mem) && View(n.mem)[k] == "" && View(n.mem)[k := ""] == View(n.mem)
    ensures forall id, offset :: ExtentNotBefore(n.mem.diskMap[k], id, offset)
  {
    hide Valid;
    HollowIsEmpty(n.mem, k, n.modified);
  }

  lemma SelfAgrees(b: Blocks, id: nat, offset: nat)
    ensures AgreeBefore(b, b, id, offset)
  {
  }

  lemma ApplyDeleteDurableIff(n: Node, k: Key)
    requires NodeValid(n) && Durable(n) && k in n.mem.diskMap
    ensures Durable(ApplyDelete(n, k)) <==> !Strays(n, k, DeleteRecord(k))
  {
    hide Valid; hide View; hide Hollow; hide AgreeBefore; hide ExtentNotBefore; hide DeleteColumn; hide Durable;
    DeleteColumnKeeps(n.mem, k, n.modified);
    ViewKeys(n.mem);
    SelfAgrees(n.mem.blocks, n.mem.blockId, n.mem.blockOffset);
    if Strays(n, k, DeleteRecord(k)) {
      StrayedLog(n, ApplyDelete(n, k), DeleteRecord(k));
    } else {
      ExtendedDurable(n, ApplyDelete(n, k), DeleteRecord(k));
    }
  }

  lemma CountedDurableIff(n: Node)
    requires NodeValid(n)
    ensures Durable(Counted(n)) <==> Durable(n) || n.operations == CHECKPOINT_THRESHOLD
  {
    hide NodeValid; hide Durable; hide Checkpoint;
    if n.operations == CHECKPOINT_THRESHOLD {
      CheckpointDurable(n);
    }
  }

  lemma PutDurable(n: Node, op: Op)
    requires NodeValid(n) && Durable(n) && op.Put? && Step(n, op).Done?
    ensures Durable(Step(n, op).node)
  {
    hide Valid; hide View; hide Hollow; hide Reserve; hide Counted; hide ApplyPut; hide Durable;
    var n1 := Reserve(n, op.key.row, |op.value|, op.queue, true).value;
    ReserveKeeps(n, op.key.row, |op.value|, op.queue);
    ReserveDurable(n, op.key.row, |op.value|, op.queue);
    ApplyPutKeeps(n1, op.key, op.value);
    ApplyPutDurable(n1, op.key, op.value);
    CountedDurable(ApplyPut(n1, op.key, op.value));
  }

  lemma ApplyCPutCounts(n: Node, k: Key, expected: string, value: string)
    requires NodeValid(n) && k in n.mem.diskMap
    ensures var (r, n') := ApplyCPut(n, k, expected, value);
            && (r.Mismatch? <==> k !in Hollow(n.mem) && View(n.mem)[k] != expected)
            && n'.operations == n.operations + if r.Mismatch? then 0 else 1
  {
    hide Valid; hide View; hide Hollow; hide Appended; hide ExtentNotBefore; hide CPutColumn; hide GetColumn;
    var m := GetColumn(n.mem, k).1;
    GetColumnKeeps(n.mem, k, n.modified);
    CPutColumnKeeps(m, k, expected, value, n.modified);
    ViewKeys(n.mem);
  }

  lemma CPutDurableIff(n: Node, op: Op)
    requires NodeValid(n) && Durable(n) && op.CPut? && Step(n, op).Done?
    ensures Durable(Step(n, op).node)
            <==> !Strays(n, op.key, CPutRecord(op.key, op.expected, op.value)) || Counts(n, op)
  {
    hide NodeValid; hide View; hide Hollow; hide Reserve; hide Counted; hide ApplyCPut; hide Durable; hide Empties;
    hide NeedsRoom;
    var k, e, v := op.key, op.expected, op.value;
    HollowNamed(n.mem, k);
    if k in n.mem.diskMap {
      var n1 := Reserve(n, k.row, |v|, op.queue, true).value;
      ReserveKeeps(n, k.row, |v|, op.queue);
      ReserveDurable(n, k.row, |v|, op.queue);
      ReserveSpares(n, k, |v|, op.queue);
      ApplyCPutCounts(n1, k, e, v);
      ApplyCPutDurableIff(n1, k, e, v);
      var n2 := ApplyCPut(n1, k, e, v).1;
      ApplyCPutValid(n1, k, e, v);
      CountedDurableIff(n2);
      if k in Hollow(n.mem) { HollowBlank(n, k); }
    }
  }

  lemma HollowNamed(m: Mem, k: Key)
    ensures k in Hollow(m) ==> k in m.diskMap
  {
  }

  lemma GetDurable(n: Node, op: Op)
    requires NodeValid(n) && Durable(n) && op.Get? && Step(n, op).Done?
    ensures Durable(Step(n, op).node)
  {
    hide Valid; hide View; hide Hollow; hide Checkpoint; hide Evict; hide GetColumn; hide Durable;
    var k := op.key;
    if k in n.mem.diskMap {
      if k.row in n.mem.resident {
        GetColumnKeeps(n.mem, k, n.modified);
        SameDiskDurable(n, Step(n, op).node);
      } else {
        CheckpointKeeps(n);
        CheckpointDurable(n);
        var n1 := Checkpoint(n);
        var m := Sized(n1.mem, k.row);
        SameTable(n1.mem, m);
        EvictKeeps(m, k.row, SizeT(RowSize(m, k.row)), op.queue);
        var n2 := n1.(mem := Evict(m, k.row, SizeT(RowSize(m, k.row)), op.queue).value);
        GetColumnKeeps(n2.mem, k, n2.modified);
        SameDiskDurable(n1, Step(n, op).node);
      }
    }
  }

  lemma DeleteDurableIff(n: Node, op: Op)
    requires NodeValid(n) && Durable(n) && op.Delete?
    ensures Durable(Step(n, op).node) <==> !Strays(n, op.key, DeleteRecord(op.key)) || Counts(n, op)
  {
    hide NodeValid; hide View; hide Hollow; hide Counted; hide DeleteColumn; hide Durable;
    HollowNamed(n.mem, op.key);
    if op.key in n.mem.diskMap {
      ApplyDeleteDurableIff(n, op.key);
      ApplyDeleteValid(n, op.key);
      CountedDurableIff(ApplyDelete(n, op.key));
    }
  }

  /** The request does not do what its record says, and no checkpoint follows it. */
  predicate LeavesLogAstray(n: Node, op: Op) {
    !Counts(n, op)
    && match op
       case CPut(k, e, v, _) => Strays(n, k, CPutRecord(k, e, v))
       case Delete(k) => Strays(n, k, DeleteRecord(k))
       case _ => false
  }

  /** Every request keeps the metadata file, its extents and the log sufficient to rebuild the plain map, except one that
      deletes a hollow column or swaps a value into it without a checkpoint following. */
  lemma StepDurableIff(n: Node, op: Op)
    requires NodeValid(n) && Durable(n) && Step(n, op).Done?
    ensures Durable(Step(n, op).node) <==> !LeavesLogAstray(n, op)
  {
    hide NodeValid; hide Durable; hide Step; hide Strays; hide Counts;
    match op
    case Put(_, _, _) => PutDurable(n, op);
    case CPut(_, _, _, _) => CPutDurableIff(n, op);
    case Get(_, _) => GetDurable(n, op);
    case Delete(_) => DeleteDurableIff(n, op);
  }

  /** A clean node has no such column. */
  lemma StepDurable(n: Node, op: Op)
    requires Clean(n) && Durable(n) && Step(n, op).Done?
    ensures Durable(Step(n, op).node)
  {
    hide Durable; hide Step; hide NodeValid; hide Hollow; hide Counts;
    StepDurableIff(n, op);
  }

  /** After every request of the run the files determine the plain map. */
  ghost predicate DurableThroughout(n: Node, ops: seq<Op>)
    requires Run(n, ops).Some?
    decreases |ops|
  {
    Durable(n) && (ops == [] || DurableThroughout(Step(n, ops[0]).node, ops[1..]))
  }

  ghost predicate NeverAstray(n: Node, ops: seq<Op>)
    requires Run(n, ops).Some?
    decreases |ops|
  {
    ops == [] || (!LeavesLogAstray(n, ops[0]) && NeverAstray(Step(n, ops[0]).node, ops[1..]))
  }

  /** Over every run from a durable state, whatever its checkpoints bring back: the files determine the plain map all along
      exactly when no request leaves the log astray, which none does when nothing is brought back. */
  lemma {:induction false} RunDurableIff(n: Node, ops: seq<Op>)
    requires NodeValid(n) && Durable(n) && Run(n, ops).Some?
    ensures DurableThroughout(n, ops) <==> NeverAstray(n, ops)
    ensures Clean(n) && NothingResurrected(n, ops) ==> NeverAstray(n, ops)
    decreases |ops|
  {
    hide NodeValid; hide Durable; hide Step; hide Resurrected; hide View; hide LeavesLogAstray; hide Hollow;
    if ops == [] {
    } else {
      var n1 := Step(n, ops[0]).node;
      StepValid(n, ops[0]);
      StepDurableIff(n, ops[0]);
      if Clean(n) {
        StepRefinesIff(n, ops[0]);
        StepDurable(n, ops[0]);
      }
      if Durable(n1) {
        RunDurableIff(n1, ops[1..]);
      }
    }
  }

  // ---- Shadow writes, whatever is brought back ------------------------------------------------------

  lemma CheckpointShadows(n: Node)
    requires NodeValid(n)
    ensures NodeValid(Checkpoint(n)) && Shadowing(Checkpoint(n))
  {
    hide Valid; hide View; hide Hollow; hide Flush; hide MetadataOk; hide Contents;
    CheckpointKeeps(n);
    ValidIsMetadataOk(Checkpoint(n).mem, {});
  }

  lemma SameDiskShadows(n: Node, n': Node)
    requires Shadowing(n)
    requires n'.mem.blocks == n.mem.blocks && LayoutOf(n'.mem) == LayoutOf(n.mem) && View(n'.mem) == View(n.mem)
    requires n'.metadata == n.metadata && n'.modified == n.modified
    ensures Shadowing(n')
  {
    hide View; hide MetadataOk; hide Contents;
  }

  lemma CountedShadows(n: Node)
    requires NodeValid(n) && Shadowing(n)
    ensures Shadowing(Counted(n))
  {
    hide NodeValid; hide Shadowing; hide Checkpoint;
    if n.operations == CHECKPOINT_THRESHOLD { CheckpointShadows(n); }
  }

  lemma ReserveShadows(n: Node, row: string, size: nat, queue: seq<string>)
    requires NodeValid(n) && Shadowing(n) && Reserve(n, row, size, queue, true).Some?
    ensures Shadowing(Reserve(n, row, size, queue, true).value)
  {
    hide Valid; hide View; hide Hollow; hide Checkpoint; hide Evict; hide NeedsRoom; hide Demand; hide Shadowing;
    var n0 := n.(mem := Consulted(n.mem, row));
    SameTable(n.mem, n0.mem);
    SameDiskShadows(n, n0);
    if NeedsRoom(n.mem, row, size) {
      CheckpointKeeps(n0);
      CheckpointShadows(n0);
      var n1 := Checkpoint(n0);
      EvictKeeps(n1.mem, row, Demand(n.mem, row, size), queue);
      SameDiskShadows(n1, Reserve(n, row, size, queue, true).value);
    }
  }

  lemma ApplyPutShadows(n: Node, k: Key, value: string)
    requires NodeValid(n) && Shadowing(n)
    ensures Shadowing(ApplyPut(n, k, value))
  {
    hide Valid; hide View; hide Hollow; hide Appended; hide ExtentNotBefore; hide PutColumn; hide Shadowing;
    PutColumnKeeps(n.mem, k, value, n.modified);
    WritesBeyondShadowed(n, ApplyPut(n, k, value), k);
  }

  /** A conditional put on a hollow column marks it modified and writes nothing. */
  lemma ApplyCPutShadows(n: Node, k: Key, expected: string, value: string)
    requires NodeValid(n) && Shadowing(n) && k in n.mem.diskMap
    ensures Shadowing(ApplyCPut(n, k, expected, value).1)
  {
    hide Valid; hide View; hide Hollow; hide AgreeBefore; hide CPutColumn; hide GetColumn; hide Shadowing;
    var m := GetColumn(n.mem, k).1;
    var (r, n') := ApplyCPut(n, k, expected, value);
    GetColumnKeeps(n.mem, k, n.modified);
    CPutColumnKeeps(m, k, expected, value, n.modified);
    if k in Hollow(n.mem) { HollowIsEmpty(n.mem, k, n.modified); }
    ViewKeys(n.mem);
    WritesBeyondShadowed(n, n', k);
  }

  lemma HollowIsEmpty(m: Mem, k: Key, dirty: set<Key>)
    requires Valid(m, dirty) && k in Hollow(m)
    ensures k in m.diskMap && m.diskMap[k] == []
  {
  }

  lemma ApplyDeleteShadows(n: Node, k: Key)
    requires NodeValid(n) && Shadowing(n)
    ensures Shadowing(ApplyDelete(n, k))
  {
    hide Valid; hide View; hide Hollow; hide AgreeBefore; hide ExtentNotBefore; hide DeleteColumn; hide Shadowing;
    var n' := ApplyDelete(n, k);
    DeleteColumnKeeps(n.mem, k, n.modified);
    ViewKeys(n.mem);
    SelfAgrees(n.mem.blocks, n.mem.blockId, n.mem.blockOffset);
    if DeleteColumn(n.mem, k).0 {
      WritesBeyondShadowed(n, n', k);
    } else {
      SameDiskShadows(n, n');
    }
  }

  lemma GetShadows(n: Node, op: Op)
    requires NodeValid(n) && Shadowing(n) && op.Get? && Step(n, op).Done?
    ensures Shadowing(Step(n, op).node)
  {
    hide Valid; hide View; hide Hollow; hide Checkpoint; hide Evict; hide GetColumn; hide Shadowing;
    var k := op.key;
    if k in n.mem.diskMap {
      if k.row in n.mem.resident {
        GetColumnKeeps(n.mem, k, n.modified);
        SameDiskShadows(n, Step(n, op).node);
      } else {
        CheckpointKeeps(n);
        CheckpointShadows(n);
        var n1 := Checkpoint(n);
        var m := Sized(n1.mem, k.row);
        SameTable(n1.mem, m);
        EvictKeeps(m, k.row, SizeT(RowSize(m, k.row)), op.queue);
        var n2 := n1.(mem := Evict(m, k.row, SizeT(RowSize(m, k.row)), op.queue).value);
        GetColumnKeeps(n2.mem, k, n2.modified);
        SameDiskShadows(n1, Step(n, op).node);
      }
    }
  }

  /** Every request, on every valid state, keeps the block writes of the next checkpoint and the re-creation of block
      files away from the extents that the metadata file names. */
  lemma StepShadows(n: Node, op: Op)
    requires NodeValid(n) && Shadowing(n) && Step(n, op).Done?
    ensures Shadowing(Step(n, op).node)
  {
    hide NodeValid; hide Shadowing; hide Reserve; hide ApplyPut; hide ApplyCPut; hide ApplyDelete; hide Counted;
    match op
    case Put(k, v, queue) =>
      var n1 := Reserve(n, k.row, |v|, queue, true).value;
      ReserveValid(n, k.row, |v|, queue);
      ReserveShadows(n, k.row, |v|, queue);
      ApplyPutValid(n1, k, v);
      ApplyPutShadows(n1, k, v);
      CountedShadows(ApplyPut(n1, k, v));
    case CPut(k, e, v, queue) =>
      if k in n.mem.diskMap {
        var n1 := Reserve(n, k.row, |v|, queue, true).value;
        ReserveValid(n, k.row, |v|, queue);
        ReserveShadows(n, k.row, |v|, queue);
        ReserveNames(n, k, |v|, queue);
        ApplyCPutValid(n1, k, e, v);
        ApplyCPutShadows(n1, k, e, v);
        CountedShadows(ApplyCPut(n1, k, e, v).1);
      }
    case Get(_, _) => GetShadows(n, op);
    case Delete(k) =>
      if k in n.mem.diskMap {
        ApplyDeleteValid(n, k);
        ApplyDeleteShadows(n, k);
        CountedShadows(ApplyDelete(n, k));
      }
  }

  lemma ReserveNames(n: Node, k: Key, size: nat, queue: seq<string>)
    requires NodeValid(n) && Reserve(n, k.row, size, queue, true).Some? && k in n.mem.diskMap
    ensures k in Reserve(n, k.row, size, queue, true).value.mem.diskMap
  {
    hide NodeValid; hide Reserve; hide View; hide Hollow;
    ReserveKeeps(n, k.row, size, queue);
  }

  /** Over every run, whatever its checkpoints bring back. */
  lemma {:induction false} RunShadows(n: Node, ops: seq<Op>)
    requires NodeValid(n) && Shadowing(n) && Run(n, ops).Some?
    ensures Shadowing(Run(n, ops).value.0) && NodeValid(Run(n, ops).value.0)
    decreases |ops|
  {
    hide NodeValid; hide Step; hide Shadowing;
    if ops == [] {
    } else {
      StepValid(n, ops[0]);
      StepShadows(n, ops[0]);
      RunShadows(Step(n, ops[0]).node, ops[1..]);
    }
  }
}
