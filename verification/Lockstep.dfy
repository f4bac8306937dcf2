/** The nodes of a group side by side (kvstore/kv_store.cpp:357-452, 481-625, 709-719), one client request at a time:
    when primary and secondaries stay in step, checkpoint for checkpoint, although each has its own cache. */
module Lockstep {
  import opened Extents
  import opened Memtable
  import opened Options
  import opened StorageNode
  import opened NodeRuns
  import opened NodeLayout
  import opened LogReplay
  import opened Durability
  import opened BlankDisk

  /** What the nodes of a group have in common: everything but their caches, counters of memory, logs of mismatched
      requests, and the bytes of their disks outside what the metadata file names. */
  datatype Common = Common(
    version: nat,
    operations: nat,
    modified: set<Key>,
    layout: Layout,
    view: Table,
    metadata: Layout,
    onDisk: Table)

  function CommonOf(n: Node): Common {
    Common(n.version, n.operations, n.modified, LayoutOf(n.mem), View(n.mem), n.metadata,
           OnDisk(n.metadata, n.mem.blocks))
  }

  // ---- What each part of a handler does to it -------------------------------------------------------

  function Deleted(c: Common): set<Key> {
    c.modified - c.layout.diskMap.Keys
  }

  function AfterCheckpoint(c: Common): Common {
    var l := WithEmpties(c.layout, Deleted(c));
    var v := c.view + Empties(Deleted(c));
    Common(c.version + 1, 0, {}, l, v, l, v)
  }

  function AfterCounted(c: Common): Common {
    if c.operations == CHECKPOINT_THRESHOLD then AfterCheckpoint(c) else c
  }

  function AfterPut(c: Common, k: Key, value: string): Common {
    c.(operations := c.operations + 1, modified := c.modified + {k},
       layout := Rewritten(c.layout, k, |value|), view := c.view[k := value])
  }

  /** A conditional put that counts, whether or not it swaps the value. */
  function AfterCPut(c: Common, k: Key, value: string, swaps: bool): Common {
    if swaps then AfterPut(c, k, value) else c.(operations := c.operations + 1, modified := c.modified + {k})
  }

  /** A delete, which removes nothing where the column is hollow. */
  function AfterDelete(c: Common, k: Key, hollow: bool): Common {
    if hollow then c.(operations := c.operations + 1)
    else c.(operations := c.operations + 1, layout := c.layout.(diskMap := c.layout.diskMap - {k}), view := c.view - {k})
  }

  lemma CheckpointCommon(n: Node)
    requires NodeValid(n)
    ensures CommonOf(Checkpoint(n)) == AfterCheckpoint(CommonOf(n))
  {
    hide Valid; hide View; hide Hollow; hide Checkpoint; hide OnDisk; hide WithEmpties; hide Empties;
    CheckpointKeeps(n);
    CheckpointLayout(n);
    CheckpointVersion(n);
    CleanIsOnDisk(Checkpoint(n).mem);
  }

  lemma CheckpointVersion(n: Node)
    ensures var n' := Checkpoint(n);
            n'.version == n.version + 1 && n'.operations == 0 && n'.modified == {} && n'.metadata == LayoutOf(n'.mem)
  {
  }

  lemma CountedCommon(n: Node)
    requires NodeValid(n)
    ensures CommonOf(Counted(n)) == AfterCounted(CommonOf(n))
  {
    hide NodeValid; hide CommonOf; hide AfterCheckpoint; hide Checkpoint;
    assert CommonOf(n).operations == n.operations by { CommonCounts(n); }
    if n.operations == CHECKPOINT_THRESHOLD {
      CheckpointCommon(n);
    }
  }

  lemma CommonCounts(n: Node)
    ensures CommonOf(n).operations == n.operations && CommonOf(n).version == n.version
            && CommonOf(n).modified == n.modified && CommonOf(n).view == View(n.mem)
  {
  }

  /** What the comparison of nodes needs of each: a valid table, block writes that stay off what the metadata file names,
      and nothing written beyond the bump pointer. Every request keeps all three (`NodeRuns.StepValid`,
      `Durability.StepShadows`, `BlankDisk.StepBlank`). */
  ghost predicate Steady(n: Node) {
    NodeValid(n) && Shadowing(n) && BlankBeyond(n.mem)
  }

  lemma AppendedOnDisk(n: Node, m: Mem)
    requires Steady(n) && Appended(n.mem, m)
    ensures OnDisk(n.metadata, m.blocks) == OnDisk(n.metadata, n.mem.blocks)
  {
    hide AgreeBefore; hide OnDisk; hide ExtentsApart; hide Shadowed; hide ExtentsOk; hide NodeValid; hide BlankBeyond;
    var l := n.metadata;
    AgreeMonotone(n.mem.blocks, m.blocks, l.blockId, l.blockOffset, n.mem.blockId, n.mem.blockOffset);
    AgreeOnDisk(l, n.mem.blocks, m.blocks);
  }

  lemma ApplyPutCommon(n: Node, k: Key, value: string)
    requires Steady(n)
    ensures Steady(ApplyPut(n, k, value)) && CommonOf(ApplyPut(n, k, value)) == AfterPut(CommonOf(n), k, value)
  {
    hide Valid; hide View; hide Hollow; hide Appended; hide ExtentNotBefore; hide PutColumn; hide OnDisk; hide Shadowing;
    hide Rewritten; hide BlankBeyond;
    PutColumnKeeps(n.mem, k, value, n.modified);
    AppendedOnDisk(n, PutColumn(n.mem, k, value));
    ApplyPutShadows(n, k, value);
    PutBlank(n.mem, k, value);
  }

  lemma ApplyDeleteCommon(n: Node, k: Key)
    requires Steady(n) && k in n.mem.diskMap
    ensures Steady(ApplyDelete(n, k))
    ensures CommonOf(ApplyDelete(n, k)) == AfterDelete(CommonOf(n), k, k in Hollow(n.mem))
  {
    hide Valid; hide View; hide Hollow; hide DeleteColumn; hide OnDisk; hide Shadowing; hide BlankBeyond;
    DeleteColumnKeeps(n.mem, k, n.modified);
    ApplyDeleteShadows(n, k);
    DeleteBlank(n.mem, k);
  }

  /** Whether a conditional put finds the value it expects: a column that the resident row lacks counts as missing. */
  predicate Swaps(m: Mem, k: Key, expected: string)
    requires k in m.diskMap
  {
    k !in Hollow(m) && View(m)[k] == expected
  }

  /** The primary's conditional put. */
  lemma ApplyCPutCommon(n: Node, k: Key, expected: string, value: string)
    requires Steady(n) && k in n.mem.diskMap
    ensures var (r, n') := ApplyCPut(n, k, expected, value);
            && Steady(n') && (r.Mismatch? <==> k !in Hollow(n.mem) && View(n.mem)[k] != expected)
            && CommonOf(n') == if r.Mismatch? then CommonOf(n)
                               else AfterCPut(CommonOf(n), k, value, Swaps(n.mem, k, expected))
  {
    hide Valid; hide View; hide Hollow; hide AgreeBefore; hide ExtentNotBefore; hide CPutColumn; hide GetColumn;
    hide OnDisk; hide Shadowing; hide Rewritten; hide BlankBeyond;
    ViewKeys(n.mem);
    var m := GetColumn(n.mem, k).1;
    GetColumnKeeps(n.mem, k, n.modified);
    CPutColumnKeeps(m, k, expected, value, n.modified);
    AppendedOnDisk(n, CPutColumn(m, k, expected, value).1);
    ApplyCPutShadows(n, k, expected, value);
    ApplyCPutValid(n, k, expected, value);
    GetBlank(n.mem, k);
    CPutBlank(m, k, expected, value);
  }

  /** Caches may differ: what happens to them is not common. */
  lemma CacheOnlyCommon(n: Node, m: Mem)
    requires LayoutOf(m) == LayoutOf(n.mem) && View(m) == View(n.mem) && m.blocks == n.mem.blocks
    ensures CommonOf(n.(mem := m)) == CommonOf(n)
    ensures Shadowing(n) ==> Shadowing(n.(mem := m))
    ensures BlankBeyond(n.mem) ==> BlankBeyond(m)
  {
    hide View; hide Contents; hide MetadataOk;
    if BlankBeyond(n.mem) { SameBlank(n.mem, m); }
  }

  // ---- The handlers of a secondary ------------------------------------------------------------------

  /** `version` is the version at which the request set out; the secondary checkpoints only if it still has it. */
  ghost function SecondaryPut(n: Node, k: Key, value: string, version: nat, queue: seq<string>): Option<Node> {
    match Reserve(n, k.row, |value|, queue, version == n.version)
    case None => None
    case Some(n1) =>
      var n2 := ApplyPut(n1, k, value);
      Some(if version == n2.version then Counted(n2) else n2)
  }

  /** The log, the table, `modified` and the counter of a secondary's conditional put: it neither loads the row first nor
      looks at the result. */
  ghost function BareCPut(n: Node, k: Key, expected: string, value: string): Node {
    n.(log := n.log + [CPutRecord(k, expected, value)], mem := CPutColumn(n.mem, k, expected, value).1,
       modified := n.modified + {k}, operations := n.operations + 1)
  }

  ghost function SecondaryCPut(n: Node, k: Key, expected: string, value: string, version: nat, queue: seq<string>): Option<Node> {
    match Reserve(n, k.row, |value|, queue, version == n.version)
    case None => None
    case Some(n1) =>
      var n2 := BareCPut(n1, k, expected, value);
      Some(if version == n2.version then Counted(n2) else n2)
  }

  ghost function SecondaryDelete(n: Node, k: Key, version: nat): Node {
    var n2 := ApplyDelete(n, k);
    if version == n2.version then Counted(n2) else n2
  }

  /** The secondary would force a checkpoint of its own in the middle of a replicated write. */
  predicate SelfForces(n: Node, row: string, size: nat, version: nat) {
    version == n.version && NeedsRoom(n.mem, row, size)
  }

  /** Room is made without a checkpoint: either none is needed, or the primary's checkpoint has just been taken. */
  lemma SecondaryRoom(n: Node, k: Key, size: nat, queue: seq<string>, version: nat)
    requires Steady(n) && !SelfForces(n, k.row, size, version)
    requires version != n.version ==> n.modified == {}
    requires Reserve(n, k.row, size, queue, version == n.version).Some?
    ensures var n' := Reserve(n, k.row, size, queue, version == n.version).value;
            && CommonOf(n') == CommonOf(n) && Steady(n') && (k in Hollow(n'.mem) <==> k in Hollow(n.mem))
  {
    hide Valid; hide View; hide Hollow; hide Shadowing; hide CommonOf; hide Evict; hide Demand; hide NeedsRoom;
    hide Checkpoint; hide BlankBeyond;
    var n0 := n.(mem := Consulted(n.mem, k.row));
    SameTable(n.mem, n0.mem);
    CacheOnlyCommon(n, n0.mem);
    if NeedsRoom(n.mem, k.row, size) {
      EvictKeeps(n0.mem, k.row, Demand(n.mem, k.row, size), queue);
      var n' := Reserve(n, k.row, size, queue, false).value;
      CacheOnlyCommon(n0, n'.mem);
      SpareHollow(n0.mem, n'.mem, k);
    }
  }

  /** Hollowness is a matter of the column's own row. */
  lemma SpareHollow(m: Mem, m': Mem, k: Key)
    requires m'.diskMap == m.diskMap && RowInCache(m', k.row) == RowInCache(m, k.row)
    requires k.row in m'.resident <==> k.row in m.resident
    ensures k in Hollow(m') <==> k in Hollow(m)
  {
    assert k in m.cache <==> k in RowInCache(m, k.row);
    assert k in m'.cache <==> k in RowInCache(m', k.row);
  }

  lemma CountedSteady(n: Node)
    requires Steady(n)
    ensures Steady(Counted(n)) && CommonOf(Counted(n)) == AfterCounted(CommonOf(n))
  {
    hide NodeValid; hide Shadowing; hide BlankBeyond; hide Counted; hide CommonOf; hide AfterCounted;
    CountedValid(n);
    CountedShadows(n);
    CountedBlank(n);
    CountedCommon(n);
  }

  /** A replicated put at a secondary that makes room without a checkpoint of its own. */
  lemma SecondaryPutKeeps(n: Node, k: Key, value: string, version: nat, queue: seq<string>)
    requires Steady(n) && !SelfForces(n, k.row, |value|, version) && (version != n.version ==> n.modified == {})
    requires SecondaryPut(n, k, value, version, queue).Some?
    ensures var n', c := SecondaryPut(n, k, value, version, queue).value, AfterPut(CommonOf(n), k, value);
            Steady(n') && CommonOf(n') == (if version == n.version then AfterCounted(c) else c)
  {
    hide Steady; hide View; hide Reserve; hide Counted; hide CommonOf; hide AfterCounted; hide AfterPut; hide SelfForces;
    hide Hollow;
    SecondaryRoom(n, k, |value|, queue, version);
    var n1 := Reserve(n, k.row, |value|, queue, version == n.version).value;
    ApplyPutCommon(n1, k, value);
    CommonTells(n, n1);
    CountedSteady(ApplyPut(n1, k, value));
  }

  lemma CommonTells(n: Node, n': Node)
    requires CommonOf(n') == CommonOf(n)
    ensures n'.version == n.version && n'.operations == n.operations && n'.modified == n.modified
    ensures View(n'.mem) == View(n.mem) && LayoutOf(n'.mem) == LayoutOf(n.mem)
    ensures n'.metadata == n.metadata && OnDisk(n'.metadata, n'.mem.blocks) == OnDisk(n.metadata, n.mem.blocks)
  {
  }

  /** A checkpoint of its own puts the secondary at a count that no other node has. */
  lemma SelfForcedFallsOut(n: Node, k: Key, size: nat, queue: seq<string>, version: nat)
    requires NodeValid(n) && SelfForces(n, k.row, size, version)
    requires Reserve(n, k.row, size, queue, version == n.version).Some?
    ensures var n1 := Reserve(n, k.row, size, queue, version == n.version).value;
            n1.version == n.version + 1 && n1.operations == 0
  {
    hide Valid; hide View; hide Hollow; hide Evict; hide Demand; hide NeedsRoom; hide Checkpoint;
    CheckpointVersion(n.(mem := Consulted(n.mem, k.row)));
  }

  lemma SelfForcedPut(n: Node, k: Key, value: string, version: nat, queue: seq<string>)
    requires NodeValid(n) && SelfForces(n, k.row, |value|, version) && SecondaryPut(n, k, value, version, queue).Some?
    ensures var n' := SecondaryPut(n, k, value, version, queue).value;
            n'.version == n.version + 1 && n'.operations == 1
  {
    hide Reserve; hide NodeValid; hide Counted; hide NeedsRoom; hide PutColumn;
    SelfForcedFallsOut(n, k, |value|, queue, version);
  }

  lemma SelfForcedCPut(n: Node, k: Key, expected: string, value: string, version: nat, queue: seq<string>)
    requires NodeValid(n) && SelfForces(n, k.row, |value|, version)
    requires SecondaryCPut(n, k, expected, value, version, queue).Some?
    ensures var n' := SecondaryCPut(n, k, expected, value, version, queue).value;
            n'.version == n.version + 1 && n'.operations == 1
  {
    hide Reserve; hide NodeValid; hide Counted; hide NeedsRoom; hide CPutColumn;
    SelfForcedFallsOut(n, k, |value|, queue, version);
  }

  /** `memtable.cput` of a secondary, without the `get` before it. */
  lemma BareCPutCommon(n: Node, k: Key, expected: string, value: string)
    requires Steady(n) && k in n.mem.diskMap
    ensures Steady(BareCPut(n, k, expected, value))
    ensures CommonOf(BareCPut(n, k, expected, value)) == AfterCPut(CommonOf(n), k, value, Swaps(n.mem, k, expected))
  {
    hide DiskOk; hide CacheOk; hide View; hide Hollow; hide AgreeBefore; hide ExtentNotBefore; hide CPutColumn;
    hide OnDisk; hide Shadowing; hide Rewritten; hide BlankBeyond;
    CPutColumnKeeps(n.mem, k, expected, value, n.modified);
    AppendedOnDisk(n, CPutColumn(n.mem, k, expected, value).1);
    BareCPutShadows(n, k, expected, value);
    CPutBlank(n.mem, k, expected, value);
  }

  lemma BareCPutShadows(n: Node, k: Key, expected: string, value: string)
    requires Steady(n) && k in n.mem.diskMap
    ensures Shadowing(BareCPut(n, k, expected, value))
  {
    hide Valid; hide View; hide Hollow; hide AgreeBefore; hide CPutColumn; hide Shadowing;
    var n' := BareCPut(n, k, expected, value);
    CPutColumnKeeps(n.mem, k, expected, value, n.modified);
    ViewKeys(n.mem);
    if CPutColumn(n.mem, k, expected, value).0.Swapped? {
      WritesBeyondShadowed(n, n', k);
    } else {
      UnswappedBlocks(n.mem, k, expected, value, n.modified);
      MarkedShadows(n, n', k);
    }
  }

  lemma UnswappedBlocks(m: Mem, k: Key, expected: string, value: string, dirty: set<Key>)
    requires Valid(m, dirty) && !CPutColumn(m, k, expected, value).0.Swapped?
    ensures CPutColumn(m, k, expected, value).1.blocks == m.blocks
  {
    hide Valid; hide View; hide Hollow; hide GetColumn;
    GetColumnKeeps(m, k, dirty);
  }

  /** A column that is marked modified without being written was on disk already, or is dirty as before. */
  lemma MarkedShadows(n: Node, n': Node, k: Key)
    requires Steady(n) && n'.mem.blocks == n.mem.blocks && LayoutOf(n'.mem) == LayoutOf(n.mem)
    requires View(n'.mem) == View(n.mem) && n'.metadata == n.metadata && n'.modified == n.modified + {k}
    ensures Shadowing(n')
  {
    hide DiskOk; hide CacheOk; hide MetadataOk; hide ExtentNotBefore; hide ReadExtent;
    forall k' | k' in n'.modified && k' in n'.mem.diskMap && k' !in n.modified ensures Settled(n'.mem, k') {
      assert k' in View(n.mem);
      assert Settled(n.mem, k');
    }
    hide View;
    forall k' | k' in n'.modified && k' in n'.mem.diskMap && k' in n.modified
      ensures ExtentNotBefore(n'.mem.diskMap[k'], n'.metadata.blockId, n'.metadata.blockOffset) || Settled(n'.mem, k') {
      assert ExtentNotBefore(n.mem.diskMap[k'], n.metadata.blockId, n.metadata.blockOffset) || Settled(n.mem, k');
    }
  }

  /** A conditional put at a secondary that makes room without a checkpoint of its own. */
  lemma SecondaryCPutKeeps(n: Node, k: Key, expected: string, value: string, version: nat, queue: seq<string>)
    requires Steady(n) && k in n.mem.diskMap
    requires !SelfForces(n, k.row, |value|, version) && (version != n.version ==> n.modified == {})
    requires SecondaryCPut(n, k, expected, value, version, queue).Some?
    ensures var n' := SecondaryCPut(n, k, expected, value, version, queue).value;
            var c := AfterCPut(CommonOf(n), k, value, Swaps(n.mem, k, expected));
            Steady(n') && CommonOf(n') == (if version == n.version then AfterCounted(c) else c)
  {
    hide Steady; hide View; hide Reserve; hide Counted; hide CommonOf; hide AfterCounted; hide AfterCPut; hide SelfForces;
    hide Hollow; hide CPutColumn;
    SecondaryRoom(n, k, |value|, queue, version);
    var n1 := Reserve(n, k.row, |value|, queue, version == n.version).value;
    CommonTells(n, n1);
    BareCPutCommon(n1, k, expected, value);
    CountedSteady(BareCPut(n1, k, expected, value));
  }

  // ---- Requests to the group ------------------------------------------------------------------------

  type Group = seq<Node>

  /** Nodes of a group are in step. */
  ghost predicate InStep(g: Group) {
    |g| > 0 && forall i :: 0 <= i < |g| ==> Steady(g[i]) && CommonOf(g[i]) == CommonOf(g[0])
  }

  /** A forced checkpoint of the primary is taken by every node first (kvstore/kv_store.cpp:358-369). */
  ghost function After(n: Node, forced: bool): Node {
    if forced then Checkpoint(n) else n
  }

  /** A replicated write at a secondary. */
  ghost function SecondaryWrite(n: Node, op: Op, version: nat, queue: seq<string>): Option<Node>
    requires op.Put? || op.CPut?
  {
    match op
    case Put(k, v, _) => SecondaryPut(n, k, v, version, queue)
    case CPut(k, e, v, _) => SecondaryCPut(n, k, e, v, version, queue)
  }

  /** No secondary forces a checkpoint of its own within the write. */
  ghost predicate NoneSelfForces(g: Group, src: nat, k: Key, size: nat, forced: bool)
    requires src < |g|
  {
    forall i :: 0 < i < |g| ==> !SelfForces(After(g[i], forced), k.row, size, g[src].version)
  }

  /** The secondaries are served in their order, but the one that the client called comes last. */
  predicate ServedBefore(i: nat, j: nat, src: nat) {
    i != src && (j == src || i < j)
  }

  /** Secondary `f` is the first to force a checkpoint within the write. It asks the primary for one, which has every other
      node take one as well (kvstore/kv_store.cpp:366-369, 709-719): those served before `f` with the write, those after
      it without. */
  ghost predicate Interrupted(g: Group, src: nat, op: Op, queues: seq<seq<string>>, g': Group, primary: Node, f: nat)
    requires src < |g| == |queues| == |g'| && (op.Put? || op.CPut?)
  {
    var forced, version := Forces(g[0], op), g[src].version;
    && 0 < f < |g| && SelfForces(After(g[f], forced), op.key.row, |op.value|, version)
    && (forall i :: 0 < i < |g| && ServedBefore(i, f, src) ==>
          !SelfForces(After(g[i], forced), op.key.row, |op.value|, version))
    && g'[0] == Checkpoint(primary)
    && SecondaryWrite(After(g[f], forced), op, version, queues[f]) == Some(g'[f])
    && (forall i :: 0 < i < |g| && i != f ==>
          if ServedBefore(i, f, src) then
            var n := SecondaryWrite(After(g[i], forced), op, version, queues[i]);
            n.Some? && g'[i] == Checkpoint(n.value)
          else
            SecondaryWrite(Checkpoint(After(g[i], forced)), op, version, queues[i]) == Some(g'[i]))
  }

  /** What the group makes of a write, sent to node `src`, that has made of the primary what `primary` says. */
  ghost predicate Replicated(g: Group, src: nat, op: Op, queues: seq<seq<string>>, g': Group, primary: Node)
    requires src < |g| == |queues| == |g'| && (op.Put? || op.CPut?)
  {
    var forced := Forces(g[0], op);
    if NoneSelfForces(g, src, op.key, |op.value|, forced) then
      && g'[0] == primary
      && (forall i :: 0 < i < |g| ==> SecondaryWrite(After(g[i], forced), op, g[src].version, queues[i]) == Some(g'[i]))
    else
      exists f :: Interrupted(g, src, op, queues, g', primary, f)
  }

  ghost predicate GroupPut(g: Group, src: nat, op: Op, queues: seq<seq<string>>, g': Group)
    requires src < |g| == |queues| && op.Put?
  {
    |g'| == |g| && Step(g[0], op).Done? && Replicated(g, src, op, queues, g', Step(g[0], op).node)
  }

  /** Only a successful conditional put goes to the secondaries; the checkpoint that precedes it does in any case. */
  ghost predicate GroupCPut(g: Group, src: nat, op: Op, queues: seq<seq<string>>, g': Group)
    requires src < |g| == |queues| && op.CPut?
  {
    && |g'| == |g| && Step(g[0], op).Done?
    && if Step(g[0], op).reply == Success then Replicated(g, src, op, queues, g', Step(g[0], op).node)
       else g'[0] == Step(g[0], op).node && forall i :: 0 < i < |g| ==> g'[i] == After(g[i], Forces(g[0], op))
  }

  ghost predicate GroupDelete(g: Group, src: nat, op: Op, g': Group)
    requires src < |g| && op.Delete?
  {
    && |g'| == |g|
    && Step(g[0], op).Done? && Step(g[0], op).node == g'[0]
    && (forall i :: 0 < i < |g| ==>
          g'[i] == if Step(g[0], op).reply == Success then SecondaryDelete(g[i], op.key, g[src].version) else g[i])
  }

  /** A get, answered by node `src`; if it must load the row, the whole group takes a checkpoint. */
  ghost predicate GroupGet(g: Group, src: nat, op: Op, g': Group)
    requires src < |g| && op.Get?
  {
    && |g'| == |g|
    && Step(g[src], op).Done? && Step(g[src], op).node == g'[src]
    && (forall i :: 0 <= i < |g| && i != src ==> g'[i] == After(g[i], Forces(g[src], op)))
  }

  /** A column that is hollow at one node is so at all. */
  ghost predicate HollowAlike(g: Group, k: Key)
    requires |g| > 0
  {
    forall i :: 0 <= i < |g| ==> (k in Hollow(g[i].mem) <==> k in Hollow(g[0].mem))
  }

  lemma ForcedSteady(n: Node, forced: bool)
    requires Steady(n)
    ensures var n' := After(n, forced);
            && Steady(n') && CommonOf(n') == (if forced then AfterCheckpoint(CommonOf(n)) else CommonOf(n))
            && n'.version == n.version + (if forced then 1 else 0) && (forced ==> n'.modified == {})
  {
    hide NodeValid; hide Shadowing; hide BlankBeyond; hide Checkpoint; hide CommonOf; hide AfterCheckpoint;
    if forced {
      CheckpointBlank(n);
      CheckpointShadows(n);
      CheckpointCommon(n);
      CheckpointVersion(n);
    }
  }

  lemma ForcedColumn(n: Node, forced: bool, k: Key)
    requires NodeValid(n) && k in n.mem.diskMap
    ensures var m := After(n, forced).mem;
            k in m.diskMap && View(m)[k] == View(n.mem)[k] && (k in Hollow(m) <==> k in Hollow(n.mem))
  {
    hide Valid; hide View; hide Hollow; hide Checkpoint; hide Empties;
    ViewKeys(n.mem);
    if forced {
      CheckpointKeeps(n);
      CheckpointFields(n);
      ViewKeys(Checkpoint(n).mem);
      EmptiesAway(View(n.mem), Limbo(n), k);
    }
  }

  /** What a write that makes of common part `c` what `c'` says comes to at a node. */
  function Settling(c: Common, forced: bool): Common {
    if forced then c else AfterCounted(c)
  }

  function Starting(c: Common, forced: bool): Common {
    if forced then AfterCheckpoint(c) else c
  }

  lemma ReserveCommon(n: Node, row: string, size: nat, queue: seq<string>)
    requires Steady(n) && Reserve(n, row, size, queue, true).Some?
    ensures var n' := Reserve(n, row, size, queue, true).value;
            Steady(n') && CommonOf(n') == Starting(CommonOf(n), NeedsRoom(n.mem, row, size))
  {
    hide Valid; hide View; hide Hollow; hide CommonOf; hide Evict; hide Demand; hide NeedsRoom; hide Checkpoint;
    hide AfterCheckpoint; hide Shadowing; hide BlankBeyond;
    ReserveValid(n, row, size, queue);
    ReserveShadows(n, row, size, queue);
    ReserveBlank(n, row, size, queue, true);
    var n0 := n.(mem := Consulted(n.mem, row));
    SameTable(n.mem, n0.mem);
    CacheOnlyCommon(n, n0.mem);
    if NeedsRoom(n.mem, row, size) {
      CheckpointKeeps(n0);
      CheckpointCommon(n0);
      var n1 := Checkpoint(n0);
      EvictKeeps(n1.mem, row, Demand(n.mem, row, size), queue);
      CacheOnlyCommon(n1, Reserve(n, row, size, queue, true).value.mem);
    }
  }

  /** After a forced checkpoint the counter stands at 1, which is not the threshold. */
  lemma SettledCount(c: Common, n: Node, forced: bool)
    requires Steady(n) && CommonOf(n) == c && (forced ==> c.operations == 1)
    ensures Steady(Counted(n)) && CommonOf(Counted(n)) == Settling(c, forced)
  {
    hide Steady; hide Counted; hide AfterCheckpoint;
    CountedSteady(n);
    if forced { assert CommonOf(n).operations == n.operations by { CommonCounts(n); } }
  }

  lemma StartingCount(c: Common, forced: bool)
    ensures forced ==> Starting(c, forced).operations == 0
  {
  }

  /** The primary's side of a put. */
  lemma PrimaryPutCommon(n: Node, op: Op)
    requires Steady(n) && op.Put? && Step(n, op).Done?
    ensures var n', forced := Step(n, op).node, Forces(n, op);
            Steady(n') && CommonOf(n') == Settling(AfterPut(Starting(CommonOf(n), forced), op.key, op.value), forced)
  {
    hide Steady; hide CommonOf; hide Starting; hide Reserve; hide ApplyPut; hide Rewritten; hide Counted; hide NeedsRoom;
    hide Settling;
    var n1 := Reserve(n, op.key.row, |op.value|, op.queue, true).value;
    ReserveCommon(n, op.key.row, |op.value|, op.queue);
    ApplyPutCommon(n1, op.key, op.value);
    StartingCount(CommonOf(n), Forces(n, op));
    SettledCount(AfterPut(CommonOf(n1), op.key, op.value), ApplyPut(n1, op.key, op.value), Forces(n, op));
  }

  lemma PrimaryCPutCommon(n: Node, op: Op)
    requires Steady(n) && op.CPut? && op.key in n.mem.diskMap && Step(n, op).Done?
    ensures var n', forced, k := Step(n, op).node, Forces(n, op), op.key;
            var c := Starting(CommonOf(n), forced);
            && Steady(n')
            && (Step(n, op).reply == Success <==> k in Hollow(n.mem) || View(n.mem)[k] == op.expected)
            && CommonOf(n') == (if Step(n, op).reply != Success then c
                                else Settling(AfterCPut(c, k, op.value, Swaps(n.mem, k, op.expected)), forced))
  {
    hide Steady; hide CommonOf; hide Starting; hide Reserve; hide ApplyCPut; hide Rewritten; hide Counted; hide NeedsRoom;
    hide Settling; hide View; hide Hollow;
    var k, e, v := op.key, op.expected, op.value;
    var n1 := Reserve(n, k.row, |v|, op.queue, true).value;
    ReserveCommon(n, k.row, |v|, op.queue);
    assert NodeValid(n) by { SteadyIsValid(n); }
    ReserveSpares(n, k, |v|, op.queue);
    ApplyCPutCommon(n1, k, e, v);
    var (r, n2) := ApplyCPut(n1, k, e, v);
    StartingCount(CommonOf(n), Forces(n, op));
    if !r.Mismatch? {
      SettledCount(AfterCPut(CommonOf(n1), k, v, Swaps(n1.mem, k, e)), n2, Forces(n, op));
    }
  }

  lemma SteadyIsValid(n: Node)
    requires Steady(n)
    ensures NodeValid(n)
  {
  }

  lemma PrimaryDeleteCommon(n: Node, op: Op)
    requires Steady(n) && op.Delete? && Step(n, op).Done?
    ensures var n', k := Step(n, op).node, op.key;
            && Steady(n') && (Step(n, op).reply == Success <==> k in n.mem.diskMap)
            && CommonOf(n') == (if k in n.mem.diskMap then AfterCounted(AfterDelete(CommonOf(n), k, k in Hollow(n.mem)))
                                else CommonOf(n))
  {
    hide Steady; hide CommonOf; hide ApplyDelete; hide Counted; hide AfterDelete; hide AfterCounted; hide Hollow;
    if op.key in n.mem.diskMap {
      ApplyDeleteCommon(n, op.key);
      CountedSteady(ApplyDelete(n, op.key));
    }
  }

  lemma GetCommon(n: Node, op: Op)
    requires Steady(n) && op.Get? && Step(n, op).Done?
    ensures Steady(Step(n, op).node) && CommonOf(Step(n, op).node) == Starting(CommonOf(n), Forces(n, op))
  {
    hide Valid; hide Hollow; hide View; hide Checkpoint; hide CommonOf; hide AfterCheckpoint; hide Evict;
    hide GetColumn; hide Limbo; hide Shadowing; hide BlankBeyond; hide Empties;
    StepValid(n, op);
    StepShadows(n, op);
    StepBlank(n, op);
    var k := op.key;
    if k in n.mem.diskMap {
      if k.row in n.mem.resident {
        GetColumnKeeps(n.mem, k, n.modified);
        CacheOnlyCommon(n, Step(n, op).node.mem);
      } else {
        CheckpointKeeps(n);
        CheckpointCommon(n);
        var n1 := Checkpoint(n);
        var m := Sized(n1.mem, k.row);
        SameTable(n1.mem, m);
        EvictKeeps(m, k.row, SizeT(RowSize(m, k.row)), op.queue);
        var m2 := Evict(m, k.row, SizeT(RowSize(m, k.row)), op.queue).value;
        GetColumnKeeps(m2, k, {});
        CacheOnlyCommon(n1, Step(n, op).node.mem);
      }
    }
  }

  lemma MissingCommon(n: Node, op: Op)
    requires op.CPut? && op.key !in n.mem.diskMap
    ensures Step(n, op) == Done(n, MissingKey) && !Forces(n, op)
  {
  }

  // ---- A secondary beside the primary ---------------------------------------------------------------

  lemma ReplicaPut(p: Node, n: Node, op: Op, version: nat, queue: seq<string>)
    requires Steady(p) && Steady(n) && CommonOf(n) == CommonOf(p) && version == p.version && op.Put?
    requires var n1 := After(n, Forces(p, op));
             !SelfForces(n1, op.key.row, |op.value|, version) && SecondaryPut(n1, op.key, op.value, version, queue).Some?
    ensures var n', forced := SecondaryPut(After(n, Forces(p, op)), op.key, op.value, version, queue).value, Forces(p, op);
            Steady(n') && CommonOf(n') == Settling(AfterPut(Starting(CommonOf(p), forced), op.key, op.value), forced)
  {
    hide Steady; hide CommonOf; hide SecondaryPut; hide After; hide NeedsRoom; hide AfterPut; hide AfterCounted;
    hide AfterCheckpoint; hide SelfForces;
    CommonTells(p, n);
    ForcedSteady(n, Forces(p, op));
    SecondaryPutKeeps(After(n, Forces(p, op)), op.key, op.value, version, queue);
  }

  lemma ReplicaCPut(p: Node, n: Node, op: Op, version: nat, queue: seq<string>)
    requires Steady(p) && Steady(n) && CommonOf(n) == CommonOf(p) && version == p.version && op.CPut?
    requires op.key in n.mem.diskMap
    requires var n1 := After(n, Forces(p, op));
             !SelfForces(n1, op.key.row, |op.value|, version)
             && SecondaryCPut(n1, op.key, op.expected, op.value, version, queue).Some?
    ensures var n' := SecondaryCPut(After(n, Forces(p, op)), op.key, op.expected, op.value, version, queue).value;
            var forced, swaps := Forces(p, op), Swaps(n.mem, op.key, op.expected);
            Steady(n') && CommonOf(n') == Settling(AfterCPut(Starting(CommonOf(p), forced), op.key, op.value, swaps), forced)
  {
    hide Steady; hide CommonOf; hide SecondaryCPut; hide After; hide NeedsRoom; hide AfterCPut; hide AfterCounted;
    hide AfterCheckpoint; hide SelfForces; hide View; hide Hollow;
    CommonTells(p, n);
    ForcedSteady(n, Forces(p, op));
    SteadyIsValid(n);
    ForcedColumn(n, Forces(p, op), op.key);
    SecondaryCPutKeeps(After(n, Forces(p, op)), op.key, op.expected, op.value, version, queue);
  }

  lemma ReplicaDelete(p: Node, n: Node, k: Key)
    requires Steady(n) && CommonOf(n) == CommonOf(p) && k in n.mem.diskMap
    ensures var n' := SecondaryDelete(n, k, p.version);
            Steady(n') && CommonOf(n') == AfterCounted(AfterDelete(CommonOf(p), k, k in Hollow(n.mem)))
  {
    hide Steady; hide CommonOf; hide Counted; hide AfterDelete; hide AfterCounted; hide Hollow; hide DeleteColumn;
    CommonTells(p, n);
    ApplyDeleteCommon(n, k);
    CountedSteady(ApplyDelete(n, k));
  }

  /** Nodes in step name the same columns, with the same bytes. */
  lemma SameColumn(p: Node, n: Node, k: Key)
    requires CommonOf(n) == CommonOf(p)
    ensures k in n.mem.diskMap <==> k in p.mem.diskMap
    ensures k in p.mem.diskMap ==> View(n.mem)[k] == View(p.mem)[k] && n.mem.diskMap[k] == p.mem.diskMap[k]
  {
    hide OnDisk;
    assert CommonOf(n).view == View(n.mem) && CommonOf(p).view == View(p.mem);
    assert CommonOf(n).layout == LayoutOf(n.mem) && CommonOf(p).layout == LayoutOf(p.mem);
    ViewKeys(n.mem);
    ViewKeys(p.mem);
  }

  // ---- When a call keeps the group in step ----------------------------------------------------------

  lemma HollowIsBlank(n: Node, k: Key)
    requires Steady(n) && k in Hollow(n.mem)
    ensures k in n.mem.diskMap && n.mem.diskMap[k] == [] && View(n.mem)[k] == ""
  {
    ViewKeys(n.mem);
  }

  /** A put keeps the group in step exactly when no secondary forces a checkpoint of its own within it. */
  lemma PutKeepsStepIff(g: Group, src: nat, op: Op, queues: seq<seq<string>>, g': Group)
    requires InStep(g) && src < |g| == |queues| && op.Put? && GroupPut(g, src, op, queues, g')
    ensures InStep(g') <==> NoneSelfForces(g, src, op.key, |op.value|, Forces(g[0], op))
  {
    hide Steady; hide CommonOf; hide SecondaryPut; hide Step; hide After; hide NeedsRoom; hide AfterPut; hide Starting;
    hide Settling; hide SelfForces; hide Checkpoint;
    PrimaryPutCommon(g[0], op);
    CommonTells(g[0], g[src]);
    if NoneSelfForces(g, src, op.key, |op.value|, Forces(g[0], op)) {
      forall i | 0 < i < |g| ensures Steady(g'[i]) && CommonOf(g'[i]) == CommonOf(g'[0]) {
        ReplicaPut(g[0], g[i], op, g[src].version, queues[i]);
      }
    } else {
      var f :| Interrupted(g, src, op, queues, g', Step(g[0], op).node, f);
      InterruptedFallsOut(g, src, op, queues, g', Step(g[0], op).node, f);
    }
  }

  /** The secondary's write stands after the group's checkpoint, the primary's before it. */
  lemma InterruptedFallsOut(g: Group, src: nat, op: Op, queues: seq<seq<string>>, g': Group, primary: Node, f: nat)
    requires InStep(g) && src < |g| == |queues| == |g'| && (op.Put? || op.CPut?)
    requires Interrupted(g, src, op, queues, g', primary, f)
    ensures g'[0].operations == 0 && g'[f].operations == 1 && !InStep(g')
  {
    hide Steady; hide CommonOf; hide SecondaryPut; hide SecondaryCPut; hide After; hide SelfForces; hide Checkpoint;
    CheckpointVersion(primary);
    var n := After(g[f], Forces(g[0], op));
    ForcedSteady(g[f], Forces(g[0], op));
    SteadyIsValid(n);
    match op {
      case Put(k, v, _) => SelfForcedPut(n, k, v, g[src].version, queues[f]);
      case CPut(k, e, v, _) => SelfForcedCPut(n, k, e, v, g[src].version, queues[f]);
    }
    CommonCounts(g'[0]);
    CommonCounts(g'[f]);
  }

  /** Whether the primary answers a conditional put with success. */
  predicate Accepts(n: Node, k: Key, expected: string) {
    k in n.mem.diskMap && (k in Hollow(n.mem) || View(n.mem)[k] == expected)
  }

  /** A swap of nothing for nothing is not seen. */
  lemma BlankSwap(c: Common, k: Key, forced: bool)
    requires k in c.view && c.view[k] == "" && k in c.layout.diskMap && c.layout.diskMap[k] == []
    ensures AfterCPut(Starting(c, forced), k, "", true) == AfterCPut(Starting(c, forced), k, "", false)
  {
    var s := Starting(c, forced);
    assert k in s.view && s.view[k] == "" && k in s.layout.diskMap && s.layout.diskMap[k] == [];
    assert s.view[k := ""] == s.view && s.layout.diskMap[k := []] == s.layout.diskMap;
  }

  /** Any other is. */
  lemma SwapDiffers(c: Common, k: Key, value: string, forced: bool)
    requires k in c.view && c.view[k] == "" && k in c.layout.diskMap && value != ""
    ensures Settling(AfterCPut(Starting(c, forced), k, value, true), forced)
            != Settling(AfterCPut(Starting(c, forced), k, value, false), forced)
  {
    var s := Starting(c, forced);
    assert k in s.view && s.view[k] == "" && k in s.layout.diskMap;
    ColumnStays(AfterCPut(s, k, value, true), k, forced);
    ColumnStays(AfterCPut(s, k, value, false), k, forced);
  }

  lemma ColumnStays(c: Common, k: Key, forced: bool)
    requires k in c.view && k in c.layout.diskMap
    ensures k in Settling(c, forced).view && Settling(c, forced).view[k] == c.view[k]
  {
  }

  /** Once the primary has answered success, what matters is that the nodes agree on the column being hollow, unless
      nothing is expected and nothing is stored, or the value they would all find is not the expected one. */
  ghost predicate SwapsAlike(g: Group, k: Key, expected: string, value: string)
    requires |g| > 0
  {
    expected != "" || value == "" || HollowAlike(g, k)
  }

  lemma ReplicasSwap(p: Node, n: Node, k: Key, expected: string, value: string, forced: bool)
    requires Steady(p) && Steady(n) && CommonOf(n) == CommonOf(p) && Accepts(p, k, expected) && k in n.mem.diskMap
    ensures var c := Starting(CommonOf(p), forced);
            Settling(AfterCPut(c, k, value, Swaps(n.mem, k, expected)), forced)
            == Settling(AfterCPut(c, k, value, Swaps(p.mem, k, expected)), forced)
            <==> expected != "" || value == "" || (k in Hollow(n.mem) <==> k in Hollow(p.mem))
  {
    hide Steady; hide AfterCPut; hide Settling; hide Starting; hide View; hide Hollow; hide OnDisk;
    SameColumn(p, n, k);
    ViewKeys(p.mem);
    if k in Hollow(n.mem) { HollowIsBlank(n, k); }
    if k in Hollow(p.mem) { HollowIsBlank(p, k); }
    var c := CommonOf(p);
    assert c.view == View(p.mem) && c.layout == LayoutOf(p.mem);
    if expected == "" && !(k in Hollow(n.mem) <==> k in Hollow(p.mem)) {
      if value == "" {
        BlankSwap(c, k, forced);
      } else {
        SwapDiffers(c, k, value, forced);
      }
    }
  }

  /** A conditional put that the primary turns down keeps the group in step; one that it accepts does exactly when, in
      addition, the nodes swap alike. */
  lemma CPutKeepsStepIff(g: Group, src: nat, op: Op, queues: seq<seq<string>>, g': Group)
    requires InStep(g) && src < |g| == |queues| && op.CPut? && GroupCPut(g, src, op, queues, g')
    ensures InStep(g') <==> (Accepts(g[0], op.key, op.expected) ==>
                               && NoneSelfForces(g, src, op.key, |op.value|, Forces(g[0], op))
                               && SwapsAlike(g, op.key, op.expected, op.value))
  {
    hide Steady; hide CommonOf; hide SecondaryCPut; hide Step; hide After; hide NeedsRoom; hide AfterCPut; hide Starting;
    hide Settling; hide SelfForces; hide View; hide Hollow;
    if Accepts(g[0], op.key, op.expected) {
      PrimaryCPutCommon(g[0], op);
      AcceptedKeepsStepIff(g, src, op, queues, g');
    } else {
      TurnedDownKeepsStep(g, src, op, queues, g');
    }
  }

  lemma TurnedDownKeepsStep(g: Group, src: nat, op: Op, queues: seq<seq<string>>, g': Group)
    requires InStep(g) && src < |g| == |queues| && op.CPut? && GroupCPut(g, src, op, queues, g')
    requires !Accepts(g[0], op.key, op.expected)
    ensures InStep(g')
  {
    hide Steady; hide CommonOf; hide SecondaryCPut; hide Step; hide After; hide NeedsRoom; hide AfterCPut;
    hide Settling; hide View; hide Hollow;
    if op.key in g[0].mem.diskMap {
      PrimaryCPutCommon(g[0], op);
    } else {
      MissingCommon(g[0], op);
    }
    forall i | 0 < i < |g| ensures Steady(g'[i]) && CommonOf(g'[i]) == CommonOf(g'[0]) {
      ForcedSteady(g[i], Forces(g[0], op));
    }
  }

  lemma AcceptedKeepsStepIff(g: Group, src: nat, op: Op, queues: seq<seq<string>>, g': Group)
    requires InStep(g) && src < |g| == |queues| && op.CPut? && GroupCPut(g, src, op, queues, g')
    requires Accepts(g[0], op.key, op.expected) && Step(g[0], op).reply == Success
    ensures InStep(g') <==> NoneSelfForces(g, src, op.key, |op.value|, Forces(g[0], op))
                            && SwapsAlike(g, op.key, op.expected, op.value)
  {
    hide Steady; hide CommonOf; hide SecondaryCPut; hide Step; hide After; hide NeedsRoom; hide AfterCPut; hide Starting;
    hide Settling; hide SelfForces; hide View; hide Hollow; hide Swaps; hide Checkpoint;
    var k, e, v, forced := op.key, op.expected, op.value, Forces(g[0], op);
    PrimaryCPutCommon(g[0], op);
    CommonTells(g[0], g[src]);
    if NoneSelfForces(g, src, k, |v|, forced) {
      forall i | 0 < i < |g|
        ensures Steady(g'[i])
        ensures CommonOf(g'[i]) == CommonOf(g'[0])
                <==> e != "" || v == "" || (k in Hollow(g[i].mem) <==> k in Hollow(g[0].mem))
      {
        SameColumn(g[0], g[i], k);
        ReplicaCPut(g[0], g[i], op, g[src].version, queues[i]);
        ReplicasSwap(g[0], g[i], k, e, v, forced);
      }
    } else {
      var f :| Interrupted(g, src, op, queues, g', Step(g[0], op).node, f);
      InterruptedFallsOut(g, src, op, queues, g', Step(g[0], op).node, f);
    }
  }

  /** A blank column that one node deletes and another keeps: the checkpoint due after the delete, if the column is in
      `modified`, brings it back where it was deleted. */
  lemma BlankDelete(c: Common, k: Key)
    requires k in c.view && c.view[k] == "" && k in c.layout.diskMap && c.layout.diskMap[k] == []
    ensures AfterCounted(AfterDelete(c, k, true)) == AfterCounted(AfterDelete(c, k, false))
            <==> k in c.modified && c.operations + 1 == CHECKPOINT_THRESHOLD
  {
    hide AfterCheckpoint; hide AfterDelete;
    var kept, gone := AfterDelete(c, k, true), AfterDelete(c, k, false);
    DeleteTells(c, k, true);
    DeleteTells(c, k, false);
    if c.operations + 1 == CHECKPOINT_THRESHOLD {
      CheckpointTells(kept, k);
      CheckpointTells(gone, k);
      if k in c.modified { BroughtBackAlike(c, k); }
    }
  }

  lemma DeleteTells(c: Common, k: Key, hollow: bool)
    ensures var c' := AfterDelete(c, k, hollow);
            && c'.operations == c.operations + 1 && c'.modified == c.modified
            && (k in c'.view <==> hollow && k in c.view)
            && (k in c'.layout.diskMap <==> hollow && k in c.layout.diskMap)
  {
  }

  lemma CheckpointTells(c: Common, k: Key)
    ensures k in AfterCheckpoint(c).view <==> k in c.view || (k in c.modified && k !in c.layout.diskMap)
  {
  }

  lemma BroughtBackAlike(c: Common, k: Key)
    requires k in c.view && c.view[k] == "" && k in c.layout.diskMap && c.layout.diskMap[k] == [] && k in c.modified
    ensures AfterCheckpoint(AfterDelete(c, k, true)) == AfterCheckpoint(AfterDelete(c, k, false))
  {
    hide WithEmpties; hide Empties;
    var d := Deleted(c);
    assert Deleted(AfterDelete(c, k, false)) == d + {k} && Deleted(AfterDelete(c, k, true)) == d;
    EmptiesBack(c.view, d, k);
    EntriesBack(c.layout, d, k);
  }

  lemma EntriesBack(l: Layout, back: set<Key>, k: Key)
    requires k in l.diskMap && l.diskMap[k] == [] && k !in back
    ensures WithEmpties(l.(diskMap := l.diskMap - {k}), back + {k}) == WithEmpties(l, back)
  {
    assert WithEmpties(l.(diskMap := l.diskMap - {k}), back + {k}).diskMap == WithEmpties(l, back).diskMap;
  }

  lemma EmptiesBack(v: Table, back: set<Key>, k: Key)
    requires k in v && v[k] == "" && k !in back
    ensures (v - {k}) + Empties(back + {k}) == v + Empties(back)
  {
  }

  /** The nodes agree on a column being hollow, or the checkpoint that follows its delete makes up for it. */
  ghost predicate DeletesAlike(g: Group, k: Key)
    requires |g| > 0
  {
    HollowAlike(g, k) || (k in g[0].modified && g[0].operations + 1 == CHECKPOINT_THRESHOLD)
  }

  lemma ReplicasDelete(p: Node, n: Node, k: Key)
    requires Steady(p) && Steady(n) && CommonOf(n) == CommonOf(p) && k in p.mem.diskMap
    ensures AfterCounted(AfterDelete(CommonOf(p), k, k in Hollow(n.mem)))
            == AfterCounted(AfterDelete(CommonOf(p), k, k in Hollow(p.mem)))
            <==> (k in Hollow(n.mem) <==> k in Hollow(p.mem)) || (k in p.modified && p.operations + 1 == CHECKPOINT_THRESHOLD)
  {
    hide Steady; hide AfterDelete; hide AfterCounted; hide View; hide Hollow; hide OnDisk;
    SameColumn(p, n, k);
    ViewKeys(p.mem);
    var c := CommonOf(p);
    assert c.view == View(p.mem) && c.layout == LayoutOf(p.mem) && c.modified == p.modified && c.operations == p.operations;
    if k in Hollow(n.mem) { HollowIsBlank(n, k); }
    if k in Hollow(p.mem) { HollowIsBlank(p, k); }
    if !(k in Hollow(n.mem) <==> k in Hollow(p.mem)) {
      BlankDelete(c, k);
    }
  }

  /** A delete of a missing column keeps the group in step; one of a column that is there does exactly when the nodes
      delete alike. */
  lemma DeleteKeepsStepIff(g: Group, src: nat, op: Op, g': Group)
    requires InStep(g) && src < |g| && op.Delete? && GroupDelete(g, src, op, g')
    ensures InStep(g') <==> (op.key in g[0].mem.diskMap ==> DeletesAlike(g, op.key))
  {
    hide Steady; hide CommonOf; hide SecondaryDelete; hide Step; hide AfterDelete; hide AfterCounted; hide Hollow;
    var k := op.key;
    PrimaryDeleteCommon(g[0], op);
    CommonTells(g[0], g[src]);
    if k in g[0].mem.diskMap {
      forall i | 0 < i < |g|
        ensures Steady(g'[i])
        ensures CommonOf(g'[i]) == CommonOf(g'[0])
                <==> (k in Hollow(g[i].mem) <==> k in Hollow(g[0].mem))
                     || (k in g[0].modified && g[0].operations + 1 == CHECKPOINT_THRESHOLD)
      {
        SameColumn(g[0], g[i], k);
        ReplicaDelete(g[src], g[i], k);
        ReplicasDelete(g[0], g[i], k);
      }
    }
  }

  /** A get keeps the group in step: the checkpoint it may force is taken by every node. */
  lemma GetKeepsStep(g: Group, src: nat, op: Op, g': Group)
    requires InStep(g) && src < |g| && op.Get? && GroupGet(g, src, op, g')
    ensures InStep(g')
  {
    hide Steady; hide CommonOf; hide Step; hide After; hide AfterCheckpoint;
    var forced := Forces(g[src], op);
    GetCommon(g[src], op);
    forall i | 0 <= i < |g| ensures Steady(g'[i]) && CommonOf(g'[i]) == CommonOf(g'[src]) {
      if i != src { ForcedSteady(g[i], forced); }
    }
    assert CommonOf(g'[0]) == CommonOf(g'[src]);
  }

  // ---- Whole runs -----------------------------------------------------------------------------------

  /** A client's request, the node it is sent to, and the eviction orders at the secondaries. */
  datatype Call = Call(src: nat, op: Op, queues: seq<seq<string>>)

  /** What the group makes of a call. */
  ghost predicate GroupStep(g: Group, c: Call, g': Group) {
    c.src < |g| == |c.queues|
    && match c.op
       case Put(_, _, _) => GroupPut(g, c.src, c.op, c.queues, g')
       case CPut(_, _, _, _) => GroupCPut(g, c.src, c.op, c.queues, g')
       case Get(_, _) => GroupGet(g, c.src, c.op, g')
       case Delete(_) => GroupDelete(g, c.src, c.op, g')
  }

  /** No secondary forces a checkpoint of its own within the call, and no column that only some nodes have in their
      resident row is swapped or deleted by it. */
  ghost predicate Undisturbed(g: Group, c: Call) {
    c.src < |g|
    && match c.op
       case Put(k, v, _) => NoneSelfForces(g, c.src, k, |v|, Forces(g[0], c.op))
       case CPut(k, e, v, _) =>
         Accepts(g[0], k, e) ==> NoneSelfForces(g, c.src, k, |v|, Forces(g[0], c.op)) && SwapsAlike(g, k, e, v)
       case Get(_, _) => true
       case Delete(k) => k in g[0].mem.diskMap ==> DeletesAlike(g, k)
  }

  lemma CallKeepsStepIff(g: Group, c: Call, g': Group)
    requires InStep(g) && GroupStep(g, c, g')
    ensures InStep(g') <==> Undisturbed(g, c)
  {
    hide InStep; hide GroupPut; hide GroupCPut; hide GroupDelete; hide GroupGet; hide NoneSelfForces; hide SwapsAlike;
    hide DeletesAlike; hide Accepts; hide Forces;
    match c.op
    case Put(_, _, _) => PutKeepsStepIff(g, c.src, c.op, c.queues, g');
    case CPut(_, _, _, _) => CPutKeepsStepIff(g, c.src, c.op, c.queues, g');
    case Get(_, _) => GetKeepsStep(g, c.src, c.op, g');
    case Delete(_) => DeleteKeepsStepIff(g, c.src, c.op, g');
  }

  /** Version lockstep, over every run of calls one at a time, at any nodes, with any checkpoints, evictions and columns
      brought back: the nodes agree on the counters, `modified`, the layout, the plain map, the metadata and what is on
      disk all along exactly when every call is undisturbed. */
  lemma {:induction false} GroupStaysInStepIff(groups: seq<Group>, calls: seq<Call>)
    requires |groups| == |calls| + 1 && InStep(groups[0])
    requires forall i :: 0 <= i < |calls| ==> GroupStep(groups[i], calls[i], groups[i + 1])
    ensures (forall i :: 0 <= i < |groups| ==> InStep(groups[i]))
            <==> (forall i :: 0 <= i < |calls| ==> Undisturbed(groups[i], calls[i]))
    decreases |calls|
  {
    hide InStep; hide GroupStep; hide Undisturbed;
    if calls == [] {
    } else {
      var n := |calls| - 1;
      var before := groups[..n + 1];
      GroupStaysInStepIff(before, calls[..n]);
      assert forall i :: 0 <= i <= n ==> before[i] == groups[i];
      assert forall i :: 0 <= i < n ==> calls[..n][i] == calls[i];
      if InStep(groups[n]) {
        CallKeepsStepIff(groups[n], calls[n], groups[n + 1]);
      }
      if forall i :: 0 <= i < |groups| ==> InStep(groups[i]) {
        assert forall i :: 0 <= i < |before| ==> InStep(before[i]);
        assert forall i :: 0 <= i < n ==> Undisturbed(before[i], calls[..n][i]);
      }
      if forall i :: 0 <= i < |calls| ==> Undisturbed(groups[i], calls[i]) {
        assert forall i :: 0 <= i < n ==> Undisturbed(before[i], calls[..n][i]);
        assert InStep(before[n]);
        assert InStep(groups[n + 1]);
        forall i | 0 <= i < |groups| ensures InStep(groups[i]) {
          if i <= n { assert before[i] == groups[i]; }
        }
      }
    }
  }

  /** A new group is in step. */
  lemma NewGroupInStep(capacities: seq<nat>)
    requires capacities != []
    ensures InStep(seq(|capacities|, i requires 0 <= i < |capacities| => FreshNode(capacities[i])))
  {
    forall i | 0 <= i < |capacities| ensures Steady(FreshNode(capacities[i])) {
      FreshIsSteady(capacities[i]);
    }
  }

  lemma FreshIsSteady(capacity: nat)
    ensures Steady(FreshNode(capacity))
  {
    FreshIsBlank(capacity);
  }
}
