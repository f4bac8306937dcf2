/** A replicated write within which a secondary runs out of memory (kvstore/kv_store.cpp:366-369, 428-450, 601-622,
    709-719): the secondary asks the primary for a checkpoint in the middle of it. What every node of the group then
    holds, in memory and on disk. */
module Interruption {
  import opened Extents
  import opened Memtable
  import opened Options
  import opened StorageNode
  import opened NodeRuns
  import opened NodeLayout
  import opened LogReplay
  import opened Durability
  import opened BlankDisk
  import opened Lockstep

  // ---- Before and after the checkpoint --------------------------------------------------------------

  /** The node has the write behind it when the checkpoint reaches it: the primary, and the secondaries served before the one
      that asked for it. */
  predicate Earlier(i: nat, f: nat, src: nat) {
    i == 0 || (i != f && ServedBefore(i, f, src))
  }

  /** Whether the write takes place in the node's table: a conditional put that finds no column or another value is passed
      over. */
  predicate Taken(n: Node, op: Op)
    requires op.Put? || op.CPut?
  {
    op.Put? || (op.key in n.mem.diskMap && Swaps(n.mem, op.key, op.expected))
  }

  /** The request is a write that the primary carries out with success, and secondary `f` interrupts it. */
  ghost predicate InterruptedWrite(g: Group, src: nat, op: Op, queues: seq<seq<string>>, g': Group, f: nat) {
    && InStep(g) && src < |g| == |queues| == |g'| && (op.Put? || op.CPut?)
    && Step(g[0], op).Done? && Step(g[0], op).reply == Success
    && Interrupted(g, src, op, queues, g', Step(g[0], op).node, f)
  }

  /** The write itself at a secondary. */
  ghost function Bare(n: Node, op: Op): Node
    requires op.Put? || op.CPut?
  {
    if op.Put? then ApplyPut(n, op.key, op.value) else BareCPut(n, op.key, op.expected, op.value)
  }

  lemma AfterNothing(n: Node)
    ensures After(n, false) == n && Starting(CommonOf(n), false) == CommonOf(n)
  {
  }

  lemma ForcedIsAhead(n: Node, forced: bool, row: string, size: nat, version: nat)
    requires version == n.version && SelfForces(After(n, forced), row, size, version)
    ensures !forced && SelfForces(n, row, size, version)
  {
    hide NeedsRoom; hide Checkpoint;
    CheckpointVersion(n);
  }

  lemma CheckpointedCounts(c: Common)
    ensures AfterCheckpoint(c).version == c.version + 1 && AfterCheckpoint(c).modified == {}
    ensures AfterCheckpoint(c).operations == 0
  {
  }

  lemma CheckpointSteady(n: Node)
    requires Steady(n)
    ensures Steady(Checkpoint(n)) && Checkpoint(n).log == [] && Checkpoint(n).version == n.version + 1
    ensures Checkpoint(n).modified == {} && Checkpoint(n).operations == 0
    ensures CommonOf(Checkpoint(n)) == AfterCheckpoint(CommonOf(n))
  {
    hide NodeValid; hide Shadowing; hide BlankBeyond; hide CommonOf; hide AfterCheckpoint;
    CheckpointShadows(n);
    CheckpointBlank(n);
    CheckpointCommon(n);
    CheckpointFields(n);
  }

  lemma CommonIs(n: Node)
    ensures var c := CommonOf(n);
            && c.version == n.version && c.operations == n.operations && c.modified == n.modified
            && c.layout == LayoutOf(n.mem) && c.view == View(n.mem) && c.metadata == n.metadata
            && c.onDisk == OnDisk(n.metadata, n.mem.blocks)
  {
  }

  // ---- Each node ------------------------------------------------------------------------------------

  lemma TakenAt(p: Node, n: Node, op: Op)
    requires CommonOf(n) == CommonOf(p) && op.CPut? && op.key in p.mem.diskMap
    ensures op.key in n.mem.diskMap && (Taken(n, op) <==> Swaps(n.mem, op.key, op.expected))
  {
    hide CommonOf; hide View; hide Hollow;
    SameColumn(p, n, op.key);
  }

  lemma AcceptedIsThere(n: Node, op: Op)
    requires op.CPut? && Step(n, op).Done? && Step(n, op).reply == Success
    ensures op.key in n.mem.diskMap
  {
  }

  /** The primary: the write, perhaps the checkpoint that follows it, and then the one asked for. */
  lemma InterruptedPrimary(g: Group, src: nat, op: Op, queues: seq<seq<string>>, g': Group, f: nat)
    requires InterruptedWrite(g, src, op, queues, g', f)
    ensures Steady(g'[0]) && g'[0].log == []
    ensures CommonOf(g'[0])
            == AfterCheckpoint(AfterCounted(AfterCPut(CommonOf(g[0]), op.key, op.value, Taken(g[0], op))))
    ensures !Forces(g[0], op)
  {
    hide Steady; hide CommonOf; hide After; hide SelfForces; hide Checkpoint; hide Step; hide AfterCheckpoint; hide View;
    hide Rewritten; hide Hollow; hide AfterCounted; hide NeedsRoom;
    var p := g[0];
    CommonTells(p, g[f]);
    CommonTells(p, g[src]);
    ForcedIsAhead(g[f], Forces(p, op), op.key.row, |op.value|, g[src].version);
    AfterNothing(p);
    if op.Put? {
      PrimaryPutCommon(p, op);
    } else {
      AcceptedIsThere(p, op);
      PrimaryCPutCommon(p, op);
    }
    CheckpointSteady(Step(p, op).node);
  }

  /** A secondary that was served before: the same. */
  lemma InterruptedEarlier(g: Group, src: nat, op: Op, queues: seq<seq<string>>, g': Group, f: nat, i: nat)
    requires InterruptedWrite(g, src, op, queues, g', f) && 0 < i < |g| && Earlier(i, f, src)
    ensures Steady(g'[i]) && g'[i].log == []
    ensures CommonOf(g'[i])
            == AfterCheckpoint(AfterCounted(AfterCPut(CommonOf(g[0]), op.key, op.value, Taken(g[i], op))))
  {
    InterruptedPrimary(g, src, op, queues, g', f);
    hide Steady; hide CommonOf; hide After; hide SelfForces; hide Checkpoint; hide Step; hide AfterCheckpoint; hide View;
    hide Rewritten; hide Hollow; hide AfterCounted; hide NeedsRoom; hide SecondaryPut; hide SecondaryCPut; hide Forces;
    var n, version := g[i], g[src].version;
    CommonTells(g[0], n);
    CommonTells(g[0], g[src]);
    AfterNothing(n);
    assert !SelfForces(n, op.key.row, |op.value|, version);
    if op.Put? {
      SecondaryPutKeeps(n, op.key, op.value, version, queues[i]);
    } else {
      AcceptedIsThere(g[0], op);
      TakenAt(g[0], n, op);
      SecondaryCPutKeeps(n, op.key, op.expected, op.value, version, queues[i]);
    }
    CheckpointSteady(SecondaryWrite(n, op, version, queues[i]).value);
  }

  /** A secondary that makes room after its checkpoint has nothing modified or logged but the write. */
  lemma LateRoom(s: Node, op: Op, version: nat, queue: seq<string>, forces: bool) returns (n: Node)
    requires Steady(s) && (op.Put? || op.CPut?)
    requires if forces then SelfForces(s, op.key.row, |op.value|, version) && SecondaryWrite(s, op, version, queue).Some?
             else version == s.version && SecondaryWrite(Checkpoint(s), op, version, queue).Some?
    ensures Steady(n) && CommonOf(n) == AfterCheckpoint(CommonOf(s)) && n.log == []
    ensures op.key in s.mem.diskMap ==>
              op.key in n.mem.diskMap && View(n.mem)[op.key] == View(s.mem)[op.key]
              && (op.key in Hollow(n.mem) <==> op.key in Hollow(s.mem))
    ensures SecondaryWrite(if forces then s else Checkpoint(s), op, version, queue) == Some(Bare(n, op))
  {
    hide Steady; hide CommonOf; hide Checkpoint; hide View; hide Hollow; hide PutColumn; hide CPutColumn; hide NeedsRoom;
    hide AfterCheckpoint; hide Counted;
    var k, size := op.key, |op.value|;
    SteadyIsValid(s);
    if forces {
      n := Reserve(s, k.row, size, queue, true).value;
      ReserveCommon(s, k.row, size, queue);
      SelfForcedFallsOut(s, k, size, queue, version);
      if k in s.mem.diskMap { ReserveSpares(s, k, size, queue); }
      ReservedLog(s, k.row, size, queue);
    } else {
      var c := Checkpoint(s);
      CheckpointSteady(s);
      assert version != c.version && c.modified == {};
      n := Reserve(c, k.row, size, queue, false).value;
      SecondaryRoom(c, k, size, queue, version);
      UnforcedFields(c, k.row, size, queue);
      if k in s.mem.diskMap {
        ForcedColumn(s, true, k);
        SameColumn(c, n, k);
      }
    }
  }

  lemma ReservedLog(n: Node, row: string, size: nat, queue: seq<string>)
    requires Reserve(n, row, size, queue, true).Some? && NeedsRoom(n.mem, row, size)
    ensures Reserve(n, row, size, queue, true).value.log == []
  {
    hide Evict; hide NeedsRoom; hide Demand;
  }

  lemma UnforcedFields(n: Node, row: string, size: nat, queue: seq<string>)
    requires Reserve(n, row, size, queue, false).Some?
    ensures var n' := Reserve(n, row, size, queue, false).value;
            n'.log == n.log && n'.version == n.version && n'.operations == n.operations && n'.modified == n.modified
  {
    hide Evict; hide NeedsRoom; hide Demand;
  }

  /** The secondary that asked, and those served after it: a checkpoint first, then the write. */
  lemma InterruptedLate(g: Group, src: nat, op: Op, queues: seq<seq<string>>, g': Group, f: nat, i: nat) returns (n: Node)
    requires InterruptedWrite(g, src, op, queues, g', f) && 0 < i < |g| && !Earlier(i, f, src)
    ensures Steady(n) && CommonOf(n) == AfterCheckpoint(CommonOf(g[0])) && n.log == [] && g'[i] == Bare(n, op)
    ensures op.CPut? ==> op.key in n.mem.diskMap
    ensures Taken(n, op) <==> Taken(g[i], op)
  {
    InterruptedPrimary(g, src, op, queues, g', f);
    hide Steady; hide CommonOf; hide After; hide SelfForces; hide Checkpoint; hide Step; hide AfterCheckpoint; hide View;
    hide Hollow; hide NeedsRoom; hide SecondaryPut; hide SecondaryCPut; hide Forces; hide PutColumn; hide CPutColumn;
    var s, version := g[i], g[src].version;
    CommonTells(g[0], s);
    CommonTells(g[0], g[src]);
    AfterNothing(s);
    if op.CPut? {
      AcceptedIsThere(g[0], op);
      SameColumn(g[0], s, op.key);
    }
    n := LateRoom(s, op, version, queues[i], i == f);
  }

  lemma BareCommon(n: Node, op: Op)
    requires Steady(n) && (op.Put? || (op.CPut? && op.key in n.mem.diskMap))
    ensures Steady(Bare(n, op)) && Bare(n, op).log == n.log + [RecordOf(op)]
    ensures CommonOf(Bare(n, op)) == AfterCPut(CommonOf(n), op.key, op.value, Taken(n, op))
  {
    hide Steady; hide CommonOf; hide PutColumn; hide CPutColumn; hide AfterPut; hide View; hide Hollow;
    if op.Put? {
      ApplyPutCommon(n, op.key, op.value);
    } else {
      BareCPutCommon(n, op.key, op.expected, op.value);
    }
  }

  /** A value that has just been written is in the cache, and its extent is blank. */
  lemma BareIsCached(n: Node, op: Op)
    requires Steady(n) && (op.Put? || op.CPut?) && Taken(n, op)
    ensures var m, k := Bare(n, op).mem, op.key;
            && k in m.cache && m.cache[k] == op.value
            && k in m.diskMap && ReadExtent(m.blocks, m.diskMap[k]) == Zeros(|op.value|)
  {
    hide View; hide Hollow; hide Appended; hide Blank; hide Valid; hide Shadowing; hide Recreated; hide PutColumn;
    hide CPutColumn;
    var m, k, v := Bare(n, op).mem, op.key, op.value;
    if op.Put? {
      PutColumnKeeps(n.mem, k, v, n.modified);
      PutPlaces(n.mem, k, v);
    } else {
      CPutColumnKeeps(n.mem, k, op.expected, v, n.modified);
      CPutPlaces(n.mem, k, op.expected, v);
    }
    hide ExtentNotBefore;
    RecreatedBlank(n.mem.blocks, n.mem.blockId, m.blockId, n.mem.blockOffset);
    ReadBlank(m.blocks, n.mem.blockId, n.mem.blockOffset, m.diskMap[k]);
    PlaceIsExact(n.mem.blockId, n.mem.blockOffset, |v|);
  }

  // ---- What is left behind --------------------------------------------------------------------------

  /** The plain map with the write, where it takes place, and the deleted columns that the checkpoint brings back. */
  function MapWith(n: Node, op: Op): Table
    requires op.Put? || op.CPut?
  {
    (if Taken(n, op) then View(n.mem)[op.key := op.value] else View(n.mem)) + Empties(Limbo(n) - {op.key})
  }

  lemma MapWithViews(c: Common, op: Op, taken: bool, n: Node)
    requires CommonOf(n) == c && (op.Put? || op.CPut?) && taken == Taken(n, op) && (taken || op.key in n.mem.diskMap)
    ensures AfterCheckpoint(AfterCounted(AfterCPut(c, op.key, op.value, taken))).view == MapWith(n, op)
    ensures AfterCPut(AfterCheckpoint(c), op.key, op.value, taken).view == MapWith(n, op)
  {
    hide Rewritten; hide OnDisk; hide Hollow; hide Empties; hide WithEmpties; hide Taken;
    assert c.view == View(n.mem) && c.layout == LayoutOf(n.mem) && c.modified == n.modified;
    var k := op.key;
    ViewKeys(n.mem);
    var back, w := Deleted(c), AfterCPut(c, k, op.value, taken);
    assert back == Limbo(n);
    assert Deleted(w) == back - {k} by { DeletedAfter(c, k, op.value, taken); }
    EmptiesOver(c.view, back, k, op.value);
    TwiceIsOnce(w);
    if !taken { assert back - {k} == back; }
  }

  lemma DeletedAfter(c: Common, k: Key, value: string, taken: bool)
    requires taken || k in c.layout.diskMap
    ensures Deleted(AfterCPut(c, k, value, taken)) == Deleted(c) - {k}
  {
    hide Place;
  }

  /** A second checkpoint brings nothing more back. */
  lemma TwiceIsOnce(c: Common)
    ensures AfterCheckpoint(AfterCounted(c)).view == c.view + Empties(Deleted(c))
  {
    hide Empties;
    if c.operations == CHECKPOINT_THRESHOLD {
      var c1 := AfterCheckpoint(c);
      assert Deleted(c1) == {};
      EmptiesOver(c1.view, {}, Key("", ""), "");
    }
  }

  /** After an interrupted write every node of the group stands for the same map with the write in it. The primary and the
      secondaries that were served first are a version further, two if the write was one that a counted checkpoint
      follows, with nothing counted, nothing modified and all on disk. The secondary that asked and those served after it
      are one version further and have counted the write; it is in their log and their cache, and on their disk is
      what was there before, with NULs where the value will be. */
  lemma InterruptedLeaves(g: Group, src: nat, op: Op, queues: seq<seq<string>>, g': Group, f: nat, i: nat)
    requires InterruptedWrite(g, src, op, queues, g', f) && i < |g|
    ensures var n', k, taken := g'[i], op.key, Taken(g[i], op);
            && Steady(n') && View(n'.mem) == MapWith(g[i], op)
            && (taken ==> k in View(n'.mem) && View(n'.mem)[k] == op.value)
            && if Earlier(i, f, src) then
                 && n'.version == g[0].version + (if g[0].operations + 1 == CHECKPOINT_THRESHOLD then 2 else 1)
                 && n'.operations == 0 && n'.modified == {} && n'.log == []
                 && n'.metadata == LayoutOf(n'.mem) && OnDisk(n'.metadata, n'.mem.blocks) == View(n'.mem)
               else
                 && n'.version == g[0].version + 1 && n'.operations == 1 && n'.modified == {k} && n'.log == [RecordOf(op)]
                 && OnDisk(n'.metadata, n'.mem.blocks) == View(g[0].mem) + Empties(Limbo(g[0]))
                 && (taken ==> k in n'.mem.cache && n'.mem.cache[k] == op.value && k in n'.mem.diskMap
                               && ReadExtent(n'.mem.blocks, n'.mem.diskMap[k]) == Zeros(|op.value|))
  {
    hide Steady; hide CommonOf; hide View; hide Hollow; hide AfterCheckpoint; hide Interrupted; hide Step; hide Empties;
    hide OnDisk; hide AfterCPut; hide AfterCounted; hide Bare; hide ServedBefore; hide MapWith; hide Taken;
    var c, taken := CommonOf(g[0]), Taken(g[i], op);
    CommonTells(g[0], g[i]);
    if op.CPut? { AcceptedIsThere(g[0], op); TakenAt(g[0], g[i], op); }
    assert taken || op.key in g[i].mem.diskMap by { TakenOrThere(g[i], op); }
    MapWithViews(c, op, taken, g[i]);
    CommonIs(g[0]);
    CommonIs(g'[i]);
    if Earlier(i, f, src) {
      if i == 0 { InterruptedPrimary(g, src, op, queues, g', f); } else { InterruptedEarlier(g, src, op, queues, g', f, i); }
      EarlyCounts(c, op.key, op.value, taken);
    } else {
      var n := InterruptedLate(g, src, op, queues, g', f, i);
      BareCommon(n, op);
      LateCounts(c, op.key, op.value, taken);
      if taken { BareIsCached(n, op); }
    }
    if taken { MapWithHolds(g[i], op); }
  }

  lemma TakenOrThere(n: Node, op: Op)
    requires op.Put? || (op.CPut? && op.key in n.mem.diskMap)
    ensures Taken(n, op) || op.key in n.mem.diskMap
  {
  }

  lemma MapWithHolds(n: Node, op: Op)
    requires (op.Put? || op.CPut?) && Taken(n, op)
    ensures op.key in MapWith(n, op) && MapWith(n, op)[op.key] == op.value
  {
    hide View;
  }

  lemma EarlyCounts(c: Common, k: Key, value: string, taken: bool)
    ensures var c' := AfterCheckpoint(AfterCounted(AfterCPut(c, k, value, taken)));
            && c'.version == c.version + (if c.operations + 1 == CHECKPOINT_THRESHOLD then 2 else 1)
            && c'.operations == 0 && c'.modified == {} && c'.metadata == c'.layout && c'.onDisk == c'.view
  {
  }

  lemma LateCounts(c: Common, k: Key, value: string, taken: bool)
    ensures var c' := AfterCPut(AfterCheckpoint(c), k, value, taken);
            && c'.version == c.version + 1 && c'.operations == 1 && c'.modified == {k}
            && c'.onDisk == c.view + Empties(Deleted(c))
  {
  }

  // ---- Writes that are not interrupted, and deletes -------------------------------------------------

  /** After a write that no secondary interrupts every node stands for the same map with the write in it, where it takes
      place, and with the deleted columns that a checkpoint before or after it brought back. */
  lemma WriteLeaves(g: Group, src: nat, op: Op, queues: seq<seq<string>>, g': Group, i: nat)
    requires InStep(g) && src < |g| == |queues| == |g'| && i < |g| && (op.Put? || op.CPut?)
    requires Step(g[0], op).Done? && Step(g[0], op).reply == Success && Replicated(g, src, op, queues, g', Step(g[0], op).node)
    requires NoneSelfForces(g, src, op.key, |op.value|, Forces(g[0], op))
    ensures var n', taken := g'[i], Taken(g[i], op);
            var written := if taken then View(g[i].mem)[op.key := op.value] else View(g[i].mem);
            var checkpointed := Forces(g[0], op) || g[0].operations + 1 == CHECKPOINT_THRESHOLD;
            && Steady(n') && View(n'.mem) == written + Empties(if checkpointed then Limbo(g[i]) - {op.key} else {})
            && n'.version == g[0].version + (if checkpointed then 1 else 0)
    ensures g'[i].log == if Forces(g[0], op) then [RecordOf(op)]
                         else if g[0].operations + 1 == CHECKPOINT_THRESHOLD then [] else g[i].log + [RecordOf(op)]
  {
    hide Steady; hide CommonOf; hide SecondaryPut; hide SecondaryCPut; hide Step; hide After; hide NeedsRoom;
    hide Settling; hide Starting; hide SelfForces; hide View; hide Hollow; hide AfterCPut; hide Taken; hide Empties;
    var forced, c, taken := Forces(g[0], op), CommonOf(g[0]), Taken(g[i], op);
    CommonTells(g[0], g[i]);
    CommonTells(g[0], g[src]);
    if op.CPut? { AcceptedIsThere(g[0], op); TakenAt(g[0], g[i], op); }
    assert taken || op.key in g[i].mem.diskMap by { TakenOrThere(g[i], op); }
    if op.Put? {
      assert taken by { PutIsTaken(g[i], op); }
      CPutOfPut(Starting(c, forced), op);
      if i == 0 { PrimaryPutCommon(g[0], op); } else { ReplicaPut(g[0], g[i], op, g[src].version, queues[i]); }
    } else {
      if i == 0 { PrimaryCPutCommon(g[0], op); } else { ReplicaCPut(g[0], g[i], op, g[src].version, queues[i]); }
    }
    CommonIs(g[0]);
    CommonIs(g'[i]);
    SettledView(c, op, taken, g[i], forced);
    if i == 0 { PrimaryLog(g[0], op); } else { ReplicaLog(g[i], op, forced, queues[i]); }
  }

  /** The primary logs the write after a forced checkpoint and before a counted one. */
  lemma PrimaryLog(n: Node, op: Op)
    requires Step(n, op).Done? && Step(n, op).reply == Success && !op.Get?
    ensures Step(n, op).node.log == if Forces(n, op) then [RecordOf(op)]
                                    else if n.operations + 1 == CHECKPOINT_THRESHOLD then [] else n.log + [RecordOf(op)]
  {
    hide Evict; hide NeedsRoom; hide Demand; hide PutColumn; hide CPutColumn; hide GetColumn; hide DeleteColumn; hide View;
   
  }

  /** And so does a secondary that makes room without a checkpoint of its own. */
  lemma ReplicaLog(n: Node, op: Op, forced: bool, queue: seq<string>)
    requires (op.Put? || op.CPut?) && !SelfForces(After(n, forced), op.key.row, |op.value|, n.version)
    requires SecondaryWrite(After(n, forced), op, n.version, queue).Some?
    ensures SecondaryWrite(After(n, forced), op, n.version, queue).value.log
            == if forced then [RecordOf(op)]
               else if n.operations + 1 == CHECKPOINT_THRESHOLD then [] else n.log + [RecordOf(op)]
  {
    hide Evict; hide NeedsRoom; hide Demand; hide PutColumn; hide CPutColumn;
    UnforcedFields(After(n, forced), op.key.row, |op.value|, queue);
  }

  lemma PutIsTaken(n: Node, op: Op)
    requires op.Put?
    ensures Taken(n, op)
  {
  }

  lemma CPutOfPut(c: Common, op: Op)
    requires op.Put?
    ensures AfterCPut(c, op.key, op.value, true) == AfterPut(c, op.key, op.value)
  {
  }

  lemma SettledView(c: Common, op: Op, taken: bool, n: Node, forced: bool)
    requires CommonOf(n) == c && (op.Put? || op.CPut?) && (taken || op.key in n.mem.diskMap)
    ensures var c' := Settling(AfterCPut(Starting(c, forced), op.key, op.value, taken), forced);
            var written := if taken then View(n.mem)[op.key := op.value] else View(n.mem);
            var checkpointed := forced || c.operations + 1 == CHECKPOINT_THRESHOLD;
            c'.view == written + Empties(if checkpointed then Limbo(n) - {op.key} else {})
            && c'.version == c.version + (if checkpointed then 1 else 0)
  {
    hide Rewritten; hide OnDisk; hide Hollow; hide Empties; hide WithEmpties;
    assert c.view == View(n.mem) && c.layout == LayoutOf(n.mem) && c.modified == n.modified;
    var k := op.key;
    ViewKeys(n.mem);
    assert Deleted(c) == Limbo(n);
    DeletedAfter(c, k, op.value, taken);
    EmptiesOver(c.view, Deleted(c), k, op.value);
    EmptiesOver(c.view, {}, k, op.value);
    if !taken { assert Deleted(c) - {k} == Deleted(c); }
    assert c.view[k := op.value] + Empties({}) == c.view[k := op.value] by {
      EmptiesOver(c.view[k := op.value], {}, k, op.value);
    }
  }

  /** After a delete of a column that is there, it is gone from every node whose resident row does not lack it, unless the
      checkpoint that follows brings it back with the others in `modified`. */
  lemma DeleteLeaves(g: Group, src: nat, op: Op, g': Group, i: nat)
    requires InStep(g) && src < |g| && op.Delete? && GroupDelete(g, src, op, g') && i < |g|
    requires op.key in g[0].mem.diskMap
    ensures var n', k := g'[i], op.key;
            var rest := if k in Hollow(g[i].mem) then View(g[i].mem) else View(g[i].mem) - {k};
            var full := g[0].operations + 1 == CHECKPOINT_THRESHOLD;
            && Steady(n') && n'.version == g[0].version + (if full then 1 else 0)
            && View(n'.mem) == rest + Empties(if full then g[i].modified - rest.Keys else {})
            && n'.log == if full then [] else g[i].log + [RecordOf(op)]
  {
    hide Steady; hide CommonOf; hide SecondaryDelete; hide Step; hide AfterDelete; hide AfterCounted; hide Hollow;
    hide View; hide Empties;
    var k := op.key;
    CommonTells(g[0], g[i]);
    CommonTells(g[0], g[src]);
    SameColumn(g[0], g[i], k);
    PrimaryDeleteCommon(g[0], op);
    if i > 0 { ReplicaDelete(g[src], g[i], k); }
    CommonIs(g[0]);
    CommonIs(g'[i]);
    DeletedView(CommonOf(g[0]), k, k in Hollow(g[i].mem), g[i]);
    if i == 0 { PrimaryLog(g[0], op); } else { DeleteLog(g[i], k); }
  }

  lemma DeleteLog(n: Node, k: Key)
    ensures SecondaryDelete(n, k, n.version).log
            == if n.operations + 1 == CHECKPOINT_THRESHOLD then [] else n.log + [DeleteRecord(k)]
  {
    hide DeleteColumn;
  }

  lemma DeletedView(c: Common, k: Key, hollow: bool, n: Node)
    requires CommonOf(n) == c && k in n.mem.diskMap
    ensures var c', rest := AfterCounted(AfterDelete(c, k, hollow)), if hollow then View(n.mem) else View(n.mem) - {k};
            var full := c.operations + 1 == CHECKPOINT_THRESHOLD;
            && c'.version == c.version + (if full then 1 else 0)
            && c'.view == rest + Empties(if full then n.modified - rest.Keys else {})
  {
    hide OnDisk; hide Hollow; hide Empties; hide WithEmpties;
    ViewKeys(n.mem);
    var rest := if hollow then View(n.mem) else View(n.mem) - {k};
    assert c.view == View(n.mem) && c.layout == LayoutOf(n.mem) && c.modified == n.modified;
    assert Deleted(AfterDelete(c, k, hollow)) == n.modified - rest.Keys;
    EmptiesOver(rest, {}, k, "");
  }

  // ---- A group of three -----------------------------------------------------------------------------

  /** A new node's first write, of one byte, to row "a". */
  lemma FirstByte(capacity: nat, k: Key, value: string, queue: seq<string>, force: bool)
    requires 1 <= capacity < 0x1_0000_0000_0000_0000 && k.row == "a" && |value| == 1
    ensures var n := FreshNode(capacity);
            && !NeedsRoom(n.mem, k.row, 1) && Reserve(n, k.row, 1, queue, force).Some?
            && var n1 := ApplyPut(Reserve(n, k.row, 1, queue, force).value, k, value);
               && Counted(n1) == n1 && n1.operations == n1.version == 1 && n1.mem.resident == {"a"}
               && n1.mem.available == capacity - 1 && n1.mem.rowSizes == map["a" := 1]
  {
    BytesEmpty();
    var m := Consulted(FreshNode(capacity).mem, k.row);
    assert RowOnDisk(m, k.row) == map[];
    SizeTSmall(capacity);
    SizeTSmall(capacity - 1);
  }

  /** A full cache makes room for another row by a checkpoint and the eviction of its first. */
  lemma RoomForSecond(n: Node)
    requires NodeValid(n) && n.mem.available == 0 && n.mem.rowSizes == map["a" := 1] && n.mem.resident == {"a"}
    ensures NeedsRoom(n.mem, "b", 1) && Reserve(n, "b", 1, ["a"], true).Some?
  {
    hide Valid; hide View; hide Hollow; hide Checkpoint;
    var n0 := n.(mem := Consulted(n.mem, "b"));
    ConsultedIsValid(n, "b");
    CheckpointKeeps(n0);
    var m := DropRow(Checkpoint(n0).mem, "a");
    assert RowSize(Checkpoint(n0).mem, "a") == 1 && m.available == 1;
    assert ["a"][1..] == [];
    assert Evict(m, "b", 1, []) == Some(m);
  }

  lemma NewTrioInStep()
    ensures InStep([FreshNode(2), FreshNode(2), FreshNode(1)])
  {
    FreshIsSteady(2);
    FreshIsSteady(1);
  }

  /** A cache with room for one more byte, which a checkpoint does not use up. */
  lemma RoomAfterCheckpoint(n: Node, k: Key)
    requires OneByte(n, 1) && k.row == "b"
    ensures Reserve(n, "b", 1, [], true) == Some(n.(mem := Consulted(n.mem, "b"))) && !NeedsRoom(n.mem, "b", 1)
    ensures SecondaryPut(Checkpoint(n), k, "y", 1, []).Some?
  {
    CheckpointCache(n);
  }

  /** A node whose first write was a byte in row "a". */
  predicate OneByte(n: Node, available: nat) {
    && n.version == n.operations == 1 && n.mem.resident == {"a"} && n.mem.available == available
    && n.mem.rowSizes == map["a" := 1]
  }

  lemma TrioWithOne() returns (g: Group, first: Call, g': Group)
    ensures InStep(g) && GroupStep(g, first, g') && InStep(g')
    ensures |g'| == 3 && OneByte(g'[0], 1) && OneByte(g'[1], 1) && OneByte(g'[2], 0)
  {
    hide Steady; hide CommonOf; hide NodeValid; hide Evict; hide Checkpoint; hide PutColumn;
    var a := Key("a", "c");
    g := [FreshNode(2), FreshNode(2), FreshNode(1)];
    first := Call(0, Put(a, "x", []), [[], [], []]);
    NewTrioInStep();
    FirstByte(2, a, "x", [], true);
    FirstByte(1, a, "x", [], true);
    g' := [Step(g[0], first.op).node, SecondaryPut(g[1], a, "x", 1, []).value, SecondaryPut(g[2], a, "x", 1, []).value];
    PutKeepsStepIff(g, 0, first.op, first.queues, g');
  }

  /** Two puts of one byte to two rows, when two caches have room for both and the last secondary's for one. The second put,
      sent to node `src`, is interrupted: all three nodes then hold it and a get finds it at each. The last, and the one
      that the client called if it is a secondary, have counted a write that the others have not, and their disks have a
      NUL where those have the value. */
  lemma SmallerCacheFallsOut(src: nat) returns (g: Group, first: Call, g1: Group, second: Call, g2: Group)
    requires src < 2
    ensures InStep(g) && GroupStep(g, first, g1) && InStep(g1) && GroupStep(g1, second, g2) && !InStep(g2)
    ensures |g2| == 3 && second.src == src && second.op.key == Key("b", "c") && TrioHas(g2, second.op.key, src)
  {
    hide Steady; hide CommonOf; hide NodeValid; hide Evict; hide Checkpoint; hide PutColumn; hide TrioHas; hide Reserve;
    hide NeedsRoom;
    var b := Key("b", "c");
    g, first, g1 := TrioWithOne();
    second := Call(src, Put(b, "y", []), [[], [], ["a"]]);
    assert NodeValid(g1[2]) by { SteadyIsValid(g1[2]); }
    RoomForSecond(g1[2]);
    RoomAfterCheckpoint(g1[0], b);
    RoomAfterCheckpoint(g1[1], b);
    g2 := [Checkpoint(Step(g1[0], second.op).node),
           if src == 1 then SecondaryPut(Checkpoint(g1[1]), b, "y", 1, []).value
           else Checkpoint(SecondaryPut(g1[1], b, "y", 1, []).value),
           SecondaryPut(g1[2], b, "y", 1, ["a"]).value];
    assert SelfForces(g1[2], "b", 1, g1[src].version);
    assert Interrupted(g1, src, second.op, second.queues, g2, Step(g1[0], second.op).node, 2);
    PutKeepsStepIff(g1, src, second.op, second.queues, g2);
    TrioHolds(g1, second, g2);
  }

  /** What an interrupted put of "y" by the last of three nodes leaves. */
  ghost predicate TrioHas(g: Group, k: Key, src: nat)
    requires |g| == 3
  {
    forall i: nat :: i < 3 ==>
      && (forall queue :: Step(g[i], Get(k, queue)).Done? ==> Step(g[i], Get(k, queue)).reply == Found("y"))
      && if i == 2 || i == src > 0 then
           g[i].operations == 1 && k in g[i].mem.diskMap && ReadExtent(g[i].mem.blocks, g[i].mem.diskMap[k]) == "\0"
         else
           && g[i].operations == 0 && k in OnDisk(g[i].metadata, g[i].mem.blocks)
           && OnDisk(g[i].metadata, g[i].mem.blocks)[k] == "y"
  }

  lemma TrioHolds(g: Group, c: Call, g': Group)
    requires |g| == 3 && c.op.Put? && c.op.value == "y" && c.src < 2
    requires InterruptedWrite(g, c.src, c.op, c.queues, g', 2)
    ensures |g'| == 3 && TrioHas(g', c.op.key, c.src)
  {
    hide View; hide OnDisk; hide Step; hide MapWith; hide Interrupted; hide ReadExtent; hide Steady; hide CommonOf;
    hide NodeValid; hide Empties; hide Limbo;
    assert Zeros(1) == "\0";
    forall i: nat | i < 3
      ensures forall queue :: Step(g'[i], Get(c.op.key, queue)).Done? ==> Step(g'[i], Get(c.op.key, queue)).reply == Found("y")
      ensures if i == 2 || i == c.src > 0 then
                && g'[i].operations == 1 && c.op.key in g'[i].mem.diskMap
                && ReadExtent(g'[i].mem.blocks, g'[i].mem.diskMap[c.op.key]) == "\0"
              else
                && g'[i].operations == 0 && c.op.key in OnDisk(g'[i].metadata, g'[i].mem.blocks)
                && OnDisk(g'[i].metadata, g'[i].mem.blocks)[c.op.key] == "y"
    {
      InterruptedLeaves(g, c.src, c.op, c.queues, g', 2, i);
      forall queue | Step(g'[i], Get(c.op.key, queue)).Done?
        ensures Step(g'[i], Get(c.op.key, queue)).reply == Found("y") {
        GetFinds(g'[i], c.op.key, "y", queue);
      }
    }
  }

  lemma GetFinds(n: Node, k: Key, value: string, queue: seq<string>)
    requires Steady(n) && k in View(n.mem) && View(n.mem)[k] == value && Step(n, Get(k, queue)).Done?
    ensures Step(n, Get(k, queue)).reply == Found(value)
  {
    hide View; hide Step; hide NodeValid; hide Empties; hide Hollow;
    GetAnswers(n, Get(k, queue));
  }
}
