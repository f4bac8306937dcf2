/** A node that comes back to its group (kvstore/kv_store.cpp:207-213, 752-825): why equal versions make a copy of the
    block files unnecessary, when the node is in step again, and the put after which equal versions do not suffice. */
module Rejoining {
  import opened Extents
  import opened Memtable
  import opened Options
  import opened StorageNode
  import opened NodeRuns
  import opened NodeLayout
  import opened LogReplay
  import opened Durability
  import opened BlankDisk
  import opened Recovery
  import opened RestartText
  import opened Lockstep
  import opened Interruption

  // ---- Recovery from the primary --------------------------------------------------------------------

  /** The version never goes back, and while it stays the metadata file and what it names stay. */
  ghost predicate Onwards(c: Common, c': Common) {
    c'.version >= c.version && (c'.version == c.version ==> c'.metadata == c.metadata && c'.onDisk == c.onDisk)
  }

  lemma CountedOnwards(c: Common)
    ensures Onwards(c, AfterCounted(c)) && Onwards(c, AfterCheckpoint(c))
  {
  }

  lemma SettlingOnwards(c: Common, c': Common, forced: bool)
    requires Onwards(c, c')
    ensures Onwards(c, Settling(c', forced))
  {
    CountedOnwards(c');
  }

  lemma StepOnwards(n: Node, op: Op)
    requires Steady(n) && Step(n, op).Done?
    ensures Steady(Step(n, op).node) && Onwards(CommonOf(n), CommonOf(Step(n, op).node))
  {
    hide Steady; hide CommonOf; hide Step; hide AfterCheckpoint; hide View; hide NeedsRoom; hide Rewritten;
    hide AfterCounted; hide Settling; hide Hollow; hide Swaps;
    var c, forced := CommonOf(n), Forces(n, op);
    CountedOnwards(c);
    match op
    case Put(k, v, _) =>
      PrimaryPutCommon(n, op);
      SettlingOnwards(c, AfterPut(Starting(c, forced), k, v), forced);
    case CPut(k, e, v, _) =>
      if k in n.mem.diskMap {
        PrimaryCPutCommon(n, op);
        SettlingOnwards(c, AfterCPut(Starting(c, forced), k, v, Swaps(n.mem, k, e)), forced);
      } else {
        MissingCommon(n, op);
      }
    case Get(_, _) => GetCommon(n, op);
    case Delete(k) =>
      PrimaryDeleteCommon(n, op);
      CountedOnwards(AfterDelete(c, k, k in Hollow(n.mem)));
  }

  /** Over every run from a steady state. */
  lemma {:induction false} RunOnwards(n: Node, ops: seq<Op>)
    requires Steady(n) && Run(n, ops).Some?
    ensures Steady(Run(n, ops).value.0) && Onwards(CommonOf(n), CommonOf(Run(n, ops).value.0))
    decreases |ops|
  {
    hide Steady; hide CommonOf; hide Step;
    if ops == [] {
    } else {
      StepOnwards(n, ops[0]);
      RunOnwards(Step(n, ops[0]).node, ops[1..]);
    }
  }

  /** The files that a restarted node goes by: its own blocks, the primary's metadata and log. */
  function Fetched(s: Node, p: Node): Disk {
    DiskOf(p).(blocks := s.mem.blocks)
  }

  /** Why a node may keep its block files when its version is the primary's: `s` stopped while in step with the primary
      `p`, which then went on to `p'` without a checkpoint. From its own block files with the primary's metadata and
      log, `s` comes back to what `p'` itself would recover to, which, if the log of `p'` explains its map, is that map
      exactly when the log makes every column good; and if the primary's files are legible, this is the restart from
      their texts. */
  lemma EqualVersionsNeedNoCopy(s: Node, p: Node, ops: seq<Op>, capacity: nat, order: seq<Key>)
    requires Steady(s) && Steady(p) && CommonOf(s) == CommonOf(p) && Run(p, ops).Some?
    requires Run(p, ops).value.0.version == s.version && Orders(order, Run(p, ops).value.0.metadata.diskMap)
    ensures var p' := Run(p, ops).value.0;
            var n := Recover(Fetched(s, p'), capacity);
            && View(n.mem) == View(Recover(DiskOf(p'), capacity).mem)
            && (Durable(p') ==> (View(n.mem) == View(p'.mem) <==> AllMadeGood(Unlisted(p'.metadata.diskMap), p'.log)))
            && (Legible(DiskOf(p')) ==>
                  RestartFrom(MetadataFile(DiskOf(p'), order), LogFormat.Received(LogFormat.PrintLog(p'.log)),
                              s.mem.blocks, capacity) == Some((n.mem, n.modified)))
  {
    hide NodeValid; hide Durable; hide Hollow; hide CommonOf; hide Run; hide Recover; hide View; hide Shadowing;
    hide OnDisk; hide Readable; hide AllMadeGood; hide Unlisted; hide RestartFrom; hide MetadataFile;
    var p' := Run(p, ops).value.0;
    FetchedTells(s, p, ops);
    RecoverIsReplay(Fetched(s, p'), capacity);
    RecoverIsReplay(DiskOf(p'), capacity);
    if Durable(p') { RecoverIff(p', capacity); }
    if Legible(DiskOf(p')) {
      LegibleRestarts(Fetched(s, p'), order, capacity);
      assert MetadataFile(Fetched(s, p'), order) == MetadataFile(DiskOf(p'), order) by { SameMetadata(s, p', order); }
    }
  }

  lemma SameMetadata(s: Node, p: Node, order: seq<Key>)
    requires Orders(order, p.metadata.diskMap)
    ensures MetadataFile(Fetched(s, p), order) == MetadataFile(DiskOf(p), order)
  {
  }

  /** What the restarted node finds on its own disk. */
  lemma FetchedTells(s: Node, p: Node, ops: seq<Op>)
    requires Steady(s) && Steady(p) && CommonOf(s) == CommonOf(p)
    requires Run(p, ops).Some? && Run(p, ops).value.0.version == s.version
    ensures var p' := Run(p, ops).value.0;
            && Steady(p') && Readable(s.mem.blocks, p'.metadata) && Readable(p'.mem.blocks, p'.metadata)
            && OnDisk(p'.metadata, s.mem.blocks) == OnDisk(p'.metadata, p'.mem.blocks)
  {
    hide NodeValid; hide Shadowing; hide CommonOf; hide Run; hide View; hide OnDisk; hide Readable;
    RunOnwards(p, ops);
    var p' := Run(p, ops).value.0;
    CommonTells(s, p);
    OnwardsTells(s, p', p);
    ShadowingIsReadable(s);
    ShadowingIsReadable(p');
  }

  lemma OnwardsTells(s: Node, p': Node, p: Node)
    requires CommonOf(s) == CommonOf(p) && Onwards(CommonOf(p), CommonOf(p')) && p'.version == s.version
    ensures p'.metadata == s.metadata
    ensures OnDisk(p'.metadata, p'.mem.blocks) == OnDisk(s.metadata, s.mem.blocks)
  {
    hide OnDisk; hide View;
    assert CommonOf(p').version == p'.version && CommonOf(s).version == s.version;
    assert CommonOf(p').metadata == p'.metadata && CommonOf(s).metadata == s.metadata;
    assert CommonOf(s).onDisk == OnDisk(s.metadata, s.mem.blocks) && CommonOf(p').onDisk == OnDisk(p'.metadata, p'.mem.blocks);
  }

  // ---- Rejoining ------------------------------------------------------------------------------------

  /** The writes of the log that succeeded. */
  function Successes(m: Table, log: seq<Record>): nat
    decreases |log|
  {
    if log == [] then 0 else (if Took(m, log[0]) then 1 else 0) + Successes(Apply(m, log[0]), log[1..])
  }

  predicate Took(m: Table, r: Record) {
    r.CPutRecord? ==> r.key in m && m[r.key] == r.expected
  }

  /** The columns that they stored. */
  function StoredKeys(m: Table, log: seq<Record>): set<Key>
    decreases |log|
  {
    if log == [] then {}
    else (if Took(m, log[0]) && !log[0].DeleteRecord? then {log[0].key} else {}) + StoredKeys(Apply(m, log[0]), log[1..])
  }

  /** A node that has not been restarted since its last checkpoint: its counter and its dirty set are those of the log. */
  ghost predicate Follows(n: Node) {
    var m := OnDisk(n.metadata, n.mem.blocks);
    && n.operations == Successes(m, n.log) && n.modified == StoredKeys(m, n.log)
    && (n.operations == 0 ==> LayoutOf(n.mem) == n.metadata)
  }

  lemma {:induction false} SuccessesAppend(m: Table, log: seq<Record>, r: Record)
    ensures var took := Took(History(m, log), r);
            && Successes(m, log + [r]) == Successes(m, log) + (if took then 1 else 0)
            && StoredKeys(m, log + [r]) == StoredKeys(m, log) + (if took && !r.DeleteRecord? then {r.key} else {})
    decreases |log|
  {
    if log == [] {
      assert log + [r] == [r] && [r][1..] == [];
    } else {
      assert (log + [r])[1..] == log[1..] + [r];
      SuccessesAppend(Apply(m, log[0]), log[1..], r);
    }
  }

  lemma {:induction false} NoneStored(m: Table, log: seq<Record>)
    requires Successes(m, log) == 0
    ensures StoredKeys(m, log) == {}
    decreases |log|
  {
    if log == [] {
    } else {
      NoneStored(Apply(m, log[0]), log[1..]);
    }
  }

  lemma CheckpointFollows(n: Node)
    requires NodeValid(n)
    ensures Follows(Checkpoint(n))
  {
    hide Checkpoint; hide OnDisk; hide NodeValid;
    CheckpointFields(n);
  }

  /** A change of the cache alone. */
  lemma SameFollows(n: Node, n': Node)
    requires Follows(n) && n'.mem.blocks == n.mem.blocks && LayoutOf(n'.mem) == LayoutOf(n.mem)
    requires n'.log == n.log && n'.metadata == n.metadata && n'.modified == n.modified && n'.operations == n.operations
    ensures Follows(n')
  {
    hide OnDisk;
  }

  /** One more logged request. */
  lemma RecordFollows(n: Node, n': Node, r: Record)
    requires NodeValid(n) && Durable(n) && Follows(n)
    requires n'.metadata == n.metadata && n'.log == n.log + [r]
    requires AgreeBefore(n.mem.blocks, n'.mem.blocks, n.mem.blockId, n.mem.blockOffset)
    requires n'.operations == n.operations + (if Took(View(n.mem), r) then 1 else 0)
    requires n'.modified == n.modified + (if Took(View(n.mem), r) && !r.DeleteRecord? then {r.key} else {})
    requires !Took(View(n.mem), r) ==> LayoutOf(n'.mem) == LayoutOf(n.mem)
    ensures Follows(n')
  {
    hide NodeValid; hide View; hide OnDisk; hide AgreeBefore; hide Shadowed; hide ExtentsApart; hide ExtentsOk; hide Took;
    var l := n.metadata;
    AgreeMonotone(n.mem.blocks, n'.mem.blocks, l.blockId, l.blockOffset, n.mem.blockId, n.mem.blockOffset);
    AgreeOnDisk(l, n.mem.blocks, n'.mem.blocks);
    SuccessesAppend(OnDisk(l, n.mem.blocks), n.log, r);
  }

  lemma ReserveFollows(n: Node, row: string, size: nat, queue: seq<string>)
    requires NodeValid(n) && Follows(n) && Reserve(n, row, size, queue, true).Some?
    ensures Follows(Reserve(n, row, size, queue, true).value)
  {
    hide Valid; hide View; hide Hollow; hide Checkpoint; hide Evict; hide NeedsRoom; hide Demand; hide Follows;
    var n0 := n.(mem := Consulted(n.mem, row));
    SameTable(n.mem, n0.mem);
    SameFollows(n, n0);
    if NeedsRoom(n.mem, row, size) {
      CheckpointKeeps(n0);
      CheckpointFollows(n0);
      var n1 := Checkpoint(n0);
      EvictKeeps(n1.mem, row, Demand(n.mem, row, size), queue);
      SameFollows(n1, Reserve(n, row, size, queue, true).value);
    }
  }

  lemma CountedFollows(n: Node)
    requires NodeValid(n) && Follows(n)
    ensures Follows(Counted(n))
  {
    hide NodeValid; hide Follows; hide Checkpoint;
    if n.operations == CHECKPOINT_THRESHOLD { CheckpointFollows(n); }
  }

  lemma PutFollows(n: Node, op: Op)
    requires Good(n) && Follows(n) && op.Put? && Step(n, op).Done?
    ensures Follows(Step(n, op).node)
  {
    hide Valid; hide View; hide Hollow; hide Reserve; hide Counted; hide PutColumn; hide Follows; hide Durable;
    var n1 := Reserve(n, op.key.row, |op.value|, op.queue, true).value;
    ReserveKeeps(n, op.key.row, |op.value|, op.queue);
    ReserveDurable(n, op.key.row, |op.value|, op.queue);
    ReserveFollows(n, op.key.row, |op.value|, op.queue);
    PutColumnKeeps(n1.mem, op.key, op.value, n1.modified);
    var n2 := ApplyPut(n1, op.key, op.value);
    RecordFollows(n1, n2, PutRecord(op.key, op.value));
    ApplyPutValid(n1, op.key, op.value);
    CountedFollows(n2);
  }

  lemma CPutFollows(n: Node, op: Op)
    requires Good(n) && Follows(n) && op.CPut? && op.key in n.mem.diskMap && Step(n, op).Done?
    ensures Follows(Step(n, op).node)
  {
    hide Valid; hide View; hide Hollow; hide Reserve; hide Counted; hide ApplyCPut; hide Follows; hide Durable;
    hide AgreeBefore; hide Empties;
    var k, e, v := op.key, op.expected, op.value;
    var n1 := Reserve(n, k.row, |v|, op.queue, true).value;
    ReserveKeeps(n, k.row, |v|, op.queue);
    ReserveDurable(n, k.row, |v|, op.queue);
    ReserveFollows(n, k.row, |v|, op.queue);
    var n2 := ApplyCPut(n1, k, e, v).1;
    ViewKeys(n1.mem);
    ApplyCPutKeeps(n1, k, e, v);
    ApplyCPutLayout(n1, k, e, v);
    ApplyCPutDisk(n1, k, e, v);
    RecordFollows(n1, n2, CPutRecord(k, e, v));
    ApplyCPutValid(n1, k, e, v);
    CountedFollows(n2);
  }

  lemma ApplyCPutDisk(n: Node, k: Key, expected: string, value: string)
    requires NodeValid(n)
    ensures var n' := ApplyCPut(n, k, expected, value).1;
            n'.metadata == n.metadata && n'.log == n.log + [CPutRecord(k, expected, value)]
            && AgreeBefore(n.mem.blocks, n'.mem.blocks, n.mem.blockId, n.mem.blockOffset)
  {
    hide Valid; hide View; hide Hollow; hide AgreeBefore; hide ExtentNotBefore; hide CPutColumn; hide GetColumn;
    var m := GetColumn(n.mem, k).1;
    GetColumnKeeps(n.mem, k, n.modified);
    CPutColumnKeeps(m, k, expected, value, n.modified);
  }

  lemma GetFollows(n: Node, op: Op)
    requires Good(n) && Follows(n) && op.Get? && Step(n, op).Done?
    ensures Follows(Step(n, op).node)
  {
    hide Valid; hide View; hide Hollow; hide Checkpoint; hide Evict; hide GetColumn; hide Follows; hide Durable;
    var k := op.key;
    if k in n.mem.diskMap {
      if k.row in n.mem.resident {
        GetColumnKeeps(n.mem, k, n.modified);
        SameFollows(n, Step(n, op).node);
      } else {
        CheckpointKeeps(n);
        CheckpointFollows(n);
        var n1 := Checkpoint(n);
        var m := Sized(n1.mem, k.row);
        SameTable(n1.mem, m);
        EvictKeeps(m, k.row, SizeT(RowSize(m, k.row)), op.queue);
        var n2 := n1.(mem := Evict(m, k.row, SizeT(RowSize(m, k.row)), op.queue).value);
        GetColumnKeeps(n2.mem, k, n2.modified);
        SameFollows(n1, Step(n, op).node);
      }
    }
  }

  lemma DeleteFollows(n: Node, op: Op)
    requires Good(n) && Follows(n) && op.Delete?
    ensures Follows(Step(n, op).node)
  {
    hide Valid; hide View; hide Hollow; hide Counted; hide DeleteColumn; hide Follows; hide Durable;
    if op.key in n.mem.diskMap {
      var n2 := ApplyDelete(n, op.key);
      DeleteColumnKeeps(n.mem, op.key, n.modified);
      SelfAgrees(n.mem.blocks, n.mem.blockId, n.mem.blockOffset);
      RecordFollows(n, n2, DeleteRecord(op.key));
      ApplyDeleteValid(n, op.key);
      CountedFollows(n2);
    }
  }

  /** Every run from a node that follows its log ends in one. */
  lemma {:induction false} RunFollows(n: Node, ops: seq<Op>)
    requires Good(n) && Follows(n) && Run(n, ops).Some? && NothingResurrected(n, ops)
    ensures Follows(Run(n, ops).value.0)
    decreases |ops|
  {
    hide Good; hide Follows; hide Step; hide Resurrected;
    if ops == [] {
    } else {
      var op := ops[0];
      assert Follows(Step(n, op).node) by { StepFollows(n, op); }
      StepGood(n, op);
      RunFollows(Step(n, op).node, ops[1..]);
    }
  }

  lemma StepGood(n: Node, op: Op)
    requires Good(n) && Step(n, op).Done? && Resurrected(n, op) == {}
    ensures Good(Step(n, op).node)
  {
    hide Clean; hide Durable; hide Step; hide Resurrected; hide View;
    StepRefinesIff(n, op);
    StepDurable(n, op);
  }

  lemma StepFollows(n: Node, op: Op)
    requires Good(n) && Follows(n) && Step(n, op).Done?
    ensures Follows(Step(n, op).node)
  {
    hide Good; hide Follows;
    match op
    case Put(_, _, _) => PutFollows(n, op);
    case CPut(_, _, _, _) => if op.key in n.mem.diskMap { CPutFollows(n, op); }
    case Get(_, _) => GetFollows(n, op);
    case Delete(_) => DeleteFollows(n, op);
  }

  lemma FreshFollows(capacity: nat)
    ensures Follows(FreshNode(capacity))
  {
  }

  /** A restarted node is in step with the primary `p` exactly when `p` has logged nothing since its last checkpoint and
      its metadata file names no column without a fragment: otherwise the counter of operations, which starts at 0 again,
      the dirty set, which names every logged column, or the layout differ. */
  lemma RejoinsInStepIff(s: Node, p: Node, capacity: nat)
    requires Good(p) && Follows(p) && Readable(s.mem.blocks, p.metadata)
    requires OnDisk(p.metadata, s.mem.blocks) == OnDisk(p.metadata, p.mem.blocks)
    ensures Good(Recover(Fetched(s, p), capacity)) && CommonOf(Recover(Fetched(s, p), capacity)) == CommonOf(p)
            <==> p.log == [] && Unlisted(p.metadata.diskMap) == {}
  {
    hide NodeValid; hide View; hide OnDisk; hide Readable; hide RedoAll; hide Shadowing; hide Hollow; hide AllMadeGood;
    var n := Recover(Fetched(s, p), capacity);
    var m := OnDisk(p.metadata, p.mem.blocks);
    if p.log == [] && Unlisted(p.metadata.diskMap) == {} {
      NothingToMakeGood();
      RecoversWellIff(Fetched(s, p), View(p.mem), capacity);
      RecoveredCommon(s, p, capacity);
    } else if CommonOf(n) == CommonOf(p) {
      assert CommonOf(n).operations == 0 && CommonOf(p).operations == p.operations;
      assert CommonOf(n).modified == LogKeys(p.log) && CommonOf(p).modified == p.modified;
      NoneStored(m, p.log);
      NoKeysNoLog(p.log);
      RecoveredLayout(s, p, capacity);
      assert CommonOf(n).layout == LayoutOf(n.mem) && CommonOf(p).layout == LayoutOf(p.mem);
      ReadBackSame(p.metadata.diskMap);
    }
  }

  lemma NoKeysNoLog(log: seq<Record>)
    ensures LogKeys(log) == {} ==> log == []
  {
  }

  lemma NothingToMakeGood()
    ensures AllMadeGood({}, []) && RowsLoaded([])
  {
  }

  lemma ReadBackSame(d: DiskMap)
    ensures ReadBack(d) == d <==> Unlisted(d) == {}
  {
    if ReadBack(d) == d {
      forall k | k in d ensures d[k] != [] { assert k in ReadBack(d); }
    } else {
      var k :| k in d && (k !in ReadBack(d) || ReadBack(d)[k] != d[k]);
      assert k in Unlisted(d);
    }
  }

  lemma RecoveredLayout(s: Node, p: Node, capacity: nat)
    requires p.log == []
    ensures LayoutOf(Recover(Fetched(s, p), capacity).mem)
            == Layout(ReadBack(p.metadata.diskMap), p.metadata.blockId, p.metadata.blockOffset)
    ensures Recover(Fetched(s, p), capacity).mem.blocks == s.mem.blocks
  {
  }

  lemma RecoveredCommon(s: Node, p: Node, capacity: nat)
    requires Follows(p) && p.log == [] && Unlisted(p.metadata.diskMap) == {}
    requires OnDisk(p.metadata, s.mem.blocks) == OnDisk(p.metadata, p.mem.blocks)
    requires View(Recover(Fetched(s, p), capacity).mem) == View(p.mem)
    ensures CommonOf(Recover(Fetched(s, p), capacity)) == CommonOf(p)
  {
    hide View; hide OnDisk; hide RedoAll; hide Restarted;
    RecoveredLayout(s, p, capacity);
    ReadBackSame(p.metadata.diskMap);
  }

  // ---- An interrupted write -------------------------------------------------------------------------

  lemma RewrittenWithEmpties(l: Layout, back: set<Key>, k: Key, size: nat)
    ensures Rewritten(WithEmpties(l, back), k, size) == WithEmpties(Rewritten(l, k, size), back - {k})
  {
    var e := Place(l.blockId, l.blockOffset, size).extent;
    assert (l.diskMap + (map j | j in back :: []))[k := e] == l.diskMap[k := e] + (map j | j in back - {k} :: []);
  }

  /** The write before the checkpoint or after it: the layout is the same. */
  lemma WriteAcrossCheckpoint(c: Common, k: Key, value: string)
    requires c.operations + 1 != CHECKPOINT_THRESHOLD
    ensures var before := AfterCheckpoint(AfterCounted(AfterCPut(c, k, value, true)));
            before.metadata == AfterCPut(AfterCheckpoint(c), k, value, true).layout
  {
    hide WithEmpties; hide Empties; hide Rewritten;
    RewrittenWithEmpties(c.layout, Deleted(c), k, |value|);
    RewrittenKeys(c.layout, k, |value|);
    assert Deleted(AfterPut(c, k, value)) == Deleted(c) - {k};
  }

  lemma RewrittenKeys(l: Layout, k: Key, size: nat)
    ensures Rewritten(l, k, size).diskMap.Keys == l.diskMap.Keys + {k}
  {
  }

  /** The disk of a node that has written a column since its last checkpoint: all is there but that column, which is
      blank. */
  lemma AllButOne(n: Node, op: Op)
    requires Steady(n) && n.modified == {} && (op.Put? || op.CPut?) && Taken(n, op)
    ensures var m, k := Bare(n, op).mem, op.key;
            k in m.diskMap && OnDisk(LayoutOf(m), m.blocks) == View(m)[k := Zeros(|op.value|)]
  {
    hide Steady; hide Valid; hide View; hide Hollow; hide Appended; hide Rewritten; hide Bare; hide Taken; hide OnDisk;
    BareIsCached(n, op);
    BareTells(n, op);
    SteadyIsValid(n);
    OthersOnDisk(n.mem, Bare(n, op).mem, op.key, op.value);
  }

  lemma BareTells(n: Node, op: Op)
    requires Steady(n) && (op.Put? || op.CPut?) && Taken(n, op)
    ensures var m, k := Bare(n, op).mem, op.key;
            && View(m) == View(n.mem)[k := op.value] && LayoutOf(m) == Rewritten(LayoutOf(n.mem), k, |op.value|)
            && Appended(n.mem, m)
  {
    hide Valid; hide View; hide Hollow; hide Appended; hide ExtentNotBefore; hide PutColumn; hide CPutColumn;
    hide Rewritten; hide Shadowing; hide BlankBeyond;
    if op.Put? {
      PutColumnKeeps(n.mem, op.key, op.value, n.modified);
    } else {
      CPutColumnKeeps(n.mem, op.key, op.expected, op.value, n.modified);
    }
  }

  lemma OthersOnDisk(m0: Mem, m: Mem, k: Key, value: string)
    requires Valid(m0, {}) && Appended(m0, m) && View(m) == View(m0)[k := value]
    requires LayoutOf(m) == Rewritten(LayoutOf(m0), k, |value|)
    requires k in m.diskMap && ReadExtent(m.blocks, m.diskMap[k]) == Zeros(|value|)
    ensures OnDisk(LayoutOf(m), m.blocks) == View(m)[k := Zeros(|value|)]
  {
    hide Valid; hide View; hide Appended; hide Rewritten; hide ReadExtent; hide OnDisk;
    CleanIsOnDisk(m0);
    BelowPointer(m0, m, {});
    RewrittenTells(LayoutOf(m0), k, |value|);
    ViewKeys(m);
    OnDiskReads(LayoutOf(m0), m.blocks);
    OnDiskReads(LayoutOf(m), m.blocks);
    forall j | j in m.diskMap && j != k ensures ReadExtent(m.blocks, m.diskMap[j]) == View(m)[j] {
      assert OnDisk(LayoutOf(m0), m0.blocks)[j] == View(m0)[j];
    }
  }

  lemma OnDiskReads(l: Layout, b: Blocks)
    ensures OnDisk(l, b).Keys == l.diskMap.Keys
    ensures forall j :: j in l.diskMap ==> OnDisk(l, b)[j] == ReadExtent(b, l.diskMap[j])
  {
  }

  lemma RewrittenTells(l: Layout, k: Key, size: nat)
    ensures var d := Rewritten(l, k, size).diskMap;
            k in d && d.Keys == l.diskMap.Keys + {k} && forall j :: j in d && j != k ==> d[j] == l.diskMap[j]
  {
  }

  lemma BelowPointer(m: Mem, m': Mem, dirty: set<Key>)
    requires Valid(m, dirty) && Appended(m, m')
    ensures OnDisk(LayoutOf(m), m'.blocks) == OnDisk(LayoutOf(m), m.blocks)
  {
    hide CacheOk; hide CleanOnDisk; hide DirtyResident; hide OnDisk; hide ExtentsOk; hide ExtentsApart; hide AgreeBefore;
    AgreeOnDisk(LayoutOf(m), m.blocks, m'.blocks);
  }

  /** The versions of the primary and of a secondary that wrote late are equal exactly when the write was not one that a
      counted checkpoint follows. */
  lemma InterruptedVersionsIff(g: Group, src: nat, op: Op, queues: seq<seq<string>>, g': Group, f: nat, i: nat)
    requires InterruptedWrite(g, src, op, queues, g', f) && 0 < i < |g| && !Earlier(i, f, src)
    ensures g'[i].version == g'[0].version <==> g[0].operations + 1 != CHECKPOINT_THRESHOLD
  {
    hide InterruptedWrite; hide MapWith; hide View; hide OnDisk; hide Taken;
    assert (op.Put? || op.CPut?) && |g'| == |g| by { InterruptedIs(g, src, op, queues, g', f); }
    InterruptedLeaves(g, src, op, queues, g', f, 0);
    InterruptedLeaves(g, src, op, queues, g', f, i);
  }

  lemma InterruptedIs(g: Group, src: nat, op: Op, queues: seq<seq<string>>, g': Group, f: nat)
    requires InterruptedWrite(g, src, op, queues, g', f)
    ensures (op.Put? || op.CPut?) && |g'| == |g| > 0 && f < |g|
  {
  }

  /** The files of the two. */
  lemma InterruptedFiles(g: Group, src: nat, op: Op, queues: seq<seq<string>>, g': Group, f: nat, i: nat)
    requires InterruptedWrite(g, src, op, queues, g', f) && 0 < i < |g| && !Earlier(i, f, src)
    requires Taken(g[0], op) && Taken(g[i], op) && g'[i].version == g'[0].version
    ensures var p, s := g'[0], g'[i];
            && Steady(p) && Steady(s) && p.log == [] && p.metadata == LayoutOf(s.mem) && View(p.mem) == View(s.mem)
            && op.key in View(s.mem) && View(s.mem)[op.key] == op.value
            && OnDisk(LayoutOf(s.mem), s.mem.blocks) == View(s.mem)[op.key := Zeros(|op.value|)]
  {
    InterruptedVersionsIff(g, src, op, queues, g', f, i);
    InterruptedLeaves(g, src, op, queues, g', f, 0);
    InterruptedLeaves(g, src, op, queues, g', f, i);
    CommonTells(g[0], g[i]);
    assert MapWith(g[i], op) == MapWith(g[0], op) by { SameMapWith(g[0], g[i], op); }
    hide Interrupted; hide Steady; hide CommonOf; hide View; hide OnDisk; hide AfterCheckpoint; hide AfterCounted;
    hide AfterCPut; hide Bare; hide Taken; hide Step; hide Hollow; hide MapWith; hide ServedBefore;
    InterruptedPrimary(g, src, op, queues, g', f);
    var n := InterruptedLate(g, src, op, queues, g', f, i);
    BareCommon(n, op);
    CommonIs(n);
    CommonIs(g[0]);
    CheckpointedCounts(CommonOf(g[0]));
    AllButOne(n, op);
    WriteAcrossCheckpoint(CommonOf(g[0]), op.key, op.value);
    CommonIs(g'[0]);
    CommonIs(g'[i]);
  }

  lemma SameMapWith(p: Node, n: Node, op: Op)
    requires View(n.mem) == View(p.mem) && LayoutOf(n.mem) == LayoutOf(p.mem) && n.modified == p.modified
    requires (op.Put? || op.CPut?) && Taken(p, op) && Taken(n, op)
    ensures MapWith(n, op) == MapWith(p, op)
  {
    hide View; hide Taken; hide Empties;
    assert Limbo(n) == Limbo(p);
  }

  /** A secondary that wrote late, in an interrupted write after which the versions are equal, has the primary's version and
      lacks its bytes: the new extent is in the primary's metadata file, the log is empty, and the secondary has the value
      in its cache only. If it is restarted then, its version matches and no block file is copied, and it comes back to
      the primary's map exactly when the value has no bytes but NULs and the metadata file names no column without a
      fragment. */
  lemma InterruptedWriteSurvivesIff(g: Group, src: nat, op: Op, queues: seq<seq<string>>, g': Group, f: nat, i: nat,
                                    capacity: nat)
    requires InterruptedWrite(g, src, op, queues, g', f) && 0 < i < |g| && !Earlier(i, f, src)
    requires Taken(g[0], op) && Taken(g[i], op) && g'[i].version == g'[0].version
    ensures View(Recover(Fetched(g'[i], g'[0]), capacity).mem) == View(g'[0].mem)
            <==> Unlisted(g'[0].metadata.diskMap) == {} && op.value == Zeros(|op.value|)
  {
    hide NodeValid; hide Shadowing; hide BlankBeyond; hide Interrupted; hide View; hide OnDisk; hide Recover; hide Step;
    hide Taken; hide Earlier;
    InterruptedFiles(g, src, op, queues, g', f, i);
    var p, s := g'[0], g'[i];
    assert Readable(s.mem.blocks, p.metadata) by { LayoutIsReadable(s); }
    RecoverIsReplay(Fetched(s, p), capacity);
    OnDiskKeys(p.metadata, s.mem.blocks);
    FoundIff(View(p.mem), Unlisted(p.metadata.diskMap), op.key, Zeros(|op.value|));
  }

  lemma FoundIff(m: Table, missing: set<Key>, k: Key, bytes: string)
    requires k in m && missing <= m.Keys
    ensures m[k := bytes] - missing == m <==> missing == {} && bytes == m[k]
  {
    if missing == {} {
      assert m[k := bytes] - missing == m[k := bytes];
      assert m[k := bytes][k] == bytes;
    } else {
      var j :| j in missing;
      assert j in m && j !in m[k := bytes] - missing;
    }
  }

  lemma LayoutIsReadable(n: Node)
    requires NodeValid(n)
    ensures Readable(n.mem.blocks, LayoutOf(n.mem))
  {
    hide ExtentsOk; hide ExtentsApart; hide CacheOk; hide CleanOnDisk;
  }
}
