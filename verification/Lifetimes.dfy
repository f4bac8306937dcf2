/** Whole lifetimes of a storage node: requests, and crashes between requests, inside checkpoints and inside writes, each
    followed by a restart from the files. */
module Lifetimes {
  import opened Extents
  import opened Memtable
  import opened Options
  import opened Checkpointing
  import opened StorageNode
  import opened NodeRuns
  import opened LogReplay
  import opened Durability
  import opened BlankDisk
  import opened Recovery
  import opened RestartText
  import opened CrashPoints

  // ---- Where a node can crash -----------------------------------------------------------------------

  /** A forced checkpoint comes before the request is logged, a counted one after it is applied. `blocks` are the block
      files as the crash leaves them. */
  datatype Moment =
    | Between
    | InForced(op: Op, blocks: Blocks)
    | ForcedUntruncated(op: Op)
    | Checkpointed(op: Op)
    | Logged(op: Op, blocks: Blocks)
    | InCounted(op: Op, blocks: Blocks)
    | CountedUntruncated(op: Op)

  datatype Event = Request(op: Op) | Crash(at: Moment, capacity: nat)

  predicate LogsIt(n: Node, op: Op) {
    op.Put? || ((op.CPut? || op.Delete?) && op.key in n.mem.diskMap)
  }

  /** The node once there is room for the request. */
  ghost function Made(n: Node, op: Op): Option<Node> {
    if op.Put? || op.CPut? then Reserve(n, op.key.row, |op.value|, op.queue, true) else Some(n)
  }

  /** The node once the request is applied, where it then counts towards the next checkpoint. */
  ghost function Applied(n: Node, op: Op): Option<Node> {
    if !LogsIt(n, op) || Made(n, op).None? then None
    else
      var n1 := Made(n, op).value;
      match op
      case Put(k, v, _) => Some(ApplyPut(n1, k, v))
      case CPut(k, e, v, _) =>
        var (r, n2) := ApplyCPut(n1, k, e, v);
        if r.Mismatch? then None else Some(n2)
      case Delete(k) => Some(ApplyDelete(n1, k))
      case Get(_, _) => None
  }

  /** The node on which the forced checkpoint is taken. */
  function ForcedOn(n: Node, op: Op): Node {
    if op.Get? then n else n.(mem := Consulted(n.mem, op.key.row))
  }

  ghost predicate Counting(n: Node, op: Op) {
    Applied(n, op).Some? && Applied(n, op).value.operations == CHECKPOINT_THRESHOLD
  }

  ghost predicate Occurs(n: Node, at: Moment) {
    match at
    case Between => true
    case InForced(op, b) => Forces(n, op) && Torn(n.mem, n.modified, b)
    case ForcedUntruncated(op) => Forces(n, op)
    case Checkpointed(op) => Forces(n, op)
    case Logged(op, b) => LogsIt(n, op) && Made(n, op).Some? && Recreating(Made(n, op).value.mem, b)
    case InCounted(op, b) => Counting(n, op) && Torn(Applied(n, op).value.mem, Applied(n, op).value.modified, b)
    case CountedUntruncated(op) => Counting(n, op)
  }

  /** The files that the crash leaves. */
  ghost function DiskAt(n: Node, at: Moment): Disk
    requires Occurs(n, at)
  {
    match at
    case Between => DiskOf(n)
    case InForced(_, b) => DiskOf(n).(blocks := b)
    case ForcedUntruncated(op) => Untruncated(ForcedOn(n, op))
    case Checkpointed(op) => DiskOf(Checkpoint(ForcedOn(n, op)))
    case Logged(op, b) =>
      var n1 := Made(n, op).value;
      DiskOf(n1).(blocks := b, log := n1.log + [RecordOf(op)])
    case InCounted(op, b) => DiskOf(Applied(n, op).value).(blocks := b)
    case CountedUntruncated(op) => Untruncated(Applied(n, op).value)
  }

  predicate IsUntruncated(at: Moment) {
    at.ForcedUntruncated? || at.CountedUntruncated?
  }

  /** The plain map at that moment: a request counts from the time it is logged. */
  function Meanwhile(m: Table, at: Moment): Table {
    match at
    case Between => m
    case InForced(_, _) => m
    case ForcedUntruncated(_) => m
    case Checkpointed(_) => m
    case Logged(op, _) => PlainStep(m, op).0
    case InCounted(op, _) => PlainStep(m, op).0
    case CountedUntruncated(op) => PlainStep(m, op).0
  }

  /** The deleted columns that the request's forced checkpoint has brought back by then. */
  function BroughtBack(n: Node, at: Moment): set<Key> {
    if at.Checkpointed? then Limbo(n)
    else if (at.Logged? || at.InCounted?) && Forces(n, at.op) then Limbo(n) - (if at.op.Put? then {at.op.key} else {})
    else {}
  }

  /** The moments of a request lead from one to the next, from the files before it to those after it: each step writes
      block files, or the metadata file, or the log. */
  lemma MomentsLeadOn(n: Node, op: Op)
    requires NodeValid(n) && Step(n, op).Done?
    ensures Forces(n, op) ==> ForcedLeadOn(n, op)
    ensures LogsIt(n, op) ==> Made(n, op).Some? && LoggedLeadOn(n, op)
    ensures !LogsIt(n, op) ==> DiskOf(Step(n, op).node) == DiskAt(n, if Forces(n, op) then Checkpointed(op) else Between)
  {
    hide Valid; hide View; hide Evict; hide Reserve; hide Forces; hide Counted; hide ForcedLeadOn; hide LoggedLeadOn;
    hide NeedsRoom; hide DiskAt;
    if Forces(n, op) { ForcedMoments(n, op); }
    if LogsIt(n, op) { LoggedMoments(n, op); } else { UnloggedMoments(n, op); }
  }

  /** The forced checkpoint: blocks, metadata, log. */
  ghost predicate ForcedLeadOn(n: Node, op: Op)
    requires Forces(n, op)
  {
    var c := Checkpoint(ForcedOn(n, op));
    && Occurs(n, InForced(op, n.mem.blocks)) && DiskAt(n, InForced(op, n.mem.blocks)) == DiskAt(n, Between)
    && Occurs(n, InForced(op, c.mem.blocks))
    && DiskAt(n, ForcedUntruncated(op)) == DiskAt(n, InForced(op, c.mem.blocks)).(metadata := c.metadata, saved := true)
    && DiskAt(n, Checkpointed(op)) == DiskAt(n, ForcedUntruncated(op)).(log := [], version := n.version + 1)
  }

  /** The record. */
  ghost predicate RecordLeadsOn(n: Node, op: Op)
    requires LogsIt(n, op) && Made(n, op).Some?
  {
    var d := DiskAt(n, if Forces(n, op) then Checkpointed(op) else Between);
    Occurs(n, Logged(op, d.blocks)) && DiskAt(n, Logged(op, d.blocks)) == d.(log := d.log + [RecordOf(op)])
  }

  /** The block files: `done` is the node after the write. */
  ghost predicate WriteLeadsOn(n: Node, op: Op, done: Node)
    requires LogsIt(n, op) && Made(n, op).Some?
  {
    Occurs(n, Logged(op, done.mem.blocks)) && DiskOf(done) == DiskAt(n, Logged(op, done.mem.blocks))
  }

  /** The counted checkpoint: blocks, metadata, log. */
  ghost predicate CountedLeadsOn(n: Node, op: Op, done: Node)
    requires Counting(n, op)
  {
    var a := Applied(n, op).value;
    && Occurs(n, InCounted(op, a.mem.blocks)) && Occurs(n, InCounted(op, done.mem.blocks))
    && DiskAt(n, InCounted(op, a.mem.blocks)) == DiskOf(a)
    && DiskAt(n, CountedUntruncated(op)) == DiskAt(n, InCounted(op, done.mem.blocks)).(metadata := done.metadata, saved := true)
    && DiskOf(done) == DiskAt(n, CountedUntruncated(op)).(log := [], version := a.version + 1)
  }

  /** The record, the block files, and then the checkpoint if the request is one that a counted checkpoint follows. */
  ghost predicate LoggedLeadOn(n: Node, op: Op)
    requires LogsIt(n, op) && Made(n, op).Some? && Step(n, op).Done?
  {
    && RecordLeadsOn(n, op)
    && if Counting(n, op) then
         WriteLeadsOn(n, op, Applied(n, op).value) && CountedLeadsOn(n, op, Step(n, op).node)
       else WriteLeadsOn(n, op, Step(n, op).node)
  }

  lemma Untorn(m: Mem, modified: set<Key>)
    requires Valid(m, modified)
    ensures Torn(m, modified, m.blocks) && Torn(m, modified, Flush(m.blocks, m, modified))
  {
    FlushIsTorn(m, modified, {});
    FlushIsTorn(m, modified, modified);
  }

  lemma CheckpointWrites(n: Node)
    ensures var c := Checkpoint(n);
            && c.mem.blocks == Flush(n.mem.blocks, n.mem, n.modified) && c.saved
            && DiskOf(c) == Untruncated(n).(log := [], version := n.version + 1)
            && Untruncated(n) == DiskOf(n).(blocks := c.mem.blocks, metadata := c.metadata, saved := true)
  {
  }

  lemma ForcedMoments(n: Node, op: Op)
    requires NodeValid(n) && Forces(n, op)
    ensures ForcedLeadOn(n, op)
  {
    hide Valid; hide Torn; hide Checkpoint; hide Untruncated; hide Forces; hide Flush;
    Untorn(n.mem, n.modified);
    var n0 := ForcedOn(n, op);
    CheckpointWrites(n0);
    ConsultedFlush(n, op);
  }

  lemma ConsultedFlush(n: Node, op: Op)
    requires NodeValid(n)
    ensures var n0 := ForcedOn(n, op);
            Flush(n0.mem.blocks, n0.mem, n0.modified) == Flush(n.mem.blocks, n.mem, n.modified)
  {
    if !op.Get? { SizedFlush(n.mem.blocks, n.mem, ForcedOn(n, op).mem, n.modified); }
  }

  /** The flush depends on the cache and `disk_map` only. */
  lemma {:induction false} SizedFlush(b: Blocks, m: Mem, m': Mem, todo: set<Key>)
    requires m'.cache == m.cache && m'.diskMap == m.diskMap && ExtentsApart(m.diskMap)
    ensures Flush(b, m', todo) == Flush(b, m, todo)
    decreases todo
  {
    if todo == {} {
    } else {
      var k :| k in todo;
      FlushAny(b, m, todo, k);
      FlushAny(b, m', todo, k);
      SizedFlush(FlushKey(b, m, k), m, m', todo - {k});
    }
  }

  lemma MadeDisk(n: Node, op: Op)
    requires NodeValid(n) && LogsIt(n, op) && Made(n, op).Some?
    ensures NodeValid(Made(n, op).value)
    ensures DiskOf(Made(n, op).value) == DiskAt(n, if Forces(n, op) then Checkpointed(op) else Between)
  {
    hide Valid; hide View; hide Hollow; hide Checkpoint; hide Evict; hide NeedsRoom; hide Demand; hide Empties;
    if op.Put? || op.CPut? {
      ReserveValid(n, op.key.row, |op.value|, op.queue);
      if Forces(n, op) {
        var c := Checkpoint(ForcedOn(n, op));
        ConsultedValid(n, op.key.row);
        CheckpointKeeps(ForcedOn(n, op));
        EvictKeeps(c.mem, op.key.row, Demand(n.mem, op.key.row, |op.value|), op.queue);
      }
    }
  }

  lemma SelfRecreating(m: Mem)
    requires Allocated(m.blocks, m.blockId)
    ensures Recreating(m, m.blocks)
  {
  }

  /** What a write does to the files before any checkpoint. */
  ghost predicate WritesFiles(n: Node, n': Node, r: Record) {
    Recreating(n.mem, n'.mem.blocks) && DiskOf(n') == DiskOf(n).(blocks := n'.mem.blocks, log := n.log + [r])
  }

  lemma PutFiles(n: Node, k: Key, value: string)
    requires NodeValid(n)
    ensures WritesFiles(n, ApplyPut(n, k, value), PutRecord(k, value))
  {
    hide PutColumn; hide Recreating; hide CacheOk; hide CleanOnDisk; hide DirtyResident; hide Recreated;
    PutPlaces(n.mem, k, value);
    RecreatedIsRecreating(n.mem, PutColumn(n.mem, k, value).blockId);
  }

  lemma CPutFiles(n: Node, k: Key, expected: string, value: string)
    requires NodeValid(n)
    ensures WritesFiles(n, ApplyCPut(n, k, expected, value).1, CPutRecord(k, expected, value))
  {
    hide CPutColumn; hide GetColumn; hide Recreating; hide Valid; hide View; hide Hollow; hide Recreated;
    var m := GetColumn(n.mem, k).1;
    GetColumnKeeps(n.mem, k, n.modified);
    ValidAllocates(n.mem, n.modified);
    if CPutColumn(m, k, expected, value).0.Swapped? {
      CPutPlaces(m, k, expected, value);
      RecreatedIsRecreating(n.mem, CPutColumn(m, k, expected, value).1.blockId);
    } else {
      UnswappedSame(m, k, expected, value);
      SelfRecreating(n.mem);
    }
  }

  lemma ValidAllocates(m: Mem, dirty: set<Key>)
    requires Valid(m, dirty)
    ensures Allocated(m.blocks, m.blockId)
  {
  }

  lemma UnswappedSame(m: Mem, k: Key, expected: string, value: string)
    requires !CPutColumn(m, k, expected, value).0.Swapped?
    ensures CPutColumn(m, k, expected, value).1.blocks == m.blocks
  {
  }

  lemma DeleteFiles(n: Node, k: Key)
    requires NodeValid(n)
    ensures WritesFiles(n, ApplyDelete(n, k), DeleteRecord(k))
  {
    hide Valid; hide View; hide Hollow; hide DeleteColumn; hide Recreating;
    DeleteColumnKeeps(n.mem, k, n.modified);
    ValidAllocates(n.mem, n.modified);
    SelfRecreating(n.mem);
  }

  lemma AppliedFiles(n: Node, op: Op)
    requires NodeValid(n) && Step(n, op).Done? && LogsIt(n, op) && Made(n, op).Some?
    ensures var made, done := Made(n, op).value, Step(n, op).node;
            match Applied(n, op)
            case None => WritesFiles(made, done, RecordOf(op))
            case Some(a) => NodeValid(a) && WritesFiles(made, a, RecordOf(op)) && done == Counted(a)
  {
    hide NodeValid; hide Reserve; hide Counted; hide PutColumn; hide CPutColumn; hide GetColumn; hide DeleteColumn;
    hide WritesFiles; hide NeedsRoom; hide View;
    assert NodeValid(Made(n, op).value) by { MadeDisk(n, op); }
    var n1 := Made(n, op).value;
    match op
    case Put(k, v, _) => PutFiles(n1, k, v); ApplyPutValid(n1, k, v);
    case CPut(k, e, v, _) => CPutFiles(n1, k, e, v); ApplyCPutValid(n1, k, e, v);
    case Delete(k) => DeleteFiles(n1, k); ApplyDeleteValid(n1, k);
  }

  lemma RecordMoments(n: Node, op: Op)
    requires NodeValid(n) && LogsIt(n, op) && Made(n, op).Some?
    ensures RecordLeadsOn(n, op)
  {
    MadeDisk(n, op);
    var made := Made(n, op).value;
    ValidAllocates(made.mem, made.modified);
    SelfRecreating(made.mem);
    hide Valid; hide Forces; hide Made; hide Torn; hide Checkpoint; hide Untruncated; hide Recreating; hide Applied;
    hide LogsIt;
  }

  lemma WriteMoments(n: Node, op: Op, done: Node)
    requires LogsIt(n, op) && Made(n, op).Some? && WritesFiles(Made(n, op).value, done, RecordOf(op))
    ensures WriteLeadsOn(n, op, done)
  {
    hide Forces; hide Made; hide Torn; hide Untruncated; hide Recreating; hide Applied; hide LogsIt;
  }

  lemma CountedMoments(n: Node, op: Op)
    requires Counting(n, op) && NodeValid(Applied(n, op).value)
    ensures CountedLeadsOn(n, op, Checkpoint(Applied(n, op).value))
  {
    hide Valid; hide Forces; hide Made; hide Torn; hide Checkpoint; hide Untruncated; hide Flush; hide Applied;
    var a := Applied(n, op).value;
    Untorn(a.mem, a.modified);
    CheckpointWrites(a);
  }

  lemma LoggedMoments(n: Node, op: Op)
    requires NodeValid(n) && Step(n, op).Done? && LogsIt(n, op)
    ensures Made(n, op).Some? && LoggedLeadOn(n, op)
  {
    assert Made(n, op).Some?;
    RecordMoments(n, op);
    AppliedFiles(n, op);
    hide NodeValid; hide Made; hide Step; hide Applied; hide LogsIt; hide WritesFiles; hide RecordLeadsOn;
    hide WriteLeadsOn; hide CountedLeadsOn; hide Checkpoint;
    if Applied(n, op).Some? {
      WriteMoments(n, op, Applied(n, op).value);
      if Counting(n, op) { CountedMoments(n, op); }
    } else {
      WriteMoments(n, op, Step(n, op).node);
    }
  }

  lemma UnloggedMoments(n: Node, op: Op)
    requires NodeValid(n) && Step(n, op).Done? && !LogsIt(n, op)
    ensures DiskOf(Step(n, op).node) == DiskAt(n, if Forces(n, op) then Checkpointed(op) else Between)
  {
    hide Valid; hide View; hide Hollow; hide Checkpoint; hide Evict; hide NeedsRoom; hide GetColumn; hide Empties;
    var k := op.key;
    if op.Get? && k in n.mem.diskMap {
      if k.row in n.mem.resident {
        GetColumnKeeps(n.mem, k, n.modified);
      } else {
        CheckpointKeeps(n);
        var n1 := Checkpoint(n);
        var m := Sized(n1.mem, k.row);
        SameTable(n1.mem, m);
        EvictKeeps(m, k.row, SizeT(RowSize(m, k.row)), op.queue);
        GetColumnKeeps(Evict(m, k.row, SizeT(RowSize(m, k.row)), op.queue).value, k, {});
      }
    }
  }

  // ---- What the files then say ----------------------------------------------------------------------

  /** The map that the log explains. */
  ghost function Held(n: Node, at: Moment): Table
    requires Occurs(n, at) && !IsUntruncated(at)
  {
    match at
    case Between => View(n.mem)
    case InForced(_, _) => View(n.mem)
    case Checkpointed(op) => View(Checkpoint(ForcedOn(n, op)).mem)
    case Logged(op, _) => Apply(View(Made(n, op).value.mem), RecordOf(op))
    case InCounted(op, _) => View(Applied(n, op).value.mem)
  }

  ghost predicate Explained(d: Disk, m: Table) {
    Readable(d.blocks, d.metadata) && LogExplains(OnDisk(d.metadata, d.blocks), d.log, m)
  }

  /** What making room leaves of a good node. */
  lemma MadeStaysGood(n: Node, op: Op)
    requires Good(n) && LogsIt(n, op) && Made(n, op).Some?
    ensures var n1 := Made(n, op).value;
            var back := if Forces(n, op) then Limbo(n) else {};
            && NodeValid(n1) && Durable(n1) && View(n1.mem) == View(n.mem) + Empties(back)
            && (op.key in n.mem.diskMap ==> op.key in n1.mem.diskMap && op.key !in Hollow(n1.mem))
            && (op.Delete? ==> n1 == n)
  {
    hide NodeValid; hide Durable; hide View; hide Reserve; hide Hollow; hide NeedsRoom; hide Empties;
    EmptiesOver(View(n.mem), {}, op.key, "");
    if op.Put? || op.CPut? {
      ReserveKeeps(n, op.key.row, |op.value|, op.queue);
      ReserveDurable(n, op.key.row, |op.value|, op.queue);
    }
  }

  lemma LoggedExplained(n: Node, op: Op, b: Blocks)
    requires Good(n) && Occurs(n, Logged(op, b))
    ensures Explained(DiskAt(n, Logged(op, b)), Held(n, Logged(op, b)))
  {
    hide NodeValid; hide Durable; hide View; hide Made; hide Hollow; hide Recreating; hide Readable; hide OnDisk;
    hide LogExplains; hide Apply; hide Good; hide Empties;
    var n1 := Made(n, op).value;
    MadeStaysGood(n, op);
    ViewKeys(n1.mem);
    LoggedRequestRecoversIff(n1, RecordOf(op), b, 0);
  }

  /** The applied request, before its checkpoint. */
  lemma AppliedGood(n: Node, op: Op)
    requires Good(n) && Applied(n, op).Some?
    ensures var n1, n2 := Made(n, op).value, Applied(n, op).value;
            NodeValid(n2) && Durable(n2) && View(n2.mem) == Apply(View(n1.mem), RecordOf(op))
  {
    hide Valid; hide Durable; hide View; hide Made; hide Hollow; hide ApplyPut; hide ApplyCPut; hide ApplyDelete;
    hide Empties; hide Limbo;
    var n1 := Made(n, op).value;
    MadeStaysGood(n, op);
    ViewKeys(n1.mem);
    match op
    case Put(k, v, _) =>
      ApplyPutKeeps(n1, k, v);
      ApplyPutDurable(n1, k, v);
    case CPut(k, e, v, _) =>
      ApplyCPutKeeps(n1, k, e, v);
      ApplyCPutDurableIff(n1, k, e, v);
    case Delete(k) =>
      ApplyDeleteKeeps(n, k);
      ApplyDeleteDurableIff(n, k);
  }

  lemma DurableExplained(n: Node)
    requires NodeValid(n) && Durable(n)
    ensures Explained(DiskOf(n), View(n.mem))
  {
    hide NodeValid; hide View; hide Readable; hide OnDisk; hide Shadowing; hide LogExplains;
    DurableIsReadable(n);
  }

  lemma TornExplained(n: Node, b: Blocks)
    requires NodeValid(n) && Durable(n) && Torn(n.mem, n.modified, b)
    ensures Explained(DiskOf(n).(blocks := b), View(n.mem))
  {
    hide NodeValid; hide View; hide Readable; hide OnDisk; hide Shadowing; hide LogExplains; hide Torn;
    TornCheckpointRecovers(n, b, 0);
  }

  lemma ForcedExplained(n: Node, op: Op)
    requires Good(n) && Forces(n, op)
    ensures Explained(DiskOf(Checkpoint(ForcedOn(n, op))), View(Checkpoint(ForcedOn(n, op)).mem))
    ensures View(Checkpoint(ForcedOn(n, op)).mem) == View(n.mem) + Empties(Limbo(n))
  {
    hide Valid; hide Durable; hide View; hide Hollow; hide Checkpoint; hide Explained; hide Empties; hide NeedsRoom;
    var n0 := ForcedOn(n, op);
    SameTable(n.mem, n0.mem);
    CheckpointKeeps(n0);
    CheckpointDurable(n0);
    DurableExplained(Checkpoint(n0));
  }

  /** At every moment but those before the log is truncated, the files determine a map. */
  lemma MomentExplained(n: Node, at: Moment)
    requires Good(n) && Occurs(n, at) && !IsUntruncated(at)
    ensures Explained(DiskAt(n, at), Held(n, at))
  {
    hide NodeValid; hide Durable; hide View; hide Explained; hide Torn; hide Forces; hide Made; hide Recreating;
    match at
    case Between => DurableExplained(n);
    case InForced(_, b) => TornExplained(n, b);
    case Checkpointed(op) => ForcedExplained(n, op);
    case Logged(op, b) => LoggedExplained(n, op, b);
    case InCounted(op, b) =>
      AppliedGood(n, op);
      TornExplained(Applied(n, op).value, b);
  }

  lemma UntruncatedReadable(n: Node, at: Moment)
    requires Good(n) && Occurs(n, at) && IsUntruncated(at)
    ensures Readable(DiskAt(n, at).blocks, DiskAt(n, at).metadata)
  {
    hide Valid; hide Durable; hide View; hide Readable; hide Untruncated; hide Made; hide Forces; hide Applied; hide Hollow;
    if at.ForcedUntruncated? {
      if !at.op.Get? { ConsultedValid(n, at.op.key.row); }
      UntruncatedReplay(ForcedOn(n, at.op), 0);
    } else {
      AppliedGood(n, at.op);
      UntruncatedReplay(Applied(n, at.op).value, 0);
    }
  }

  lemma ApplyOver(m: Table, back: set<Key>, op: Op)
    requires op.Put? || (op.CPut? && op.key in m) || (op.Delete? && back == {})
    requires back !! m.Keys
    ensures Apply(m + Empties(back), RecordOf(op))
            == PlainStep(m, op).0 + Empties(back - (if op.Put? then {op.key} else {}))
  {
    hide Empties;
    assert back - {} == back;
    if !op.Delete? {
      EmptiesOver(m, back, op.key, op.value);
      if op.CPut? { EmptiesAway(m, back, op.key); }
    } else {
      EmptiesOver(m, {}, op.key, "");
      EmptiesOver(m - {op.key}, {}, op.key, "");
    }
  }

  /** That map is the plain map's exactly when the request's forced checkpoint, if there is one, brings nothing back. */
  lemma HeldIff(n: Node, at: Moment)
    requires Good(n) && Occurs(n, at) && !IsUntruncated(at)
    ensures Held(n, at) == Meanwhile(View(n.mem), at) <==> BroughtBack(n, at) == {}
  {
    hide NodeValid; hide Durable; hide View; hide Torn; hide Made; hide Recreating; hide Hollow; hide Apply; hide PlainStep;
    hide Empties; hide NeedsRoom;
    if at.Checkpointed? {
      ForcedExplained(n, at.op);
      ViewKeys(n.mem);
      EmptiesDiffer(View(n.mem), Limbo(n));
    }
    if at.Logged? || at.InCounted? {
      var op := at.op;
      if at.InCounted? { AppliedGood(n, op); }
      MadeStaysGood(n, op);
      ViewKeys(n.mem);
      var back := if Forces(n, op) then Limbo(n) else {};
      assert BroughtBack(n, at) == back - (if op.Put? then {op.key} else {});
      ApplyOver(View(n.mem), back, op);
      PlainKeys(View(n.mem), op);
      EmptiesDiffer(PlainStep(View(n.mem), op).0, BroughtBack(n, at));
    }
  }

  lemma PlainKeys(m: Table, op: Op)
    ensures PlainStep(m, op).0.Keys <= m.Keys + {op.key}
    ensures !op.Put? ==> PlainStep(m, op).0.Keys <= m.Keys
  {
  }

  // ---- Lifetimes ------------------------------------------------------------------------------------

  /** When an event is safe. A request brings no deleted column back. At a crash the files are legible, their log makes
      every column good and loads every row, and it says what the plain map is: by itself, where the request's forced
      checkpoint brought nothing back; for a log that is yet to be truncated, if it still explains the map on top of the
      new metadata file. */
  ghost predicate Safe(n: Node, e: Event) {
    match e
    case Request(op) => Resurrected(n, op) == {}
    case Crash(at, _) =>
      && Occurs(n, at)
      && var d := DiskAt(n, at);
         && Legible(d) && RowsLoaded(d.log) && AllMadeGood(Unlisted(d.metadata.diskMap), d.log)
         && (if IsUntruncated(at) then LogExplains(OnDisk(d.metadata, d.blocks), d.log, Meanwhile(View(n.mem), at))
             else BroughtBack(n, at) == {})
  }

  /** A restart from files that are not legible is left undefined here: `RestartText.RestartFrom` says what it gives. */
  ghost function Happen(n: Node, e: Event): Outcome {
    match e
    case Request(op) => Step(n, op)
    case Crash(at, capacity) =>
      if Occurs(n, at) && Legible(DiskAt(n, at)) then Done(Recover(DiskAt(n, at), capacity), Success) else Undefined
  }

  ghost function Lifetime(n: Node, events: seq<Event>): Option<(Node, seq<Reply>)>
    decreases |events|
  {
    if events == [] then Some((n, []))
    else
      match Happen(n, events[0])
      case Undefined => None
      case Done(n', reply) =>
        match Lifetime(n', events[1..])
        case None => None
        case Some(r) => Some((r.0, [reply] + r.1))
  }

  /** The plain map does not notice a crash, but for the request that was under way. */
  function PlainHappen(m: Table, e: Event): (Table, Reply) {
    match e
    case Request(op) => PlainStep(m, op)
    case Crash(at, _) => (Meanwhile(m, at), Success)
  }

  function PlainLifetime(m: Table, events: seq<Event>): (Table, seq<Reply>)
    decreases |events|
  {
    if events == [] then (m, [])
    else
      var (m', reply) := PlainHappen(m, events[0]);
      var r := PlainLifetime(m', events[1..]);
      (r.0, [reply] + r.1)
  }

  ghost predicate AllSafe(n: Node, events: seq<Event>)
    requires Lifetime(n, events).Some?
    decreases |events|
  {
    events == [] || (Safe(n, events[0]) && AllSafe(Happen(n, events[0]).node, events[1..]))
  }

  /** After every event the node is good and stands for what the plain map holds. */
  ghost predicate SurvivesAs(n: Node, m: Table, events: seq<Event>)
    requires Lifetime(n, events).Some?
    decreases |events|
  {
    Good(n) && View(n.mem) == m
    && (events == [] || SurvivesAs(Happen(n, events[0]).node, PlainHappen(m, events[0]).0, events[1..]))
  }

  /** A crash at any of these moments is survived exactly when it is safe. */
  lemma CrashIff(n: Node, at: Moment, capacity: nat)
    requires Good(n) && Occurs(n, at) && Legible(DiskAt(n, at))
    ensures var n' := Recover(DiskAt(n, at), capacity);
            Good(n') && View(n'.mem) == Meanwhile(View(n.mem), at) <==> Safe(n, Crash(at, capacity))
  {
    hide Good; hide View; hide Occurs; hide DiskAt; hide Recover; hide Legible; hide RowsLoaded; hide AllMadeGood;
    hide LogExplains; hide OnDisk; hide Held; hide Meanwhile; hide BroughtBack; hide Unlisted; hide Readable;
    var d, m := DiskAt(n, at), Meanwhile(View(n.mem), at);
    if IsUntruncated(at) {
      UntruncatedReadable(n, at);
      RecoversWellIff(d, m, capacity);
    } else {
      MomentExplained(n, at);
      HeldIff(n, at);
      RecoversWellIff(d, m, capacity);
      OneMap(d, m, Held(n, at));
    }
  }

  /** A log explains one map only. */
  lemma OneMap(d: Disk, m: Table, m': Table)
    requires Explained(d, m')
    ensures LogExplains(OnDisk(d.metadata, d.blocks), d.log, m) <==> m == m'
  {
    hide OnDisk; hide Readable;
  }

  lemma RequestIff(n: Node, op: Op)
    requires Good(n) && Step(n, op).Done?
    ensures var n' := Step(n, op).node;
            Good(n') && View(n'.mem) == PlainStep(View(n.mem), op).0 <==> Resurrected(n, op) == {}
    ensures Step(n, op).reply == PlainStep(View(n.mem), op).1
  {
    hide View; hide NodeValid; hide Hollow; hide Durable; hide Step; hide PlainStep; hide Resurrected;
    StepRefinesIff(n, op);
    StepReplies(n, op);
    StepDurable(n, op);
  }

  lemma HappenIff(n: Node, e: Event)
    requires Good(n) && Happen(n, e).Done?
    ensures Good(Happen(n, e).node) && View(Happen(n, e).node.mem) == PlainHappen(View(n.mem), e).0 <==> Safe(n, e)
    ensures Happen(n, e).reply == PlainHappen(View(n.mem), e).1
  {
    hide View; hide Good; hide Step; hide PlainStep; hide Resurrected; hide Recover; hide Occurs; hide Legible; hide DiskAt;
    match e
    case Request(op) => RequestIff(n, op);
    case Crash(at, capacity) => CrashIff(n, at, capacity);
  }

  /** Refinement over whole lifetimes: through any requests, evictions, checkpoints and crashes the node is good and
      stands for the plain map throughout exactly when every event is safe, and then every reply is the plain map's. */
  lemma {:induction false} LifetimeRefinesIff(n: Node, events: seq<Event>)
    requires Good(n) && Lifetime(n, events).Some?
    ensures SurvivesAs(n, View(n.mem), events) <==> AllSafe(n, events)
    ensures AllSafe(n, events) ==>
              var (n', replies) := Lifetime(n, events).value;
              Good(n') && (View(n'.mem), replies) == PlainLifetime(View(n.mem), events)
    decreases |events|
  {
    hide View; hide Happen; hide PlainHappen; hide Safe; hide Good;
    if events == [] {
    } else {
      HappenIff(n, events[0]);
      if Safe(n, events[0]) {
        LifetimeRefinesIff(Happen(n, events[0]).node, events[1..]);
      } else {
        var n' := Happen(n, events[0]).node;
        assert !(Good(n') && View(n'.mem) == PlainHappen(View(n.mem), events[0]).0);
      }
    }
  }

  /** The restart that a crash event stands for is the one from the texts of the files. */
  lemma CrashRestartsFromText(n: Node, at: Moment, capacity: nat, order: seq<Key>)
    requires Happen(n, Crash(at, capacity)).Done? && Orders(order, DiskAt(n, at).metadata.diskMap)
    ensures var d, n' := DiskAt(n, at), Happen(n, Crash(at, capacity)).node;
            RestartFrom(MetadataFile(d, order), LogFormat.Received(LogFormat.PrintLog(d.log)), d.blocks, capacity)
            == Some((n'.mem, n'.modified))
  {
    hide Occurs; hide DiskAt; hide Recover; hide RestartFrom; hide Legible; hide MetadataFile;
    LegibleRestarts(DiskAt(n, at), order, capacity);
  }

  lemma FreshNodeStarts(capacity: nat)
    ensures Good(FreshNode(capacity)) && View(FreshNode(capacity).mem) == map[]
  {
  }
}
