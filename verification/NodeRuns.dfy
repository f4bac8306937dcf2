/** A storage node over whole runs of requests: when it answers as a plain map would. */
module NodeRuns {
  import opened Extents
  import opened Memtable
  import opened Options
  import opened StorageNode

  /** Whether the request begins with a forced checkpoint. */
  predicate Forces(n: Node, op: Op) {
    match op
    case Put(k, v, _) => NeedsRoom(n.mem, k.row, |v|)
    case CPut(k, _, v, _) => k in n.mem.diskMap && NeedsRoom(n.mem, k.row, |v|)
    case Get(k, _) => k in n.mem.diskMap && k.row !in n.mem.resident
    case Delete(k) => false
  }

  /** Whether the request is a write that succeeds on the plain map. */
  predicate Writes(n: Node, op: Op) {
    match op
    case Put(k, _, _) => true
    case CPut(k, e, _, _) => k in n.mem.diskMap && View(n.mem)[k] == e
    case Get(_, _) => false
    case Delete(k) => k in n.mem.diskMap
  }

  /** Whether it ends with the checkpoint due after `CHECKPOINT_THRESHOLD` writes. */
  predicate Counts(n: Node, op: Op) {
    Writes(n, op) && (if Forces(n, op) then 0 else n.operations) + 1 == CHECKPOINT_THRESHOLD
  }

  /** The deleted columns that the request's checkpoint brings back. */
  function Resurrected(n: Node, op: Op): set<Key> {
    if !Forces(n, op) && !Counts(n, op) then {}
    else
      match op
      case Put(k, _, _) => Limbo(n) - {k}
      case Delete(k) => Limbo(n) + (if k in n.modified then {k} else {})
      case _ => Limbo(n)
  }

  // ---- One request ----------------------------------------------------------------------------------

  /** What a request leaves behind: `plain` is the plain map after it, `back` the columns brought back. */
  ghost predicate Leaves(n': Node, plain: map<Key, string>, back: set<Key>) {
    && NodeValid(n')
    && View(n'.mem) == plain + Empties(back)
    && Hollow(n'.mem) <= back
  }

  lemma ViewKeys(m: Mem)
    ensures View(m).Keys == m.diskMap.Keys
  {
  }

  lemma ApplyPutKeeps(n: Node, k: Key, value: string)
    requires NodeValid(n)
    ensures var n' := ApplyPut(n, k, value);
            && NodeValid(n') && View(n'.mem) == View(n.mem)[k := value] && Hollow(n'.mem) == Hollow(n.mem) - {k}
            && Limbo(n') == Limbo(n) - {k} && n'.mem.diskMap.Keys == n.mem.diskMap.Keys + {k}
  {
    hide Valid; hide View; hide Hollow; hide Appended; hide ExtentNotBefore; hide PutColumn;
    PutColumnKeeps(n.mem, k, value, n.modified);
  }

  lemma EmptiesOver(m: map<Key, string>, back: set<Key>, k: Key, value: string)
    ensures (m + Empties(back))[k := value] == m[k := value] + Empties(back - {k})
    ensures m + Empties({}) == m
  {
  }

  lemma PutExact(n: Node, op: Op)
    requires Clean(n) && op.Put? && Step(n, op).Done?
    ensures Step(n, op).reply == Success
    ensures Leaves(Step(n, op).node, PlainStep(View(n.mem), op).0, Resurrected(n, op))
  {
    hide Valid; hide View; hide Hollow; hide Reserve; hide Counted; hide ApplyPut; hide NeedsRoom; hide Empties;
    var k, value := op.key, op.value;
    var n1 := Reserve(n, k.row, |value|, op.queue, true).value;
    ReserveKeeps(n, k.row, |value|, op.queue);
    var n2 := ApplyPut(n1, k, value);
    ApplyPutKeeps(n1, k, value);
    ApplyPutCounts(n1, k, value);
    CountedKeeps(n2);
    EmptiesOver(View(n.mem), if Forces(n, op) then Limbo(n) else {}, k, value);
    EmptiesOver(View(n2.mem), {}, k, value);
    assert Limbo(n1) == if Forces(n, op) then {} else Limbo(n);
    assert !Forces(n, op) ==> {} - {k} == {};
  }

  lemma ApplyPutCounts(n: Node, k: Key, value: string)
    ensures ApplyPut(n, k, value).operations == n.operations + 1
  {
  }

  lemma ApplyCPutKeeps(n: Node, k: Key, expected: string, value: string)
    requires NodeValid(n) && k in n.mem.diskMap && k !in Hollow(n.mem)
    ensures var (r, n') := ApplyCPut(n, k, expected, value);
            && NodeValid(n') && Hollow(n'.mem) == Hollow(n.mem) && n'.mem.diskMap.Keys == n.mem.diskMap.Keys
            && (if View(n.mem)[k] == expected then
                  r.Swapped? && View(n'.mem) == View(n.mem)[k := value]
                  && n'.modified == n.modified + {k} && n'.operations == n.operations + 1
                else
                  r.Mismatch? && View(n'.mem) == View(n.mem)
                  && n'.modified == n.modified && n'.operations == n.operations)
  {
    hide Valid; hide View; hide Hollow; hide Appended; hide ExtentNotBefore; hide CPutColumn; hide GetColumn;
    var m := GetColumn(n.mem, k).1;
    GetColumnKeeps(n.mem, k, n.modified);
    CPutColumnKeeps(m, k, expected, value, n.modified);
    ViewKeys(n.mem);
  }

  /** Columns that are not in the map can come back without touching column `k`. */
  lemma EmptiesAway(m: map<Key, string>, back: set<Key>, k: Key)
    requires k in m && k !in back
    ensures (m + Empties(back))[k] == m[k] && back - {k} == back
  {
  }

  lemma CPutExact(n: Node, op: Op)
    requires Clean(n) && op.CPut? && op.key in n.mem.diskMap && Step(n, op).Done?
    ensures Step(n, op).reply == PlainStep(View(n.mem), op).1
    ensures Leaves(Step(n, op).node, PlainStep(View(n.mem), op).0, Resurrected(n, op))
  {
    hide Valid; hide View; hide Hollow; hide Reserve; hide Counted; hide ApplyCPut; hide NeedsRoom; hide Empties;
    var k, e, value := op.key, op.expected, op.value;
    var back := if Forces(n, op) then Limbo(n) else {};
    var n1 := Reserve(n, k.row, |value|, op.queue, true).value;
    ReserveKeeps(n, k.row, |value|, op.queue);
    ViewKeys(n.mem);
    EmptiesAway(View(n.mem), back, k);
    ApplyCPutKeeps(n1, k, e, value);
    var n2 := ApplyCPut(n1, k, e, value).1;
    EmptiesOver(View(n.mem), back, k, value);
    assert Limbo(n1) == (if Forces(n, op) then {} else Limbo(n));
    if View(n.mem)[k] == e {
      assert Limbo(n2) == Limbo(n1);
      CountedKeeps(n2);
      EmptiesOver(View(n2.mem), {}, k, value);
    }
  }

  lemma ApplyDeleteKeeps(n: Node, k: Key)
    requires Clean(n) && k in n.mem.diskMap
    ensures var n' := ApplyDelete(n, k);
            && Clean(n') && View(n'.mem) == View(n.mem) - {k}
            && n'.operations == n.operations + 1 && n'.modified == n.modified
            && Limbo(n') == Limbo(n) + (if k in n.modified then {k} else {})
  {
    hide Valid; hide View; hide Hollow; hide DeleteColumn;
    DeleteColumnKeeps(n.mem, k, n.modified);
  }

  lemma DeleteExact(n: Node, op: Op)
    requires Clean(n) && op.Delete?
    ensures Step(n, op).Done? && Step(n, op).reply == PlainStep(View(n.mem), op).1
    ensures Leaves(Step(n, op).node, PlainStep(View(n.mem), op).0, Resurrected(n, op))
  {
    hide Valid; hide View; hide Hollow; hide Counted; hide ApplyDelete; hide Empties;
    ViewKeys(n.mem);
    EmptiesOver(View(n.mem) - {op.key}, {}, op.key, "");
    if op.key in n.mem.diskMap {
      ApplyDeleteKeeps(n, op.key);
      CountedKeeps(ApplyDelete(n, op.key));
    } else {
      assert View(n.mem) - {op.key} == View(n.mem);
    }
  }

  lemma CPutMissing(n: Node, op: Op)
    requires Clean(n) && op.CPut? && op.key !in n.mem.diskMap
    ensures Step(n, op) == Done(n, MissingKey) && PlainStep(View(n.mem), op) == (View(n.mem), MissingKey)
    ensures Leaves(n, PlainStep(View(n.mem), op).0, Resurrected(n, op))
  {
    hide Valid; hide View; hide Hollow;
    ViewKeys(n.mem);
    EmptiesOver(View(n.mem), {}, op.key, "");
  }

  /** `Get`'s checkpoint and eviction, when the row is not resident. */
  lemma GetRoomKeeps(n: Node, row: string, queue: seq<string>)
    requires NodeValid(n)
    ensures var m := Sized(Checkpoint(n).mem, row);
            var e := Evict(m, row, SizeT(RowSize(m, row)), queue);
            e.Some? ==>
              var n' := Checkpoint(n).(mem := e.value);
              && NodeValid(n') && View(n'.mem) == View(n.mem) + Empties(Limbo(n))
              && Hollow(n'.mem) <= Hollow(n.mem) + Limbo(n)
              && LayoutOf(n'.mem) == LayoutOf(Checkpoint(n).mem)
  {
    hide Valid; hide View; hide Hollow; hide Checkpoint; hide Evict; hide Empties;
    CheckpointKeeps(n);
    CheckpointFields(n);
    var m := Sized(Checkpoint(n).mem, row);
    SameTable(Checkpoint(n).mem, m);
    if Evict(m, row, SizeT(RowSize(m, row)), queue).Some? {
      EvictKeeps(m, row, SizeT(RowSize(m, row)), queue);
    }
  }

  /** What a `get` answers, on every reachable state: the bytes the column holds. */
  lemma GetAnswers(n: Node, op: Op)
    requires NodeValid(n) && op.Get? && Step(n, op).Done?
    ensures Step(n, op).reply == PlainStep(View(n.mem), op).1
    ensures var n' := Step(n, op).node;
            var back := if Forces(n, op) then Limbo(n) else {};
            && NodeValid(n') && View(n'.mem) == View(n.mem) + Empties(back)
            && Hollow(n'.mem) <= Hollow(n.mem) + back
            && LayoutOf(n'.mem) == LayoutOf(if Forces(n, op) then Checkpoint(n).mem else n.mem)
  {
    hide Valid; hide View; hide Hollow; hide Checkpoint; hide Evict; hide Empties; hide GetColumn;
    var k := op.key;
    ViewKeys(n.mem);
    EmptiesOver(View(n.mem), {}, k, "");
    if k in n.mem.diskMap {
      if k.row in n.mem.resident {
        GetColumnKeeps(n.mem, k, n.modified);
      } else {
        GetRoomKeeps(n, k.row, op.queue);
        EmptiesAway(View(n.mem), Limbo(n), k);
        var m := Sized(Checkpoint(n).mem, k.row);
        var n2 := Checkpoint(n).(mem := Evict(m, k.row, SizeT(RowSize(m, k.row)), op.queue).value);
        ViewKeys(n2.mem);
        GetColumnKeeps(n2.mem, k, n2.modified);
      }
    }
  }

  lemma GetExact(n: Node, op: Op)
    requires Clean(n) && op.Get? && Step(n, op).Done?
    ensures Step(n, op).reply == PlainStep(View(n.mem), op).1
    ensures Leaves(Step(n, op).node, PlainStep(View(n.mem), op).0, Resurrected(n, op))
  {
    hide Valid; hide View; hide Hollow; hide Step;
    GetAnswers(n, op);
  }

  /** From a clean node every request is answered as by the plain map, and the map after it is the plain map's
      own, plus an empty column for each deleted one that a checkpoint found in `modified`. */
  lemma StepExact(n: Node, op: Op)
    requires Clean(n) && Step(n, op).Done?
    ensures Step(n, op).reply == PlainStep(View(n.mem), op).1
    ensures Leaves(Step(n, op).node, PlainStep(View(n.mem), op).0, Resurrected(n, op))
  {
    hide Step; hide Leaves; hide Resurrected; hide Clean; hide View; hide PlainStep;
    match op
    case Put(_, _, _) => PutExact(n, op); PlainPut(View(n.mem), op);
    case CPut(_, _, _, _) => if op.key in n.mem.diskMap { CPutExact(n, op); } else { CPutMissing(n, op); }
    case Get(_, _) => GetExact(n, op);
    case Delete(_) => DeleteExact(n, op);
  }

  lemma PlainPut(m: map<Key, string>, op: Op)
    requires op.Put?
    ensures PlainStep(m, op).1 == Success
  {
  }

  /** A column that is brought back is not in the plain map. */
  lemma ResurrectedIsAbsent(n: Node, op: Op)
    ensures Resurrected(n, op) !! PlainStep(View(n.mem), op).0.Keys
  {
    ViewKeys(n.mem);
  }

  lemma EmptiesDiffer(m: map<Key, string>, back: set<Key>)
    requires back !! m.Keys
    ensures m + Empties(back) == m <==> back == {}
  {
    if back != {} {
      var k :| k in back;
      assert k in m + Empties(back);
    }
  }

  /** A request leaves the node standing for the plain map exactly when its checkpoint, if it has one, finds no
      deleted column in `modified` (other than the one being put); the node is then clean again. */
  lemma StepRefinesIff(n: Node, op: Op)
    requires Clean(n) && Step(n, op).Done?
    ensures View(Step(n, op).node.mem) == PlainStep(View(n.mem), op).0 <==> Resurrected(n, op) == {}
    ensures Resurrected(n, op) == {} ==> Clean(Step(n, op).node)
  {
    hide View; hide Step; hide PlainStep; hide Resurrected; hide Empties; hide Valid; hide Hollow;
    StepExact(n, op);
    ResurrectedIsAbsent(n, op);
    EmptiesDiffer(PlainStep(View(n.mem), op).0, Resurrected(n, op));
  }

  /** The difference is seen by a client: a column brought back is found, empty, where the plain map has none. */
  lemma ResurrectedIsFound(n: Node, op: Op, k: Key, queue: seq<string>)
    requires Clean(n) && Step(n, op).Done? && k in Resurrected(n, op)
    requires Step(Step(n, op).node, Get(k, queue)).Done?
    ensures Step(Step(n, op).node, Get(k, queue)).reply == Found("")
    ensures PlainStep(PlainStep(View(n.mem), op).0, Get(k, queue)).1 == MissingKey
  {
    hide View; hide Step; hide Resurrected; hide Valid; hide Hollow;
    StepExact(n, op);
    ResurrectedIsAbsent(n, op);
    GetAnswers(Step(n, op).node, Get(k, queue));
  }

  // ---- Runs -----------------------------------------------------------------------------------------

  /** The replies of a run and the node after it, unless some request is undefined. */
  ghost function Run(n: Node, ops: seq<Op>): Option<(Node, seq<Reply>)>
    decreases |ops|
  {
    if ops == [] then Some((n, []))
    else
      match Step(n, ops[0])
      case Undefined => None
      case Done(n', reply) =>
        match Run(n', ops[1..])
        case None => None
        case Some(r) => Some((r.0, [reply] + r.1))
  }

  function PlainRun(m: map<Key, string>, ops: seq<Op>): (map<Key, string>, seq<Reply>)
    decreases |ops|
  {
    if ops == [] then (m, [])
    else
      var (m', reply) := PlainStep(m, ops[0]);
      var r := PlainRun(m', ops[1..]);
      (r.0, [reply] + r.1)
  }

  /** No checkpoint of the run brings a deleted column back. */
  ghost predicate NothingResurrected(n: Node, ops: seq<Op>)
    requires Run(n, ops).Some?
    decreases |ops|
  {
    ops == [] || (Resurrected(n, ops[0]) == {} && NothingResurrected(Step(n, ops[0]).node, ops[1..]))
  }

  /** After every request of the run the node stands for what the plain map holds. */
  ghost predicate StandsForMap(n: Node, m: map<Key, string>, ops: seq<Op>)
    requires Run(n, ops).Some?
    decreases |ops|
  {
    View(n.mem) == m
    && (ops == [] || StandsForMap(Step(n, ops[0]).node, PlainStep(m, ops[0]).0, ops[1..]))
  }

  /** Write-back refinement: over every run, with any evictions, reloads and forced or counted checkpoints, the
      node stands for the plain map throughout exactly when no checkpoint brings a deleted column back; every
      request is then answered as by the plain map. */
  lemma {:induction false} RunRefinesIff(n: Node, ops: seq<Op>)
    requires Clean(n) && Run(n, ops).Some?
    ensures StandsForMap(n, View(n.mem), ops) <==> NothingResurrected(n, ops)
    ensures NothingResurrected(n, ops) ==>
              var (n', replies) := Run(n, ops).value;
              Clean(n') && (View(n'.mem), replies) == PlainRun(View(n.mem), ops)
    decreases |ops|
  {
    hide View; hide Step; hide PlainStep; hide Resurrected; hide Clean;
    if ops == [] {
    } else {
      var n1 := Step(n, ops[0]).node;
      StepRefinesIff(n, ops[0]);
      StepReplies(n, ops[0]);
      if Resurrected(n, ops[0]) == {} {
        RunRefinesIff(n1, ops[1..]);
      } else {
        assert View(n1.mem) != PlainStep(View(n.mem), ops[0]).0;
      }
    }
  }

  lemma StepReplies(n: Node, op: Op)
    requires Clean(n) && Step(n, op).Done?
    ensures Step(n, op).reply == PlainStep(View(n.mem), op).1
  {
    hide Step; hide Leaves; hide Resurrected; hide Clean; hide View; hide PlainStep;
    StepExact(n, op);
  }

  // ---- Validity, whatever is brought back -----------------------------------------------------------

  lemma ReserveValid(n: Node, row: string, size: nat, queue: seq<string>)
    requires NodeValid(n) && Reserve(n, row, size, queue, true).Some?
    ensures NodeValid(Reserve(n, row, size, queue, true).value)
  {
    hide NodeValid; hide Reserve; hide View; hide Hollow; hide Empties;
    ReserveKeeps(n, row, size, queue);
  }

  lemma ConsultedValid(n: Node, row: string)
    requires NodeValid(n)
    ensures NodeValid(n.(mem := Consulted(n.mem, row)))
  {
    hide Valid;
    SameTable(n.mem, Consulted(n.mem, row));
  }

  lemma ApplyPutValid(n: Node, k: Key, value: string)
    requires NodeValid(n)
    ensures NodeValid(ApplyPut(n, k, value))
  {
    hide NodeValid; hide ApplyPut; hide View; hide Hollow;
    ApplyPutKeeps(n, k, value);
  }

  lemma ApplyCPutValid(n: Node, k: Key, expected: string, value: string)
    requires NodeValid(n)
    ensures NodeValid(ApplyCPut(n, k, expected, value).1)
  {
    hide DiskOk; hide CacheOk; hide View; hide Hollow; hide Appended; hide ExtentNotBefore; hide CPutColumn;
    hide GetColumn;
    var m := GetColumn(n.mem, k).1;
    GetColumnKeeps(n.mem, k, n.modified);
    CPutColumnKeeps(m, k, expected, value, n.modified);
  }

  lemma ApplyDeleteValid(n: Node, k: Key)
    requires NodeValid(n)
    ensures NodeValid(ApplyDelete(n, k))
  {
    hide Valid; hide View; hide Hollow; hide DeleteColumn;
    DeleteColumnKeeps(n.mem, k, n.modified);
  }

  lemma CountedValid(n: Node)
    requires NodeValid(n)
    ensures NodeValid(Counted(n))
  {
    hide NodeValid; hide Counted; hide View; hide Hollow; hide Empties;
    CountedKeeps(n);
  }

  lemma GetValid(n: Node, op: Op)
    requires NodeValid(n) && op.Get? && Step(n, op).Done?
    ensures NodeValid(Step(n, op).node)
  {
    hide NodeValid; hide Step; hide View; hide Hollow; hide Empties; hide PlainStep;
    GetAnswers(n, op);
  }

  lemma StepValid(n: Node, op: Op)
    requires NodeValid(n) && Step(n, op).Done?
    ensures NodeValid(Step(n, op).node)
  {
    hide NodeValid; hide Reserve; hide ApplyPut; hide ApplyCPut; hide ApplyDelete; hide Counted;
    match op
    case Put(k, v, queue) =>
      var n1 := Reserve(n, k.row, |v|, queue, true).value;
      ReserveValid(n, k.row, |v|, queue);
      ApplyPutValid(n1, k, v);
      CountedValid(ApplyPut(n1, k, v));
    case CPut(k, e, v, queue) =>
      if k in n.mem.diskMap {
        var n1 := Reserve(n, k.row, |v|, queue, true).value;
        ReserveValid(n, k.row, |v|, queue);
        ApplyCPutValid(n1, k, e, v);
        CountedValid(ApplyCPut(n1, k, e, v).1);
      }
    case Get(_, _) => GetValid(n, op);
    case Delete(k) =>
      if k in n.mem.diskMap {
        ApplyDeleteValid(n, k);
        CountedValid(ApplyDelete(n, k));
      }
  }

  /** Every run keeps the table valid, whatever its checkpoints bring back. */
  lemma {:induction false} RunValid(n: Node, ops: seq<Op>)
    requires NodeValid(n) && Run(n, ops).Some?
    ensures NodeValid(Run(n, ops).value.0)
    decreases |ops|
  {
    hide NodeValid; hide Step;
    if ops == [] {
    } else {
      StepValid(n, ops[0]);
      RunValid(Step(n, ops[0]).node, ops[1..]);
    }
  }

  /** In every state that a new node can reach, the live extents are in bounds, below the bump pointer, in files that
      exist, and no two of them share a byte. */
  lemma LiveExtentsStayApart(capacity: nat, ops: seq<Op>)
    requires Run(FreshNode(capacity), ops).Some?
    ensures var m := Run(FreshNode(capacity), ops).value.0.mem;
            && Allocated(m.blocks, m.blockId)
            && (forall k :: k in m.diskMap ==> ExtentInBounds(m.diskMap[k]) && SelfApart(m.diskMap[k])
                                               && ExtentBefore(m.diskMap[k], m.blockId, m.blockOffset))
            && (forall k, k' :: k in m.diskMap && k' in m.diskMap && k != k' ==> MutuallyApart(m.diskMap[k], m.diskMap[k']))
  {
    hide Run; hide CacheOk; hide CleanOnDisk; hide DirtyResident; hide ExtentInBounds; hide SelfApart; hide ExtentBefore;
    hide MutuallyApart; hide Allocated;
    FreshIsValid(capacity);
    RunValid(FreshNode(capacity), ops);
    var m := Run(FreshNode(capacity), ops).value.0.mem;
    assert DiskOk(m.diskMap, m.blockId, m.blockOffset, m.blocks);
    assert forall k :: k in m.diskMap ==> ExtentOk(m.diskMap[k], m.blockId, m.blockOffset);
  }

  lemma FreshIsValid(capacity: nat)
    ensures NodeValid(FreshNode(capacity))
  {
  }
}
