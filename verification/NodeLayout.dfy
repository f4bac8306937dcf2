/** Where a storage node puts its values: two nodes that apply the same successful writes lay them out alike,
    however their reads, evictions and reloads differ. Also: when deletes of clean columns are all there is, no
    checkpoint brings a column back. */
module NodeLayout {
  import opened Extents
  import opened Memtable
  import opened Checkpointing
  import opened StorageNode
  import opened NodeRuns

  /** A successful write. */
  datatype Effect = Stored(key: Key, value: string) | Removed(key: Key)

  function EffectOf(op: Op, reply: Reply): seq<Effect> {
    if reply != Success then []
    else
      match op
      case Put(k, v, _) => [Stored(k, v)]
      case CPut(k, _, v, _) => [Stored(k, v)]
      case Get(_, _) => []
      case Delete(k) => [Removed(k)]
  }

  function LayoutAfter(l: Layout, es: seq<Effect>): Layout
    decreases |es|
  {
    if es == [] then l else LayoutAfter(AfterEffect(l, es[0]), es[1..])
  }

  function AfterEffect(l: Layout, e: Effect): Layout {
    match e
    case Stored(k, v) => Rewritten(l, k, |v|)
    case Removed(k) => l.(diskMap := l.diskMap - {k})
  }

  lemma {:induction false} LayoutAfterConcat(l: Layout, es: seq<Effect>, fs: seq<Effect>)
    ensures LayoutAfter(l, es + fs) == LayoutAfter(LayoutAfter(l, es), fs)
    decreases |es|
  {
    if es == [] {
      assert es + fs == fs;
    } else {
      assert (es + fs)[1..] == es[1..] + fs;
      LayoutAfterConcat(AfterEffect(l, es[0]), es[1..], fs);
    }
  }

  function WithEmpties(l: Layout, back: set<Key>): Layout {
    l.(diskMap := l.diskMap + (map k | k in back :: []))
  }

  lemma WithoutEmpties(l: Layout)
    ensures WithEmpties(l, {}) == l
  {
    assert WithEmpties(l, {}).diskMap == l.diskMap;
  }

  lemma CheckpointLayout(n: Node)
    ensures LayoutOf(Checkpoint(n).mem) == WithEmpties(LayoutOf(n.mem), Limbo(n))
    ensures Checkpoint(n).modified == {} && Limbo(Checkpoint(n)) == {}
  {
    assert WithEmptyEntries(n.mem.diskMap, n.modified) == n.mem.diskMap + (map k | k in Limbo(n) :: []);
  }

  lemma ReserveLayout(n: Node, row: string, size: nat, queue: seq<string>)
    requires NodeValid(n) && Reserve(n, row, size, queue, true).Some?
    ensures var n' := Reserve(n, row, size, queue, true).value;
            var back := if NeedsRoom(n.mem, row, size) then Limbo(n) else {};
            LayoutOf(n'.mem) == WithEmpties(LayoutOf(n.mem), back) && Limbo(n') == Limbo(n) - back
  {
    hide Valid; hide View; hide Hollow; hide Checkpoint; hide Evict; hide NeedsRoom; hide Demand; hide WithEmpties;
    var n0 := n.(mem := Consulted(n.mem, row));
    SameTable(n.mem, n0.mem);
    WithoutEmpties(LayoutOf(n.mem));
    if NeedsRoom(n.mem, row, size) {
      CheckpointKeeps(n0);
      CheckpointLayout(n0);
      EvictKeeps(Checkpoint(n0).mem, row, Demand(n.mem, row, size), queue);
    }
  }

  lemma CountedLayout(n: Node)
    ensures var back := if n.operations == CHECKPOINT_THRESHOLD then Limbo(n) else {};
            LayoutOf(Counted(n).mem) == WithEmpties(LayoutOf(n.mem), back) && Limbo(Counted(n)) == Limbo(n) - back
  {
    hide Checkpoint; hide WithEmpties;
    CheckpointLayout(n);
    WithoutEmpties(LayoutOf(n.mem));
  }

  lemma RewrittenOver(l: Layout, k: Key, size: nat, back: set<Key>)
    requires back <= {k}
    ensures Rewritten(WithEmpties(l, back), k, size) == Rewritten(l, k, size)
  {
    var e := Place(l.blockId, l.blockOffset, size).extent;
    assert WithEmpties(l, back).diskMap[k := e] == l.diskMap[k := e];
  }

  /** Layout and limbo set after a request that brings nothing back. */
  ghost predicate LaidOut(n: Node, op: Op, n': Node, reply: Reply) {
    && LayoutOf(n'.mem) == LayoutAfter(LayoutOf(n.mem), EffectOf(op, reply))
    && Limbo(n') <= Limbo(n) + (if op.Delete? && op.key in n.modified then {op.key} else {})
  }

  lemma ApplyPutLayout(n: Node, k: Key, value: string)
    requires NodeValid(n)
    ensures LayoutOf(ApplyPut(n, k, value).mem) == Rewritten(LayoutOf(n.mem), k, |value|)
  {
    hide Valid; hide View; hide Hollow; hide Appended; hide ExtentNotBefore; hide PutColumn;
    PutColumnKeeps(n.mem, k, value, n.modified);
  }

  lemma OneEffect(l: Layout, e: Effect)
    ensures LayoutAfter(l, [e]) == AfterEffect(l, e)
  {
  }

  lemma PutLayout(n: Node, op: Op)
    requires Clean(n) && op.Put? && Step(n, op).Done? && Resurrected(n, op) == {}
    ensures LaidOut(n, op, Step(n, op).node, Step(n, op).reply)
  {
    hide Valid; hide View; hide Hollow; hide Reserve; hide Counted; hide ApplyPut; hide NeedsRoom; hide WithEmpties;
    hide Rewritten; hide LayoutAfter;
    var k, v := op.key, op.value;
    var n1 := Reserve(n, k.row, |v|, op.queue, true).value;
    ReserveKeeps(n, k.row, |v|, op.queue);
    ReserveLayout(n, k.row, |v|, op.queue);
    var n2 := ApplyPut(n1, k, v);
    ApplyPutKeeps(n1, k, v);
    ApplyPutCounts(n1, k, v);
    ApplyPutLayout(n1, k, v);
    CountedLayout(n2);
    RewrittenOver(LayoutOf(n.mem), k, |v|, if Forces(n, op) then Limbo(n) else {});
    WithoutEmpties(LayoutOf(n2.mem));
    OneEffect(LayoutOf(n.mem), Stored(k, v));
    assert n2.operations == CHECKPOINT_THRESHOLD ==> Limbo(n2) == {};
  }

  lemma ApplyCPutLayout(n: Node, k: Key, expected: string, value: string)
    requires NodeValid(n) && k in n.mem.diskMap && k !in Hollow(n.mem)
    ensures var (r, n') := ApplyCPut(n, k, expected, value);
            LayoutOf(n'.mem) ==
              (if View(n.mem)[k] == expected then Rewritten(LayoutOf(n.mem), k, |value|) else LayoutOf(n.mem))
  {
    hide Valid; hide View; hide Hollow; hide Appended; hide ExtentNotBefore; hide CPutColumn; hide GetColumn;
    var m := GetColumn(n.mem, k).1;
    GetColumnKeeps(n.mem, k, n.modified);
    CPutColumnKeeps(m, k, expected, value, n.modified);
    ViewKeys(n.mem);
  }

  lemma CPutLayout(n: Node, op: Op)
    requires Clean(n) && op.CPut? && op.key in n.mem.diskMap && Step(n, op).Done? && Resurrected(n, op) == {}
    ensures LaidOut(n, op, Step(n, op).node, Step(n, op).reply)
  {
    hide Valid; hide View; hide Hollow; hide Reserve; hide Counted; hide ApplyCPut; hide NeedsRoom; hide WithEmpties;
    hide Rewritten; hide LayoutAfter; hide Empties;
    var k, e, v := op.key, op.expected, op.value;
    var n1 := Reserve(n, k.row, |v|, op.queue, true).value;
    ReserveKeeps(n, k.row, |v|, op.queue);
    ReserveLayout(n, k.row, |v|, op.queue);
    ViewKeys(n.mem);
    EmptiesOver(View(n.mem), {}, k, v);
    WithoutEmpties(LayoutOf(n.mem));
    ApplyCPutKeeps(n1, k, e, v);
    ApplyCPutLayout(n1, k, e, v);
    var n2 := ApplyCPut(n1, k, e, v).1;
    NoEffect(LayoutOf(n.mem));
    if View(n.mem)[k] == e {
      CountedLayout(n2);
      assert Limbo(n2) == Limbo(n1);
      assert n2.operations == CHECKPOINT_THRESHOLD ==> Limbo(n2) == {};
      WithoutEmpties(LayoutOf(n2.mem));
      OneEffect(LayoutOf(n.mem), Stored(k, v));
    }
  }

  lemma NoEffect(l: Layout)
    ensures LayoutAfter(l, []) == l
  {
  }

  lemma DeleteLayout(n: Node, op: Op)
    requires Clean(n) && op.Delete? && Resurrected(n, op) == {}
    ensures LaidOut(n, op, Step(n, op).node, Step(n, op).reply)
  {
    hide Valid; hide View; hide Hollow; hide Counted; hide WithEmpties; hide DeleteColumn; hide LayoutAfter;
    NoEffect(LayoutOf(n.mem));
    if op.key in n.mem.diskMap {
      ApplyDeleteKeeps(n, op.key);
      DeleteColumnKeeps(n.mem, op.key, n.modified);
      var n2 := ApplyDelete(n, op.key);
      CountedLayout(n2);
      WithoutEmpties(LayoutOf(n2.mem));
      OneEffect(LayoutOf(n.mem), Removed(op.key));
    }
  }

  lemma GetLayout(n: Node, op: Op)
    requires Clean(n) && op.Get? && Step(n, op).Done? && Resurrected(n, op) == {}
    ensures LaidOut(n, op, Step(n, op).node, Step(n, op).reply)
  {
    hide Valid; hide View; hide Hollow; hide Checkpoint; hide WithEmpties; hide GetColumn; hide Evict; hide LayoutAfter;
    GetAnswers(n, op);
    CheckpointLayout(n);
    WithoutEmpties(LayoutOf(n.mem));
    NoEffect(LayoutOf(n.mem));
  }

  lemma StepLayout(n: Node, op: Op)
    requires Clean(n) && Step(n, op).Done? && Resurrected(n, op) == {}
    ensures LaidOut(n, op, Step(n, op).node, Step(n, op).reply)
  {
    hide Clean; hide LaidOut; hide Resurrected; hide View;
    match op
    case Put(_, _, _) => PutLayout(n, op);
    case CPut(_, _, _, _) =>
      if op.key in n.mem.diskMap { CPutLayout(n, op); } else { MissingLayout(n, op); }
    case Get(_, _) => GetLayout(n, op);
    case Delete(_) => DeleteLayout(n, op);
  }

  lemma MissingLayout(n: Node, op: Op)
    requires op.CPut? && op.key !in n.mem.diskMap
    ensures Step(n, op) == Done(n, MissingKey) && LaidOut(n, op, n, MissingKey)
  {
    NoEffect(LayoutOf(n.mem));
  }

  // ---- Whatever is brought back ---------------------------------------------------------------------

  function Fragments(l: Layout, k: Key): seq<BlockPtr> {
    if k in l.diskMap then l.diskMap[k] else []
  }

  /** The same pointer and the same fragments of every column; they may differ in naming columns without any. */
  ghost predicate Alike(l: Layout, l': Layout) {
    l'.blockId == l.blockId && l'.blockOffset == l.blockOffset && forall k :: Fragments(l', k) == Fragments(l, k)
  }

  /** What the request writes, on any valid state: a conditional put or a delete of a column that its resident row does
      not have is answered like a success and writes nothing. */
  ghost function EffectAt(n: Node, op: Op): seq<Effect> {
    match op
    case Put(k, v, _) => [Stored(k, v)]
    case CPut(k, e, v, _) =>
      if k in n.mem.diskMap && k !in Hollow(n.mem) && View(n.mem)[k] == e then [Stored(k, v)] else []
    case Get(_, _) => []
    case Delete(k) => if k in n.mem.diskMap && k !in Hollow(n.mem) then [Removed(k)] else []
  }

  ghost function EffectsAt(n: Node, ops: seq<Op>): seq<Effect>
    requires Run(n, ops).Some?
    decreases |ops|
  {
    if ops == [] then [] else EffectAt(n, ops[0]) + EffectsAt(Step(n, ops[0]).node, ops[1..])
  }

  lemma AlikeTrans(l: Layout, l': Layout, l'': Layout)
    requires Alike(l, l') && Alike(l', l'')
    ensures Alike(l, l'')
  {
    hide Fragments;
  }

  lemma AlikeEffect(l: Layout, l': Layout, e: Effect)
    requires Alike(l, l')
    ensures Alike(AfterEffect(l, e), AfterEffect(l', e))
  {
    hide Place;
    forall k ensures Fragments(AfterEffect(l', e), k) == Fragments(AfterEffect(l, e), k) {
      assert Fragments(l', k) == Fragments(l, k);
    }
  }

  lemma {:induction false} AlikeAfter(l: Layout, l': Layout, es: seq<Effect>)
    requires Alike(l, l')
    ensures Alike(LayoutAfter(l, es), LayoutAfter(l', es))
    decreases |es|
  {
    if es == [] {
    } else {
      AlikeEffect(l, l', es[0]);
      AlikeAfter(AfterEffect(l, es[0]), AfterEffect(l', es[0]), es[1..]);
    }
  }

  lemma EmptiesAlike(l: Layout, back: set<Key>)
    requires back !! l.diskMap.Keys
    ensures Alike(l, WithEmpties(l, back))
  {
  }

  lemma LimboIsUnnamed(n: Node)
    ensures Limbo(n) !! n.mem.diskMap.Keys
  {
  }

  lemma CountedAlike(n: Node)
    ensures Alike(LayoutOf(n.mem), LayoutOf(Counted(n).mem))
  {
    hide Alike; hide WithEmpties; hide Limbo; hide Counted;
    CountedLayout(n);
    LimboIsUnnamed(n);
    EmptiesAlike(LayoutOf(n.mem), Limbo(n));
    EmptiesAlike(LayoutOf(n.mem), {});
  }

  lemma ReserveAlike(n: Node, row: string, size: nat, queue: seq<string>)
    requires NodeValid(n) && Reserve(n, row, size, queue, true).Some?
    ensures Alike(LayoutOf(n.mem), LayoutOf(Reserve(n, row, size, queue, true).value.mem))
  {
    hide Alike; hide WithEmpties; hide Limbo; hide Reserve; hide NodeValid; hide NeedsRoom;
    ReserveLayout(n, row, size, queue);
    LimboIsUnnamed(n);
    EmptiesAlike(LayoutOf(n.mem), Limbo(n));
    EmptiesAlike(LayoutOf(n.mem), {});
  }

  lemma PutAlike(n: Node, op: Op)
    requires NodeValid(n) && op.Put? && Step(n, op).Done?
    ensures Alike(LayoutAfter(LayoutOf(n.mem), EffectAt(n, op)), LayoutOf(Step(n, op).node.mem))
  {
    hide NodeValid; hide Reserve; hide Counted; hide ApplyPut; hide Alike; hide LayoutAfter; hide Rewritten;
    var k, v := op.key, op.value;
    var n1 := Reserve(n, k.row, |v|, op.queue, true).value;
    ReserveValid(n, k.row, |v|, op.queue);
    ReserveAlike(n, k.row, |v|, op.queue);
    ApplyPutLayout(n1, k, v);
    CountedAlike(ApplyPut(n1, k, v));
    OneEffect(LayoutOf(n1.mem), Stored(k, v));
    AlikeAfter(LayoutOf(n.mem), LayoutOf(n1.mem), [Stored(k, v)]);
    AlikeTrans(LayoutAfter(LayoutOf(n.mem), [Stored(k, v)]), LayoutOf(ApplyPut(n1, k, v).mem),
               LayoutOf(Step(n, op).node.mem));
  }

  /** The column is hollow, and holds the same bytes, after room is made exactly when it was before. */
  lemma ReserveSpares(n: Node, k: Key, size: nat, queue: seq<string>)
    requires NodeValid(n) && Reserve(n, k.row, size, queue, true).Some? && k in n.mem.diskMap
    ensures var m := Reserve(n, k.row, size, queue, true).value.mem;
            k in m.diskMap && View(m)[k] == View(n.mem)[k] && (k in Hollow(m) <==> k in Hollow(n.mem))
  {
    hide View; hide Checkpoint; hide Evict; hide Demand; hide NeedsRoom; hide Valid; hide Empties;
    ReserveKeeps(n, k.row, size, queue);
    ViewKeys(n.mem);
    ViewKeys(Reserve(n, k.row, size, queue, true).value.mem);
    EmptiesAway(View(n.mem), if NeedsRoom(n.mem, k.row, size) then Limbo(n) else {}, k);
    var m := Consulted(n.mem, k.row);
    if NeedsRoom(n.mem, k.row, size) {
      var n0 := n.(mem := m);
      ConsultedIsValid(n, k.row);
      CheckpointKeeps(n0);
      CheckpointCache(n0);
      EvictKeeps(Checkpoint(n0).mem, k.row, Demand(n.mem, k.row, size), queue);
      var e := Evict(Checkpoint(n0).mem, k.row, Demand(n.mem, k.row, size), queue).value;
      assert k in e.cache <==> k in RowInCache(e, k.row);
      assert k in n.mem.cache <==> k in RowInCache(Checkpoint(n0).mem, k.row);
    }
  }

  lemma ConsultedIsValid(n: Node, row: string)
    requires NodeValid(n)
    ensures NodeValid(n.(mem := Consulted(n.mem, row)))
  {
    hide Valid;
    SameTable(n.mem, Consulted(n.mem, row));
  }

  lemma CheckpointCache(n: Node)
    ensures Checkpoint(n).mem.cache == n.mem.cache && Checkpoint(n).mem.resident == n.mem.resident
  {
  }

  lemma HollowCPutLayout(n: Node, k: Key, expected: string, value: string)
    requires NodeValid(n) && k in Hollow(n.mem)
    ensures LayoutOf(ApplyCPut(n, k, expected, value).1.mem) == LayoutOf(n.mem)
  {
    hide Valid; hide View; hide Hollow; hide Appended; hide ExtentNotBefore; hide CPutColumn; hide GetColumn;
    var m := GetColumn(n.mem, k).1;
    GetColumnKeeps(n.mem, k, n.modified);
    CPutColumnKeeps(m, k, expected, value, n.modified);
  }

  lemma CPutAlike(n: Node, op: Op)
    requires NodeValid(n) && op.CPut? && Step(n, op).Done?
    ensures Alike(LayoutAfter(LayoutOf(n.mem), EffectAt(n, op)), LayoutOf(Step(n, op).node.mem))
  {
    hide NodeValid; hide Reserve; hide Counted; hide ApplyCPut; hide Alike; hide LayoutAfter; hide Rewritten; hide View;
    hide Hollow;
    var k, v := op.key, op.value;
    var l := LayoutOf(n.mem);
    NoEffect(l);
    AlikeSelf(l);
    if k in n.mem.diskMap {
      var n1 := Reserve(n, k.row, |v|, op.queue, true).value;
      ReserveValid(n, k.row, |v|, op.queue);
      ReserveAlike(n, k.row, |v|, op.queue);
      ReserveSpares(n, k, |v|, op.queue);
      var (r, n2) := ApplyCPut(n1, k, op.expected, v);
      if k in Hollow(n1.mem) { HollowCPutLayout(n1, k, op.expected, v); } else { ApplyCPutLayout(n1, k, op.expected, v); }
      OneEffect(LayoutOf(n1.mem), Stored(k, v));
      AlikeAfter(l, LayoutOf(n1.mem), EffectAt(n, op));
      NoEffect(LayoutOf(n1.mem));
      CountedAlike(n2);
      AlikeTrans(LayoutAfter(l, EffectAt(n, op)), LayoutOf(n2.mem), LayoutOf(Counted(n2).mem));
    }
  }

  lemma AlikeSelf(l: Layout)
    ensures Alike(l, l)
  {
  }

  lemma DeleteAlike(n: Node, op: Op)
    requires NodeValid(n) && op.Delete?
    ensures Alike(LayoutAfter(LayoutOf(n.mem), EffectAt(n, op)), LayoutOf(Step(n, op).node.mem))
  {
    hide Valid; hide View; hide Hollow; hide Counted; hide DeleteColumn; hide LayoutAfter; hide Alike;
    NoEffect(LayoutOf(n.mem));
    AlikeSelf(LayoutOf(n.mem));
    if op.key in n.mem.diskMap {
      DeleteColumnKeeps(n.mem, op.key, n.modified);
      CountedAlike(ApplyDelete(n, op.key));
      OneEffect(LayoutOf(n.mem), Removed(op.key));
    }
  }

  lemma GetAlike(n: Node, op: Op)
    requires NodeValid(n) && op.Get? && Step(n, op).Done?
    ensures Alike(LayoutAfter(LayoutOf(n.mem), EffectAt(n, op)), LayoutOf(Step(n, op).node.mem))
  {
    hide Valid; hide View; hide Hollow; hide Checkpoint; hide WithEmpties; hide GetColumn; hide Evict; hide LayoutAfter;
    hide Alike; hide Limbo;
    GetAnswers(n, op);
    CheckpointLayout(n);
    LimboIsUnnamed(n);
    EmptiesAlike(LayoutOf(n.mem), Limbo(n));
    AlikeSelf(LayoutOf(n.mem));
    NoEffect(LayoutOf(n.mem));
  }

  lemma StepAlike(n: Node, op: Op)
    requires NodeValid(n) && Step(n, op).Done?
    ensures Alike(LayoutAfter(LayoutOf(n.mem), EffectAt(n, op)), LayoutOf(Step(n, op).node.mem))
  {
    hide NodeValid; hide Alike; hide LayoutAfter; hide EffectAt; hide Step;
    match op
    case Put(_, _, _) => PutAlike(n, op);
    case CPut(_, _, _, _) => CPutAlike(n, op);
    case Get(_, _) => GetAlike(n, op);
    case Delete(_) => DeleteAlike(n, op);
  }

  /** Over every run, whatever its checkpoints bring back, the pointer and the fragments are a function of what was
      written. */
  lemma {:induction false} RunAlike(n: Node, ops: seq<Op>)
    requires NodeValid(n) && Run(n, ops).Some?
    ensures Alike(LayoutAfter(LayoutOf(n.mem), EffectsAt(n, ops)), LayoutOf(Run(n, ops).value.0.mem))
    decreases |ops|
  {
    hide NodeValid; hide Step; hide EffectAt; hide LayoutAfter; hide Alike;
    NoEffect(LayoutOf(n.mem));
    AlikeSelf(LayoutOf(n.mem));
    if ops == [] {
    } else {
      var n1 := Step(n, ops[0]).node;
      StepValid(n, ops[0]);
      StepAlike(n, ops[0]);
      RunAlike(n1, ops[1..]);
      var now := LayoutAfter(LayoutOf(n.mem), EffectAt(n, ops[0]));
      LayoutAfterConcat(LayoutOf(n.mem), EffectAt(n, ops[0]), EffectsAt(n1, ops[1..]));
      AlikeAfter(now, LayoutOf(n1.mem), EffectsAt(n1, ops[1..]));
      AlikeTrans(LayoutAfter(now, EffectsAt(n1, ops[1..])), LayoutAfter(LayoutOf(n1.mem), EffectsAt(n1, ops[1..])),
                 LayoutOf(Run(n, ops).value.0.mem));
    }
  }

  /** Layout determinism: nodes that start alike and write the same end alike, whatever they read, evicted, reloaded or
      brought back on the way; and with the same `disk_map` exactly when they name the same columns. */
  lemma LayoutIsDeterministic(n: Node, ops: seq<Op>, p: Node, ops': seq<Op>)
    requires NodeValid(n) && Run(n, ops).Some? && NodeValid(p) && Run(p, ops').Some?
    requires Alike(LayoutOf(n.mem), LayoutOf(p.mem)) && EffectsAt(n, ops) == EffectsAt(p, ops')
    ensures var l, l' := LayoutOf(Run(n, ops).value.0.mem), LayoutOf(Run(p, ops').value.0.mem);
            Alike(l, l') && (l == l' <==> l.diskMap.Keys == l'.diskMap.Keys)
  {
    hide NodeValid; hide Run; hide LayoutAfter; hide EffectsAt; hide Alike;
    var l, l' := LayoutOf(Run(n, ops).value.0.mem), LayoutOf(Run(p, ops').value.0.mem);
    var es := EffectsAt(n, ops);
    RunAlike(n, ops);
    RunAlike(p, ops');
    AlikeAfter(LayoutOf(n.mem), LayoutOf(p.mem), es);
    AlikeSym(LayoutAfter(LayoutOf(n.mem), es), l);
    AlikeTrans(l, LayoutAfter(LayoutOf(n.mem), es), LayoutAfter(LayoutOf(p.mem), es));
    AlikeTrans(l, LayoutAfter(LayoutOf(p.mem), es), l');
    AlikeEqual(l, l');
  }

  lemma AlikeSym(l: Layout, l': Layout)
    requires Alike(l, l')
    ensures Alike(l', l)
  {
  }

  lemma AlikeEqual(l: Layout, l': Layout)
    requires Alike(l, l')
    ensures l == l' <==> l.diskMap.Keys == l'.diskMap.Keys
  {
    if l.diskMap.Keys == l'.diskMap.Keys {
      forall k | k in l.diskMap ensures k in l'.diskMap && l'.diskMap[k] == l.diskMap[k] {
        assert Fragments(l', k) == Fragments(l, k);
      }
      assert l.diskMap == l'.diskMap;
    }
  }

  // ---- Deletes of clean columns ---------------------------------------------------------------------

  /** No delete of the run names a column that is in `modified` when it arrives. */
  ghost predicate DeletesAreClean(n: Node, ops: seq<Op>)
    requires Run(n, ops).Some?
    decreases |ops|
  {
    ops == []
    || (!(ops[0].Delete? && ops[0].key in n.modified) && DeletesAreClean(Step(n, ops[0]).node, ops[1..]))
  }

  /** A run that deletes no column still in `modified` brings nothing back, so it is answered as by the plain map. */
  lemma {:induction false} CleanDeletesResurrectNothing(n: Node, ops: seq<Op>)
    requires Clean(n) && Limbo(n) == {} && Run(n, ops).Some? && DeletesAreClean(n, ops)
    ensures NothingResurrected(n, ops)
    decreases |ops|
  {
    hide Clean; hide Step; hide View; hide EffectOf; hide LayoutAfter; hide Limbo; hide Forces; hide Counts;
    if ops == [] {
    } else {
      assert Resurrected(n, ops[0]) == {} by { QuietLimbo(n, ops[0]); }
      StepRefinesIff(n, ops[0]);
      StepLayout(n, ops[0]);
      CleanDeletesResurrectNothing(Step(n, ops[0]).node, ops[1..]);
    }
  }

  lemma QuietLimbo(n: Node, op: Op)
    requires Limbo(n) == {} && !(op.Delete? && op.key in n.modified)
    ensures Resurrected(n, op) == {}
  {
  }
}
