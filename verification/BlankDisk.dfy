/** Space in the block files that no extent has had yet: it holds NUL bytes only, in every reachable state. */
module BlankDisk {
  import opened Extents
  import opened Memtable
  import opened Checkpointing
  import opened StorageNode
  import opened NodeRuns

  /** Every byte at or after the position is NUL; bytes beyond the end of a file read as NUL too. */
  ghost predicate Blank(b: Blocks, id: nat, offset: nat) {
    forall i: nat, o: nat {:trigger ByteAt(b, i, o)} :: PosLe(id, offset, i, o) ==> ByteAt(b, i, o) == '\0'
  }

  /** The node has written below its bump pointer only. */
  ghost predicate BlankBeyond(m: Mem) {
    Blank(m.blocks, m.blockId, m.blockOffset)
  }

  lemma {:induction false} ReadBlank(b: Blocks, id: nat, offset: nat, e: seq<BlockPtr>)
    requires Blank(b, id, offset) && ExtentNotBefore(e, id, offset)
    ensures ReadExtent(b, e) == Zeros(Total(e))
    decreases |e|
  {
    if e == [] {
    } else {
      assert forall i :: 0 <= i < |e[1..]| ==> e[1..][i] == e[i + 1];
      ReadBlank(b, id, offset, e[1..]);
      assert NotBefore(e[0], id, offset);
      assert ReadFragment(b, e[0]) == Zeros(e[0].size);
    }
  }

  lemma {:induction false} RecreatedBlank(b: Blocks, lo: nat, hi: nat, offset: nat)
    requires Blank(b, lo, offset)
    ensures Blank(Recreated(b, lo, hi), lo, offset)
    decreases hi
  {
    if hi <= lo {
    } else {
      RecreatedBlank(b, lo, hi - 1, offset);
      var b1 := Recreated(b, lo, hi - 1);
      forall i: nat, o: nat | PosLe(lo, offset, i, o) ensures ByteAt(Recreated(b, lo, hi), i, o) == '\0' {
        assert ByteAt(b1, i, o) == '\0';
      }
    }
  }

  lemma BlankMonotone(b: Blocks, id: nat, offset: nat, id': nat, offset': nat)
    requires Blank(b, id, offset) && PosLe(id, offset, id', offset')
    ensures Blank(b, id', offset')
  {
    forall i: nat, o: nat | PosLe(id', offset', i, o) ensures ByteAt(b, i, o) == '\0' {
      assert PosLe(id, offset, i, o);
    }
  }

  /** A checkpoint writes extents, and those lie below the pointer. */
  lemma FlushBlank(b: Blocks, m: Mem, todo: set<Key>)
    requires Blank(b, m.blockId, m.blockOffset) && DiskOk(m.diskMap, m.blockId, m.blockOffset, b)
    ensures Blank(Flush(b, m, todo), m.blockId, m.blockOffset)
  {
    hide Flush;
    var b' := Flush(b, m, todo);
    forall i: nat, o: nat | PosLe(m.blockId, m.blockOffset, i, o) ensures ByteAt(b', i, o) == '\0' {
      var f := BlockPtr(i, o, 1);
      forall k | k in todo && k in m.diskMap ensures MutuallyApart([f], m.diskMap[k]) {
        assert ExtentOk(m.diskMap[k], m.blockId, m.blockOffset);
      }
      FlushFrame(b, m, todo, [f]);
      assert [f][1..] == [];
      assert ReadFragment(b', f)[0] == ByteAt(b', i, o) && ReadFragment(b, f)[0] == ByteAt(b, i, o);
      assert ReadExtent(b', [f]) == ReadFragment(b', f) && ReadExtent(b, [f]) == ReadFragment(b, f);
    }
  }

  lemma CheckpointBlank(n: Node)
    requires NodeValid(n) && BlankBeyond(n.mem)
    ensures BlankBeyond(Checkpoint(n).mem)
  {
    hide CacheOk; hide CleanOnDisk; hide DirtyResident; hide Flush;
    FlushBlank(n.mem.blocks, n.mem, n.modified);
  }

  lemma UpdateBlank(m: Mem, k: Key, size: nat)
    requires BlankBeyond(m)
    ensures BlankBeyond(UpdateDiskMap(m, k, size))
  {
    hide Blank; hide Recreated;
    var m' := UpdateDiskMap(m, k, size);
    RecreatedBlank(m.blocks, m.blockId, m'.blockId, m.blockOffset);
    BlankMonotone(m'.blocks, m.blockId, m.blockOffset, m'.blockId, m'.blockOffset);
  }

  lemma SameBlank(m: Mem, m': Mem)
    requires BlankBeyond(m) && m'.blocks == m.blocks && m'.blockId == m.blockId && m'.blockOffset == m.blockOffset
    ensures BlankBeyond(m')
  {
  }

  lemma LoadRowPointer(m: Mem, row: string)
    ensures LayoutOf(LoadRow(m, row)) == LayoutOf(m) && LoadRow(m, row).blocks == m.blocks
  {
  }

  lemma DeletePointer(m: Mem, k: Key)
    ensures var m' := DeleteColumn(m, k).1;
            m'.blocks == m.blocks && m'.blockId == m.blockId && m'.blockOffset == m.blockOffset
  {
    hide SizeT; hide RowSize;
  }

  lemma PutPlaces(m: Mem, k: Key, value: string)
    ensures var m' := PutColumn(m, k, value);
            && m'.blocks == Recreated(m.blocks, m.blockId, m'.blockId) && k in m'.cache && m'.cache[k] == value
            && k in m'.diskMap && m'.diskMap[k] == Place(m.blockId, m.blockOffset, |value|).extent
  {
    hide Recreated; hide Place; hide SizeT; hide RowSize; hide LoadRow; hide DeleteColumn;
    var m1 := LoadRow(m, k.row);
    assert LayoutOf(m1) == LayoutOf(m) && m1.blocks == m.blocks by { LoadRowPointer(m, k.row); }
    DeletePointer(m1, k);
  }

  lemma CPutPlaces(m: Mem, k: Key, expected: string, value: string)
    requires CPutColumn(m, k, expected, value).0.Swapped?
    ensures var m' := CPutColumn(m, k, expected, value).1;
            && m'.blocks == Recreated(m.blocks, m.blockId, m'.blockId) && k in m'.cache && m'.cache[k] == value
            && k in m'.diskMap && m'.diskMap[k] == Place(m.blockId, m.blockOffset, |value|).extent
  {
    hide Recreated; hide Place; hide SizeT; hide RowSize; hide LoadRow;
    LoadRowPointer(m, k.row);
  }

  lemma PutBlank(m: Mem, k: Key, value: string)
    requires BlankBeyond(m)
    ensures BlankBeyond(PutColumn(m, k, value))
  {
    hide BlankBeyond; hide UpdateDiskMap; hide LoadRow; hide DeleteColumn; hide SizeT; hide RowSize;
    var m1 := LoadRow(m, k.row);
    LoadRowPointer(m, k.row);
    DeletePointer(m1, k);
    var m2 := if k in m1.cache then DeleteColumn(m1, k).1 else m1;
    var m3 := m2.(resident := m2.resident + {k.row}, cache := m2.cache[k := value],
                  available := SizeT(m2.available - |value|),
                  rowSizes := m2.rowSizes[k.row := RowSize(m2, k.row) + |value|]);
    SameBlank(m, m3);
    UpdateBlank(m3, k, |value|);
  }

  lemma GetBlank(m: Mem, k: Key)
    requires BlankBeyond(m)
    ensures BlankBeyond(GetColumn(m, k).1)
  {
    SameBlank(m, GetColumn(m, k).1);
  }

  lemma CPutBlank(m: Mem, k: Key, expected: string, value: string)
    requires BlankBeyond(m)
    ensures BlankBeyond(CPutColumn(m, k, expected, value).1)
  {
    hide BlankBeyond; hide UpdateDiskMap; hide GetColumn;
    var m1 := GetColumn(m, k).1;
    GetBlank(m, k);
    var m2 := m1.(cache := m1.cache[k := value], available := SizeT(m1.available - (|expected| - |value|)),
                  rowSizes := m1.rowSizes[k.row := RowSize(m1, k.row) + (|value| - |expected|)]);
    SameBlank(m1, m2);
    UpdateBlank(m2, k, |value|);
  }

  lemma DeleteBlank(m: Mem, k: Key)
    requires BlankBeyond(m)
    ensures BlankBeyond(DeleteColumn(m, k).1)
  {
    SameBlank(m, DeleteColumn(m, k).1);
  }

  lemma {:induction false} EvictBlank(m: Mem, user: string, size: nat, queue: seq<string>)
    requires BlankBeyond(m) && Evict(m, user, size, queue).Some?
    ensures BlankBeyond(Evict(m, user, size, queue).value)
    decreases |queue|
  {
    hide BlankBeyond;
    if size <= m.available || queue == [] {
    } else if queue[0] == user {
      EvictBlank(m, user, size, queue[1..]);
    } else {
      SameBlank(m, DropRow(m, queue[0]));
      EvictBlank(DropRow(m, queue[0]), user, size, queue[1..]);
    }
  }

  lemma ReserveBlank(n: Node, row: string, size: nat, queue: seq<string>, force: bool)
    requires NodeValid(n) && BlankBeyond(n.mem) && Reserve(n, row, size, queue, force).Some?
    ensures BlankBeyond(Reserve(n, row, size, queue, force).value.mem)
  {
    hide NodeValid; hide BlankBeyond; hide Evict; hide Demand; hide NeedsRoom; hide Checkpoint;
    var n0 := n.(mem := Consulted(n.mem, row));
    SameBlank(n.mem, n0.mem);
    if NeedsRoom(n.mem, row, size) {
      ConsultedValid(n, row);
      CheckpointBlank(n0);
      var n1 := if force then Checkpoint(n0) else n0;
      EvictBlank(n1.mem, row, Demand(n.mem, row, size), queue);
    }
  }

  lemma CountedBlank(n: Node)
    requires NodeValid(n) && BlankBeyond(n.mem)
    ensures BlankBeyond(Counted(n).mem)
  {
    hide NodeValid; hide BlankBeyond; hide Checkpoint;
    CheckpointBlank(n);
  }

  lemma StepBlank(n: Node, op: Op)
    requires NodeValid(n) && BlankBeyond(n.mem) && Step(n, op).Done?
    ensures BlankBeyond(Step(n, op).node.mem)
  {
    hide NodeValid; hide BlankBeyond; hide Reserve; hide Counted; hide PutColumn; hide CPutColumn; hide GetColumn;
    hide DeleteColumn; hide Checkpoint; hide Evict;
    match op
    case Put(k, v, queue) =>
      var n1 := Reserve(n, k.row, |v|, queue, true).value;
      ReserveValid(n, k.row, |v|, queue);
      ReserveBlank(n, k.row, |v|, queue, true);
      ApplyPutValid(n1, k, v);
      PutBlank(n1.mem, k, v);
      CountedBlank(ApplyPut(n1, k, v));
    case CPut(k, e, v, queue) =>
      if k in n.mem.diskMap {
        var n1 := Reserve(n, k.row, |v|, queue, true).value;
        ReserveValid(n, k.row, |v|, queue);
        ReserveBlank(n, k.row, |v|, queue, true);
        ApplyCPutValid(n1, k, e, v);
        GetBlank(n1.mem, k);
        CPutBlank(GetColumn(n1.mem, k).1, k, e, v);
        CountedBlank(ApplyCPut(n1, k, e, v).1);
      }
    case Get(k, queue) =>
      if k in n.mem.diskMap {
        GetBlank(n.mem, k);
        if k.row !in n.mem.resident {
          CheckpointBlank(n);
          var m := Sized(Checkpoint(n).mem, k.row);
          SameBlank(Checkpoint(n).mem, m);
          EvictBlank(m, k.row, SizeT(RowSize(m, k.row)), queue);
          GetBlank(Evict(m, k.row, SizeT(RowSize(m, k.row)), queue).value, k);
        }
      }
    case Delete(k) =>
      if k in n.mem.diskMap {
        ApplyDeleteValid(n, k);
        DeleteBlank(n.mem, k);
        CountedBlank(ApplyDelete(n, k));
      }
  }

  /** Over every run, with any checkpoints: what lies beyond the pointer has never been written. */
  lemma {:induction false} RunBlank(n: Node, ops: seq<Op>)
    requires NodeValid(n) && BlankBeyond(n.mem) && Run(n, ops).Some?
    ensures BlankBeyond(Run(n, ops).value.0.mem)
    decreases |ops|
  {
    hide NodeValid; hide BlankBeyond; hide Step;
    if ops == [] {
    } else {
      StepValid(n, ops[0]);
      StepBlank(n, ops[0]);
      RunBlank(Step(n, ops[0]).node, ops[1..]);
    }
  }

  lemma FreshIsBlank(capacity: nat)
    ensures BlankBeyond(FreshNode(capacity).mem)
  {
  }
}
