/** The storage server as the source has it (kvstore/kv_store.cpp): its globals as fields, its handlers as methods
    that update them in place, each proved to do what module StorageNode says of it. */
module StoreImplementation {
  import opened Extents
  import opened Memtable
  import opened Options
  import opened Checkpointing
  import opened StorageNode
  import opened NodeRuns
  import opened CacheImplementation

  /** The checkpoint on the way: the columns in `todo` are still to be written. */
  ghost predicate Flushing(m: Mem, modified: set<Key>, now: Mem, todo: set<Key>) {
    && todo <= modified
    && now == m.(blocks := now.blocks, diskMap := WithEmptyEntries(m.diskMap, modified - todo))
    && Flush(now.blocks, m, todo) == Flush(m.blocks, m, modified)
  }

  lemma FlushingStarts(m: Mem, modified: set<Key>)
    ensures Flushing(m, modified, m, modified)
  {
    assert modified - modified == {};
    assert WithEmptyEntries(m.diskMap, {}) == m.diskMap;
  }

  lemma FlushingEnds(m: Mem, modified: set<Key>, now: Mem)
    requires Flushing(m, modified, now, {})
    ensures now == Flushed(m, modified)
  {
    assert modified - {} == modified;
  }

  /** `memtable.get` of a modified column finds its row in the cache and so changes nothing. */
  lemma FlushingGets(m: Mem, modified: set<Key>, now: Mem, todo: set<Key>, k: Key)
    requires Valid(m, modified) && Flushing(m, modified, now, todo) && k in todo
    ensures GetColumn(now, k) == (if k in m.cache then Some(m.cache[k]) else None, now)
    ensures k in m.cache ==> k in now.diskMap && now.diskMap[k] == m.diskMap[k] && Writable(m, k)
    ensures k in now.diskMap && k !in m.cache ==> now.diskMap[k] == []
  {
    hide DiskOk; hide CleanOnDisk; hide Flush;
    assert now.resident + {k.row} == now.resident;
  }

  lemma FlushingStep(m: Mem, modified: set<Key>, now: Mem, todo: set<Key>, k: Key, next: Mem)
    requires Valid(m, modified) && Flushing(m, modified, now, todo) && k in todo
    requires next == now.(blocks := next.blocks, diskMap := if k in now.diskMap then now.diskMap else now.diskMap[k := []])
    requires next.blocks == FlushKey(now.blocks, m, k)
    ensures Flushing(m, modified, next, todo - {k})
  {
    hide CleanOnDisk; hide Flush; hide FlushKey; hide ExtentsApart; hide ExtentsOk; hide CacheOk;
    FlushAny(now.blocks, m, todo, k);
    var done := modified - todo;
    assert modified - (todo - {k}) == done + {k};
    assert next.diskMap == WithEmptyEntries(m.diskMap, done + {k});
  }

  lemma {:induction false} TotalSplit(e: seq<BlockPtr>, i: nat)
    requires i < |e|
    ensures Total(e[i..]) == e[i].size + Total(e[i + 1..])
  {
    assert e[i..][1..] == e[i + 1..];
  }

  class KVStore {
    const memtable: KVCache
    var modified: set<Key>
    var numOperations: nat
    var numCheckpoints: nat
    /** The metadata file, once there is one, and the log file. */
    var metadata: Layout
    var saved: bool
    var logVersion: nat
    var log: seq<Record>

    constructor (capacity: nat)
      ensures fresh(memtable)
      ensures NodeState() == FreshNode(capacity)
    {
      memtable := new KVCache(capacity);
      modified, numOperations, numCheckpoints := {}, 0, 1;
      metadata, saved, logVersion, log := Layout(map[], 0, 0), false, 1, [];
    }

    function NodeState(): Node
      reads this, memtable
    {
      Node(memtable.State(), modified, numOperations, numCheckpoints, metadata, saved, logVersion, log)
    }

    /** The block writes of one column. */
    method WriteColumn(blockPtrs: seq<BlockPtr>, value: string)
      requires Total(blockPtrs) == |value|
      modifies memtable`blocks
      ensures memtable.blocks == WriteExtent(old(memtable.blocks), blockPtrs, value)
    {
      var size := 0;
      assert blockPtrs[0..] == blockPtrs && value[0..] == value;
      for i := 0 to |blockPtrs|
        invariant 0 <= size <= |value| && Total(blockPtrs[i..]) == |value| - size
        invariant WriteExtent(memtable.blocks, blockPtrs[i..], value[size..])
                  == WriteExtent(old(memtable.blocks), blockPtrs, value)
      {
        var b := blockPtrs[i];
        TotalSplit(blockPtrs, i);
        assert blockPtrs[i..][1..] == blockPtrs[i + 1..];
        assert value[size..][..b.size] == value[size..size + b.size];
        assert value[size..][b.size..] == value[size + b.size..];
        memtable.blocks := WriteFragment(memtable.blocks, b, value[size..size + b.size]);
        size := size + b.size;
      }
    }

    method WriteModified()
      requires Valid(memtable.State(), modified)
      modifies memtable
      ensures memtable.State() == Flushed(old(memtable.State()), modified)
    {
      hide Flushing; hide Valid; hide GetColumn; hide Flushed;
      ghost var m := memtable.State();
      var todo := modified;
      FlushingStarts(m, modified);
      while todo != {}
        invariant todo <= modified && Flushing(m, modified, memtable.State(), todo)
        decreases todo
      {
        var k :| k in todo;
        ghost var before := memtable.State();
        FlushingGets(m, modified, before, todo, k);
        var found := memtable.Get(k);
        var value := if found.Some? then found.value else "";
        if k !in memtable.diskMap {
          memtable.diskMap := memtable.diskMap[k := []];
        }
        WriteColumn(memtable.diskMap[k], value);
        FlushingStep(m, modified, before, todo, k, memtable.State());
        todo := todo - {k};
      }
      FlushingEnds(m, modified, memtable.State());
    }

    method Checkpoint()
      requires NodeValid(NodeState())
      modifies this, memtable
      ensures NodeState() == StorageNode.Checkpoint(old(NodeState()))
    {
      hide Valid; hide Flushed;
      WriteModified();
      modified := {};
      metadata, saved := Layout(memtable.diskMap, memtable.blockId, memtable.blockOffset), true;
      numOperations := 0;
      numCheckpoints := numCheckpoints + 1;
      logVersion, log := numCheckpoints, [];
    }

    method TryCheckpoint(force: bool)
      requires NodeValid(NodeState())
      modifies this, memtable
      ensures NodeState() == if force then StorageNode.Checkpoint(old(NodeState())) else Counted(old(NodeState()))
    {
      if force {
        Checkpoint();
      } else if numOperations == CHECKPOINT_THRESHOLD {
        Checkpoint();
      }
    }

    /** The eviction at the head of the write handlers. */
    method MakeRoom(row: string, size: nat, queue: seq<string>)
      requires NodeValid(NodeState()) && Reserve(NodeState(), row, size, queue, true).Some?
      modifies this, memtable
      ensures Some(NodeState()) == Reserve(old(NodeState()), row, size, queue, true)
    {
      hide NodeValid; hide StorageNode.Checkpoint; hide Evict;
      ConsultedValid(NodeState(), row);
      if row in memtable.resident {
        if size > memtable.availableMemory {
          TryCheckpoint(true);
          var _ := memtable.EvictUsers(row, size, queue);
        }
      } else {
        var rowSize := RowSize(memtable.State(), row);
        memtable.rowSizes := memtable.rowSizes[row := rowSize];
        if SizeT(rowSize + size) > memtable.availableMemory {
          TryCheckpoint(true);
          var _ := memtable.EvictUsers(row, SizeT(rowSize + size), queue);
        }
      }
    }

    method Put(k: Key, value: string, queue: seq<string>) returns (reply: Reply)
      requires NodeValid(NodeState()) && Step(NodeState(), Op.Put(k, value, queue)).Done?
      modifies this, memtable
      ensures Done(NodeState(), reply) == Step(old(NodeState()), Op.Put(k, value, queue))
      ensures NodeValid(NodeState())
    {
      hide NodeValid; hide Reserve; hide PutColumn; hide Counted;
      ReserveValid(NodeState(), k.row, |value|, queue);
      MakeRoom(k.row, |value|, queue);
      ApplyPutValid(NodeState(), k, value);
      log := log + [PutRecord(k, value)];
      memtable.Put(k, value);
      modified := modified + {k};
      numOperations := numOperations + 1;
      CountedValid(NodeState());
      TryCheckpoint(false);
      reply := Success;
    }

    method Get(k: Key, queue: seq<string>) returns (reply: Reply)
      requires NodeValid(NodeState()) && Step(NodeState(), Op.Get(k, queue)).Done?
      modifies this, memtable
      ensures Done(NodeState(), reply) == Step(old(NodeState()), Op.Get(k, queue))
      ensures NodeValid(NodeState())
    {
      hide NodeValid; hide StorageNode.Checkpoint; hide GetColumn; hide Evict;
      GetValid(NodeState(), Op.Get(k, queue));
      if k !in memtable.diskMap {
        return MissingKey;
      }
      if k.row !in memtable.resident {
        TryCheckpoint(true);
        var rowSize := RowSize(memtable.State(), k.row);
        memtable.rowSizes := memtable.rowSizes[k.row := rowSize];
        var _ := memtable.EvictUsers(k.row, SizeT(rowSize), queue);
      }
      var value := memtable.Get(k);
      reply := Found(if value.Some? then value.value else "");
    }

    method Delete(k: Key) returns (reply: Reply)
      requires NodeValid(NodeState())
      modifies this, memtable
      ensures Done(NodeState(), reply) == Step(old(NodeState()), Op.Delete(k))
      ensures NodeValid(NodeState())
    {
      hide NodeValid; hide DeleteColumn; hide Counted;
      if k !in memtable.diskMap {
        return MissingKey;
      }
      ApplyDeleteValid(NodeState(), k);
      log := log + [DeleteRecord(k)];
      var _ := memtable.Dele(k);
      numOperations := numOperations + 1;
      CountedValid(NodeState());
      TryCheckpoint(false);
      reply := Success;
    }

    method CPut(k: Key, expected: string, value: string, queue: seq<string>) returns (reply: Reply)
      requires NodeValid(NodeState()) && Step(NodeState(), Op.CPut(k, expected, value, queue)).Done?
      modifies this, memtable
      ensures Done(NodeState(), reply) == Step(old(NodeState()), Op.CPut(k, expected, value, queue))
      ensures NodeValid(NodeState())
    {
      hide NodeValid; hide Reserve; hide GetColumn; hide CPutColumn; hide Counted;
      if k !in memtable.diskMap {
        return MissingKey;
      }
      ReserveValid(NodeState(), k.row, |value|, queue);
      MakeRoom(k.row, |value|, queue);
      ApplyCPutValid(NodeState(), k, expected, value);
      var _ := memtable.Get(k);
      log := log + [CPutRecord(k, expected, value)];
      var r := memtable.CPut(k, expected, value);
      if r == Mismatch {
        return ValueMismatch;
      }
      modified := modified + {k};
      numOperations := numOperations + 1;
      CountedValid(NodeState());
      TryCheckpoint(false);
      reply := Success;
    }
  }
}
