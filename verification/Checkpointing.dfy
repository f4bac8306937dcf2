/** The block writes of `checkpoint()` (kvstore/kv_store.cpp:298-319): every modified column that has a value
    is written to its extent. The order in which the hash tables are walked does not matter. */
module Checkpointing {
  import opened Extents
  import opened Memtable

  predicate Writable(m: Mem, k: Key) {
    k in m.cache && k in m.diskMap && Total(m.diskMap[k]) == |m.cache[k]|
  }

  /** One column. A column without a cached value has an empty extent, so nothing is written for it. */
  function FlushKey(b: Blocks, m: Mem, k: Key): Blocks {
    if Writable(m, k) then WriteExtent(b, m.diskMap[k], m.cache[k]) else b
  }

  ghost function Flush(b: Blocks, m: Mem, todo: set<Key>): Blocks
    decreases todo
  {
    if todo == {} then b
    else var k :| k in todo; Flush(FlushKey(b, m, k), m, todo - {k})
  }

  lemma FlushKeysCommute(b: Blocks, m: Mem, k: Key, k': Key)
    requires ExtentsApart(m.diskMap)
    ensures FlushKey(FlushKey(b, m, k), m, k') == FlushKey(FlushKey(b, m, k'), m, k)
  {
    if k != k' && Writable(m, k) && Writable(m, k') {
      ExtentsCommute(b, m.diskMap[k], m.cache[k], m.diskMap[k'], m.cache[k']);
    }
  }

  /** Any column may be flushed first. */
  lemma {:induction false} FlushAny(b: Blocks, m: Mem, todo: set<Key>, k: Key)
    requires ExtentsApart(m.diskMap) && k in todo
    ensures Flush(b, m, todo) == Flush(FlushKey(b, m, k), m, todo - {k})
    decreases todo
  {
    hide ExtentsApart; hide FlushKey;
    var k0 :| k0 in todo && Flush(b, m, todo) == Flush(FlushKey(b, m, k0), m, todo - {k0});
    if k0 != k {
      FlushAny(FlushKey(b, m, k0), m, todo - {k0}, k);
      FlushKeysCommute(b, m, k0, k);
      FlushAny(FlushKey(b, m, k), m, todo - {k}, k0);
      assert todo - {k0} - {k} == todo - {k} - {k0};
    }
  }

  ghost predicate ApartFromAll(d: seq<BlockPtr>, m: Mem, todo: set<Key>) {
    forall k :: k in todo && k in m.diskMap ==> MutuallyApart(d, m.diskMap[k])
  }

  /** What is apart from the flushed columns keeps its bytes. */
  lemma {:induction false} FlushFrame(b: Blocks, m: Mem, todo: set<Key>, d: seq<BlockPtr>)
    requires Allocated(b, m.blockId) && ExtentsOk(m.diskMap, m.blockId, m.blockOffset)
    ensures Allocated(Flush(b, m, todo), m.blockId)
    ensures ApartFromAll(d, m, todo) ==> ReadExtent(Flush(b, m, todo), d) == ReadExtent(b, d)
    decreases todo
  {
    if todo == {} {
    } else {
      var k :| k in todo && Flush(b, m, todo) == Flush(FlushKey(b, m, k), m, todo - {k});
      FlushKeyFrame(b, m, k, d);
      FlushFrame(FlushKey(b, m, k), m, todo - {k}, d);
    }
  }

  lemma FlushKeyFrame(b: Blocks, m: Mem, k: Key, d: seq<BlockPtr>)
    requires Allocated(b, m.blockId) && ExtentsOk(m.diskMap, m.blockId, m.blockOffset)
    ensures Allocated(FlushKey(b, m, k), m.blockId)
    ensures k in m.diskMap && MutuallyApart(d, m.diskMap[k]) ==> ReadExtent(FlushKey(b, m, k), d) == ReadExtent(b, d)
    ensures k !in m.diskMap ==> FlushKey(b, m, k) == b
  {
    if Writable(m, k) {
      assert ExtentOk(m.diskMap[k], m.blockId, m.blockOffset);
      WriteExtentFrame(b, m.diskMap[k], m.cache[k], BlockPtr(0, 0, 0), m.blockId);
      if MutuallyApart(d, m.diskMap[k]) {
        WriteLeavesOthers(b, m.diskMap[k], m.cache[k], d, m.blockId);
      }
    }
  }

  /** Every flushed column can be read back. */
  lemma {:induction false} FlushWrites(b: Blocks, m: Mem, todo: set<Key>, k: Key)
    requires DiskOk(m.diskMap, m.blockId, m.blockOffset, b)
    requires k in todo && Writable(m, k)
    ensures ReadExtent(Flush(b, m, todo), m.diskMap[k]) == m.cache[k]
  {
    FlushAny(b, m, todo, k);
    assert ExtentOk(m.diskMap[k], m.blockId, m.blockOffset);
    ReadAfterWrite(b, m.diskMap[k], m.cache[k], m.blockId);
    FlushKeyFrame(b, m, k, []);
    FlushFrame(FlushKey(b, m, k), m, todo - {k}, m.diskMap[k]);
  }

  /** Shadow writes: when the flushed columns lie at or after a position, nothing before it changes. */
  lemma {:induction false} FlushAgrees(b: Blocks, m: Mem, todo: set<Key>, id: nat, offset: nat)
    requires forall k :: k in todo && k in m.diskMap ==> ExtentNotBefore(m.diskMap[k], id, offset)
    ensures AgreeBefore(b, Flush(b, m, todo), id, offset)
    decreases todo
  {
    if todo == {} {
    } else {
      var k :| k in todo && Flush(b, m, todo) == Flush(FlushKey(b, m, k), m, todo - {k});
      if Writable(m, k) {
        WriteExtentAgrees(b, m.diskMap[k], m.cache[k], id, offset);
      }
      FlushAgrees(FlushKey(b, m, k), m, todo - {k}, id, offset);
      AgreeTransitive(b, FlushKey(b, m, k), Flush(b, m, todo), id, offset);
    }
  }

  /** `memtable.disk_map[row][column]` creates an empty entry for a modified column that was deleted. */
  function WithEmptyEntries(d: DiskMap, modified: set<Key>): DiskMap {
    d + (map k | k in modified && k !in d :: [])
  }

  /** The table after the block writes. */
  ghost function Flushed(m: Mem, modified: set<Key>): Mem {
    m.(blocks := Flush(m.blocks, m, modified), diskMap := WithEmptyEntries(m.diskMap, modified))
  }

  lemma FlushedDisk(m: Mem, modified: set<Key>)
    requires Valid(m, modified)
    ensures DiskOk(Flushed(m, modified).diskMap, m.blockId, m.blockOffset, Flushed(m, modified).blocks)
  {
    FlushFrame(m.blocks, m, modified, []);
  }

  lemma FlushedReads(m: Mem, modified: set<Key>, k: Key)
    requires Valid(m, modified) && k in m.diskMap
    ensures var b' := Flush(m.blocks, m, modified);
            ReadExtent(b', m.diskMap[k]) == (if k in m.cache then m.cache[k] else ReadExtent(m.blocks, m.diskMap[k]))
  {
    if k in modified && k in m.cache {
      FlushWrites(m.blocks, m, modified, k);
    } else {
      if k in modified {
        assert m.diskMap[k] == [];
      }
      FlushFrame(m.blocks, m, modified, m.diskMap[k]);
    }
  }

  lemma FlushedView(m: Mem, modified: set<Key>)
    requires Valid(m, modified)
    ensures View(Flushed(m, modified)) == View(m) + (map k | k in modified && k !in m.diskMap :: "")
  {
    hide Valid; hide Flush;
    CachedOnDisk(m, modified);
    var m', back := Flushed(m, modified), map k | k in modified && k !in m.diskMap :: "";
    forall k | k in m'.diskMap ensures View(m')[k] == (View(m) + back)[k] {
      if k in m.diskMap {
        FlushedReads(m, modified, k);
      } else {
        assert m'.diskMap[k] == [];
      }
    }
  }

  lemma CachedOnDisk(m: Mem, modified: set<Key>)
    requires Valid(m, modified)
    ensures forall k :: k in m.cache ==> k in m.diskMap
  {
    hide DiskOk;
  }

  lemma FlushedClean(m: Mem, modified: set<Key>)
    requires Valid(m, modified)
    ensures var m' := Flushed(m, modified);
            CacheOk(m'.resident, m'.cache, m'.diskMap) && CleanOnDisk(m'.cache, m'.diskMap, m'.blocks, {})
  {
    hide DiskOk; hide Flush;
    forall k | k in m.cache ensures ReadExtent(Flushed(m, modified).blocks, m.diskMap[k]) == m.cache[k] {
      FlushedReads(m, modified, k);
    }
  }

  /** After a checkpoint nothing is dirty and no answer has changed, but every deleted column that was still in
      `modified` is back as an empty one. */
  lemma FlushedKeeps(m: Mem, modified: set<Key>)
    requires Valid(m, modified)
    ensures var m' := Flushed(m, modified);
            && Valid(m', {})
            && View(m') == View(m) + (map k | k in modified && k !in m.diskMap :: "")
            && Hollow(m') == Hollow(m) + (modified - m.diskMap.Keys)
  {
    hide DiskOk; hide View;
    FlushedDisk(m, modified);
    FlushedView(m, modified);
    FlushedClean(m, modified);
    CachedOnDisk(m, modified);
  }
}
