/** `KVCache` as the source has it (kvstore/kv_cache.cpp): fields updated in place, each method proved to do what
    module Memtable says of it. */
module CacheImplementation {
  import opened Extents
  import opened Memtable
  import opened Options

  lemma {:induction false} ReadExtentSnoc(b: Blocks, e: seq<BlockPtr>, i: nat)
    requires i < |e|
    ensures ReadExtent(b, e[..i + 1]) == ReadExtent(b, e[..i]) + ReadFragment(b, e[i])
    decreases i
  {
    if i == 0 {
      assert e[..1] == [e[0]];
      assert e[..1][1..] == [] && e[..0] == [];
    } else {
      ReadExtentSnoc(b, e[1..], i - 1);
      assert e[..i + 1][1..] == e[1..][..i] && e[..i][1..] == e[1..][..i - 1];
    }
  }

  /** Re-creating block `lo + 1` first changes nothing. */
  lemma {:induction false} RecreatedFirst(b: Blocks, lo: nat, hi: nat)
    requires lo < hi
    ensures Recreated(b[lo + 1 := Zeros(BLOCK_SIZE)], lo + 1, hi) == Recreated(b, lo, hi)
    decreases hi
  {
    if hi <= lo + 1 {
    } else {
      RecreatedFirst(b, lo, hi - 1);
    }
  }

  lemma RecreatedNone(b: Blocks, id: nat)
    ensures Recreated(b, id, id) == b
  {
  }

  lemma PlaceIdMoves(id: nat, offset: Offset, size: nat)
    requires size > 0 && offset + size > BLOCK_SIZE
    ensures Place(id, offset, size).id > id
  {
  }

  /** The row's columns read so far. */
  function Loaded(m: Mem, done: set<Key>): map<Key, string>
    requires done <= m.diskMap.Keys
  {
    map k | k in done :: ReadExtent(m.blocks, m.diskMap[k])
  }

  lemma LoadedMore(m: Mem, done: set<Key>, k: Key)
    requires done <= m.diskMap.Keys && k in m.diskMap && k !in done
    ensures Loaded(m, done + {k}) == Loaded(m, done)[k := ReadExtent(m.blocks, m.diskMap[k])]
    ensures Bytes(Loaded(m, done + {k})) == Bytes(Loaded(m, done)) + Total(m.diskMap[k])
  {
    var c := Loaded(m, done);
    var v := ReadExtent(m.blocks, m.diskMap[k]);
    assert Loaded(m, done + {k}) == c[k := v];
    BytesInsert(c, k, v);
  }

  function Columns(d: DiskMap, row: string): set<Key> {
    set k | k in d && k.row == row
  }

  /** `load_user_from_disk` on the way: the columns in `done` have been read. */
  ghost predicate Loading(m: Mem, row: string, done: set<Key>, now: Mem) {
    && done <= m.diskMap.Keys
    && now == m.(resident := m.resident + (if done == {} then {} else {row}),
                 cache := m.cache + Loaded(m, done),
                 available := SizeT(m.available - Bytes(Loaded(m, done))))
  }

  lemma LoadingStarts(m: Mem, row: string)
    ensures Loading(m, row, {}, m)
  {
    assert Loaded(m, {}) == map[];
    assert m.resident + {} == m.resident && m.cache + map[] == m.cache;
    BytesEmpty();
    SizeTSmall(m.available);
  }

  lemma LoadingSame(m: Mem, row: string, done: set<Key>, now: Mem)
    requires Loading(m, row, done, now)
    ensures now.diskMap == m.diskMap && now.blocks == m.blocks
  {
  }

  lemma LoadingStep(m: Mem, row: string, done: set<Key>, now: Mem, k: Key)
    requires Loading(m, row, done, now) && k in m.diskMap && k !in done
    ensures var s := ReadExtent(m.blocks, m.diskMap[k]);
            Loading(m, row, done + {k}, now.(resident := now.resident + {row}, cache := now.cache[k := s],
                                             available := SizeT(now.available - |s|)))
  {
    hide SizeT; hide Bytes; hide ReadExtent;
    LoadedMore(m, done, k);
    SizeTMinus(m.available, Bytes(Loaded(m, done)), |ReadExtent(m.blocks, m.diskMap[k])|);
    assert m.cache + Loaded(m, done + {k}) == (m.cache + Loaded(m, done))[k := ReadExtent(m.blocks, m.diskMap[k])];
    assert (m.resident + (if done == {} then {} else {row})) + {row} == m.resident + {row};
  }

  lemma LoadedRow(m: Mem, row: string, now: Mem)
    requires row !in m.resident && Loading(m, row, Columns(m.diskMap, row), now)
    ensures now == LoadRow(m, row)
  {
    hide Bytes; hide SizeT; hide ReadExtent;
    var columns := Columns(m.diskMap, row);
    assert Loaded(m, columns) == RowOnDisk(m, row);
    assert columns == {} <==> RowOnDisk(m, row) == map[] by { assert RowOnDisk(m, row).Keys == columns; }
    assert m.resident + {} == m.resident;
  }

  /** `update_disk_map` on the way: `size` of `total` bytes are still to be placed. */
  ghost predicate Placing(m: Mem, k: Key, total: nat, now: Mem, size: nat) {
    var all, rest := Place(m.blockId, m.blockOffset, total), Place(now.blockId, now.blockOffset, size);
    && k in now.diskMap && now.diskMap[k] + rest.extent == all.extent
    && now.blockId <= all.id && (rest.id, rest.offset) == (all.id, all.offset)
    && Recreated(now.blocks, now.blockId, all.id) == Recreated(m.blocks, m.blockId, all.id)
    && now == m.(diskMap := m.diskMap[k := now.diskMap[k]], blockId := now.blockId, blockOffset := now.blockOffset,
                 blocks := now.blocks)
  }

  lemma PlacingStarts(m: Mem, k: Key, size: nat)
    ensures Placing(m, k, size, m.(diskMap := m.diskMap[k := []]), size)
  {
    assert [] + Place(m.blockId, m.blockOffset, size).extent == Place(m.blockId, m.blockOffset, size).extent;
  }

  lemma PlacingOn(m: Mem, k: Key, total: nat, now: Mem, size: nat)
    requires Placing(m, k, total, now, size)
    ensures k in now.diskMap
  {
  }

  lemma PlacingSpills(m: Mem, k: Key, total: nat, now: Mem, size: nat)
    requires Placing(m, k, total, now, size) && size > 0 && now.blockOffset + size > BLOCK_SIZE
    ensures var rem := BLOCK_SIZE - now.blockOffset;
            Placing(m, k, total,
                    now.(diskMap := now.diskMap[k := now.diskMap[k] + [BlockPtr(now.blockId, now.blockOffset, rem)]],
                         blockId := now.blockId + 1, blockOffset := 0,
                         blocks := now.blocks[now.blockId + 1 := Zeros(BLOCK_SIZE)]),
                    size - rem)
  {
    hide Recreated; hide Zeros;
    PlaceIdMoves(now.blockId, now.blockOffset, size);
    RecreatedFirst(now.blocks, now.blockId, Place(m.blockId, m.blockOffset, total).id);
  }

  lemma PlacingFits(m: Mem, k: Key, total: nat, now: Mem, size: nat)
    requires Placing(m, k, total, now, size) && size > 0 && now.blockOffset + size <= BLOCK_SIZE
    ensures Placing(m, k, total,
                    now.(diskMap := now.diskMap[k := now.diskMap[k] + [BlockPtr(now.blockId, now.blockOffset, size)]],
                         blockOffset := now.blockOffset + size),
                    0)
  {
    hide Recreated;
  }

  lemma PlacingEnds(m: Mem, k: Key, total: nat, now: Mem)
    requires Placing(m, k, total, now, 0)
    ensures now == UpdateDiskMap(m, k, total)
  {
    RecreatedNone(now.blocks, now.blockId);
    assert now.diskMap[k] == Place(m.blockId, m.blockOffset, total).extent;
  }

  lemma SizeTMinus(a: int, b: int, c: int)
    ensures SizeT(SizeT(a - b) - c) == SizeT(a - b - c)
  {
  }

  class KVCache {
    var resident: set<string>
    var cache: map<Key, string>
    var rowSizes: map<string, int>
    var availableMemory: Unsigned
    var diskMap: DiskMap
    var blockId: nat
    var blockOffset: Offset
    /** The files `<dir>/block<id>`. */
    var blocks: Blocks

    constructor (capacity: nat)
      ensures State() == Mem({}, map[], map[], SizeT(capacity), map[], 0, 0, map[0 := Zeros(BLOCK_SIZE)])
    {
      resident, cache, rowSizes, availableMemory := {}, map[], map[], SizeT(capacity);
      diskMap, blockId, blockOffset, blocks := map[], 0, 0, map[0 := Zeros(BLOCK_SIZE)];
    }

    function State(): Mem
      reads this
    {
      Mem(resident, cache, rowSizes, availableMemory, diskMap, blockId, blockOffset, blocks)
    }

    /** Reads the fragments of one column, charging each to the available memory. */
    method ReadColumn(blockPtrs: seq<BlockPtr>) returns (s: string)
      modifies this`availableMemory
      ensures s == ReadExtent(blocks, blockPtrs)
      ensures availableMemory == SizeT(old(availableMemory) - |s|)
    {
      s := "";
      for i := 0 to |blockPtrs|
        invariant s == ReadExtent(blocks, blockPtrs[..i])
        invariant availableMemory == SizeT(old(availableMemory) - |s|)
      {
        ReadExtentSnoc(blocks, blockPtrs, i);
        SizeTMinus(old(availableMemory), |s|, blockPtrs[i].size);
        s := s + ReadFragment(blocks, blockPtrs[i]);
        availableMemory := SizeT(availableMemory - blockPtrs[i].size);
      }
      assert blockPtrs[..|blockPtrs|] == blockPtrs;
    }

    method LoadUserFromDisk(user: string) returns (loaded: bool)
      modifies this`resident, this`cache, this`availableMemory
      ensures State() == LoadRow(old(State()), user)
      ensures loaded == (user !in old(resident))
    {
      loaded := user !in resident;
      if loaded {
        ghost var m := State();
        LoadColumns(user);
        LoadedRow(m, user, State());
      }
    }

    method LoadColumns(user: string)
      modifies this`resident, this`cache, this`availableMemory
      ensures Loading(old(State()), user, Columns(diskMap, user), State())
    {
      hide Loading; hide SizeT;
      ghost var m := State();
      var columns := Columns(diskMap, user);
      var todo := columns;
      LoadingStarts(m, user);
      assert columns - todo == {};
      while todo != {}
        invariant todo <= columns <= diskMap.Keys
        invariant Loading(m, user, columns - todo, State())
        decreases todo
      {
        var k :| k in todo;
        ghost var before := State();
        LoadingSame(m, user, columns - todo, before);
        var s := ReadColumn(diskMap[k]);
        resident := resident + {user};
        cache := cache[k := s];
        LoadingStep(m, user, columns - todo, before, k);
        assert columns - todo + {k} == columns - (todo - {k});
        todo := todo - {k};
      }
      assert columns - {} == columns;
    }

    method UpdateDiskMap(k: Key, value: string)
      modifies this`diskMap, this`blockId, this`blockOffset, this`blocks
      ensures State() == Memtable.UpdateDiskMap(old(State()), k, |value|)
    {
      hide Placing; hide Zeros;
      ghost var m := State();
      diskMap := diskMap[k := []];
      var size: nat := |value|;
      PlacingStarts(m, k, size);
      while size > 0
        invariant Placing(m, k, |value|, State(), size)
        decreases size, blockOffset
      {
        PlacingOn(m, k, |value|, State(), size);
        if blockOffset + size > BLOCK_SIZE {
          PlacingSpills(m, k, |value|, State(), size);
          var rem := BLOCK_SIZE - blockOffset;
          diskMap := diskMap[k := diskMap[k] + [BlockPtr(blockId, blockOffset, rem)]];
          size := size - rem;
          blockId := blockId + 1;
          blockOffset := 0;
          blocks := blocks[blockId := Zeros(BLOCK_SIZE)];
        } else {
          PlacingFits(m, k, |value|, State(), size);
          diskMap := diskMap[k := diskMap[k] + [BlockPtr(blockId, blockOffset, size)]];
          blockOffset := blockOffset + size;
          size := 0;
        }
      }
      PlacingEnds(m, k, |value|, State());
    }

    /** `queue` is `row_sizes` sorted by size; emptying it is undefined in the source. */
    method EvictUsers(user: string, size: nat, queue: seq<string>) returns (flag: bool)
      requires Evict(State(), user, size, queue).Some?
      modifies this`resident, this`cache, this`availableMemory
      ensures Some(State()) == Evict(old(State()), user, size, queue)
      ensures flag <==> size > old(availableMemory)
    {
      var q := queue;
      flag := false;
      while size > availableMemory
        invariant if flag then size > old(availableMemory) else availableMemory == old(availableMemory)
        invariant Evict(State(), user, size, q) == Evict(old(State()), user, size, queue)
        decreases |q|
      {
        var p := q[0];
        q := q[1..];
        if p != user {
          flag := true;
          resident := resident - {p};
          cache := map k | k in cache && k.row != p :: cache[k];
          availableMemory := SizeT(availableMemory + Memtable.RowSize(State(), p));
        }
      }
    }

    method Dele(k: Key) returns (ok: bool)
      modifies this
      ensures (ok, State()) == DeleteColumn(old(State()), k)
    {
      if k !in diskMap {
        return false;
      }
      if k.row in resident {
        if k in cache {
          availableMemory := SizeT(availableMemory + |cache[k]|);
          rowSizes := rowSizes[k.row := RowSize(State(), k.row) - |cache[k]|];
          cache := cache - {k};
        } else {
          return false;
        }
      }
      diskMap := diskMap - {k};
      ok := true;
    }

    method Put(k: Key, value: string)
      modifies this
      ensures State() == PutColumn(old(State()), k, value)
    {
      hide LoadRow; hide SizeT; hide Place; hide Recreated;
      var _ := LoadUserFromDisk(k.row);
      if k in cache {
        var _ := Dele(k);
      }
      resident := resident + {k.row};
      cache := cache[k := value];
      availableMemory := SizeT(availableMemory - |value|);
      rowSizes := rowSizes[k.row := RowSize(State(), k.row) + |value|];
      UpdateDiskMap(k, value);
    }

    method Get(k: Key) returns (value: Option<string>)
      modifies this
      ensures (value, State()) == GetColumn(old(State()), k)
    {
      var _ := LoadUserFromDisk(k.row);
      resident := resident + {k.row};
      value := if k in cache then Some(cache[k]) else None;
    }

    method CPut(k: Key, expected: string, value: string) returns (r: CPutResult)
      modifies this
      ensures (r, State()) == CPutColumn(old(State()), k, expected, value)
    {
      hide LoadRow; hide SizeT; hide Place; hide Recreated;
      var _ := LoadUserFromDisk(k.row);
      resident := resident + {k.row};
      if k in cache {
        if cache[k] != expected {
          return Mismatch;
        }
        cache := cache[k := value];
        availableMemory := SizeT(availableMemory - (|expected| - |value|));
        rowSizes := rowSizes[k.row := RowSize(State(), k.row) + (|value| - |expected|)];
        UpdateDiskMap(k, value);
        r := Swapped;
      } else {
        r := NoColumn;
      }
    }
  }
}
