/** `recover_server` as the source has it (kvstore/kv_store.cpp:752-825): the restarted server fetches the log, reads the
    metadata file and replays the log, all from their texts. */
module ServerRecovery {
  import opened Options
  import opened Extents
  import opened Memtable
  import opened StorageNode
  import opened LogReplay
  import opened Recovery
  import opened LogFormat
  import opened MetadataFormat
  import opened RestartText
  import opened CacheImplementation
  import opened StoreImplementation

  /** What is left to do from the middle of a log. */
  ghost predicate Replaying(m: Mem, all: seq<Entry>, now: Mem, modified: set<Key>, rest: string) {
    ParseLog(rest).Some?
    && RedoEntries(now, ParseLog(rest).value) == RedoEntries(m, all)
    && modified + EntryKeys(ParseLog(rest).value) == EntryKeys(all)
  }

  lemma NextEntry(m: Mem, all: seq<Entry>, now: Mem, modified: set<Key>, rest: string)
    requires Replaying(m, all, now, modified, rest) && rest != ""
    ensures ParseEntry(rest).Some?
    ensures var (e, rest') := ParseEntry(rest).value;
            Replaying(m, all, RedoEntry(now, e), modified + {e.key}, rest')
  {
    hide ParseEntry; hide RedoEntry;
    var (e, rest') := ParseEntry(rest).value;
    var es := ParseLog(rest').value;
    assert ([e] + es)[1..] == es;
    assert modified + {e.key} + EntryKeys(es) == modified + EntryKeys([e] + es);
  }

  lemma BeginReplay(m: Mem, text: string)
    requires ParseLog(text).Some?
    ensures Replaying(m, ParseLog(text).value, m, {}, text)
  {
    hide ParseLog; hide RedoEntries;
  }

  lemma EndReplay(m: Mem, all: seq<Entry>, now: Mem, modified: set<Key>)
    requires Replaying(m, all, now, modified, "")
    ensures now == RedoEntries(m, all) && modified == EntryKeys(all)
  {
  }

  lemma ParseGoesOn(rest: string)
    requires rest != ""
    ensures ParseLog(rest).Some? <==> ParseEntry(rest).Some? && ParseLog(ParseEntry(rest).value.1).Some?
  {
    hide ParseEntry;
  }

  /** The loop over the log; it fails where a parse throws. */
  method ReplayLog(memtable: KVCache, text: string) returns (ok: bool, modified: set<Key>)
    modifies memtable
    ensures ok <==> ParseLog(text).Some?
    ensures ok ==> memtable.State() == RedoEntries(old(memtable.State()), ParseLog(text).value)
    ensures ok ==> modified == EntryKeys(ParseLog(text).value)
  {
    hide Replaying; hide PutColumn; hide CPutColumn; hide DeleteColumn; hide ParseEntry; hide ParseLog; hide RedoEntries;
    ghost var m, all := memtable.State(), if ParseLog(text).Some? then ParseLog(text).value else [];
    var rest := text;
    modified := {};
    if ParseLog(text).Some? { BeginReplay(m, text); }
    while rest != ""
      invariant ParseLog(rest).Some? <==> ParseLog(text).Some?
      invariant ParseLog(text).Some? ==> Replaying(m, all, memtable.State(), modified, rest)
      decreases |rest|
    {
      ParseGoesOn(rest);
      if ParseLog(text).Some? { NextEntry(m, all, memtable.State(), modified, rest); }
      var next := ParseEntry(rest);
      if next.None? {
        return false, {};
      }
      var e := next.value.0;
      rest := next.value.1;
      match e {
        case PutEntry(k, value) =>
          memtable.Put(k, value);
        case CPutEntry(k, expected, value) =>
          var _ := memtable.CPut(k, expected, value);
        case DeleEntry(k) =>
          var _ := memtable.Dele(k);
        case OtherEntry(_) =>
      }
      modified := modified + {e.key};
    }
    assert ParseLog("").Some? by { EmptyLog(); }
    EndReplay(m, all, memtable.State(), modified);
    ok := true;
  }

  lemma EmptyLog()
    ensures ParseLog("") == Some([])
  {
  }

  /** The table of the new process, from the metadata file. */
  method LoadTable(memtable: KVCache, blocks: Blocks, metadata: string) returns (ok: bool)
    modifies memtable
    ensures ok <==> ParseMetadata(metadata).Some? && ParseMetadata(metadata).value.2 <= BLOCK_SIZE
    ensures ok ==> memtable.State() ==
                     var (d, id, offset) := ParseMetadata(metadata).value;
                     old(memtable.State()).(diskMap := d, blockId := id, blockOffset := offset, blocks := blocks)
  {
    hide ParseMetadata;
    var read, diskMap, blockId, blockOffset := ReadMetadata(metadata);
    ok := read && blockOffset <= BLOCK_SIZE;
    if ok {
      memtable.blocks := blocks;
      memtable.diskMap, memtable.blockId, memtable.blockOffset := diskMap, blockId, blockOffset;
    }
  }

  /** A restart: the log comes through `FetchLog`, the metadata file as it is. From legible files it is the recovery of
      module Recovery, in whatever order the columns were written. */
  method Restart(d: Disk, order: seq<Key>, capacity: nat) returns (ok: bool, store: KVStore)
    requires Orders(order, d.metadata.diskMap)
    ensures fresh(store) && fresh(store.memtable)
    ensures var r := RestartFrom(MetadataFile(d, order), Received(PrintLog(d.log)), d.blocks, capacity);
            (ok <==> r.Some?) && (ok ==> r.value == (store.memtable.State(), store.modified))
    ensures Legible(d) ==> ok && store.NodeState() == Recover(d, capacity)
  {
    hide PrintLog; hide ParseLog; hide ParseMetadata; hide RedoEntries; hide RedoAll; hide EntryKeys; hide SizeT;
    hide MetadataFile; hide Legible; hide Received; hide LogKeys; hide Restarted;
    store := new KVStore(capacity);
    var log, _ := FetchLog(PrintLog(d.log));
    if Legible(d) { LegibleRestarts(d, order, capacity); }
    ok := LoadTable(store.memtable, d.blocks, MetadataFile(d, order));
    if !ok {
      return;
    }
    var replayed, modified := ReplayLog(store.memtable, log);
    ok := replayed;
    store.modified, store.numCheckpoints := modified, d.version;
    store.metadata, store.saved, store.logVersion, store.log := d.metadata, true, d.version, d.log;
  }
}
