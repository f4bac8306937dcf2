/** Crash and recovery of a storage node (kvstore/kv_store.cpp:243-276, 752-825).

    A restarted node fetches the log and the metadata from the primary. When the versions match it keeps its own block
    files; the copies it fetches are then its own (see module Rejoining), so recovery is modelled on the node's own
    disk. */
module Recovery {
  import opened Extents
  import opened Memtable
  import opened StorageNode
  import opened NodeRuns
  import opened LogReplay
  import opened Durability

  /** Columns that the metadata file names without a fragment: those whose value is empty. */
  function Unlisted(d: DiskMap): set<Key> {
    set k | k in d && d[k] == []
  }

  /** What reading the metadata file makes of `disk_map`: an entry is created by its first fragment
      (kvstore/kv_store.cpp:262-272), so a column without fragments is not there afterwards. */
  function ReadBack(d: DiskMap): DiskMap {
    map k | k in d && d[k] != [] :: d[k]
  }

  /** The table of a new process that has read the metadata file. */
  function Restarted(b: Blocks, l: Layout, capacity: nat): Mem {
    Mem({}, map[], map[], SizeT(capacity), ReadBack(l.diskMap), l.blockId, l.blockOffset, b)
  }

  /** One record of the log; "DELETE" matches none of the types the replay looks for. */
  ghost function Redo(m: Mem, r: Record): Mem {
    match r
    case PutRecord(k, v) => PutColumn(m, k, v)
    case CPutRecord(k, e, v) => CPutColumn(m, k, e, v).1
    case DeleteRecord(_) => m
  }

  ghost function RedoAll(m: Mem, log: seq<Record>): Mem
    decreases |log|
  {
    if log == [] then m else RedoAll(Redo(m, log[0]), log[1..])
  }

  /** What a restart has to go by: the block files, the metadata file if there is one (`saved`), and the log with its
      version. */
  datatype Disk = Disk(blocks: Blocks, metadata: Layout, saved: bool, log: seq<Record>, version: nat)

  function DiskOf(n: Node): Disk {
    Disk(n.mem.blocks, n.metadata, n.saved, n.log, n.version)
  }

  /** `recover_server`: every record's column is marked modified, and `num_operations` starts again from 0. This takes
      the two files as what was written to them; module RestartText says when they are read back as that. */
  ghost function Recover(d: Disk, capacity: nat): Node {
    Node(RedoAll(Restarted(d.blocks, d.metadata, capacity), d.log), LogKeys(d.log), 0, d.version,
         d.metadata, true, d.version, d.log)
  }

  // ---- Replaying on the table -----------------------------------------------------------------------

  /** Columns that the replay writes. */
  function Redone(m: Table, log: seq<Record>): set<Key>
    decreases |log|
  {
    if log == [] then {}
    else (if Succeeds(m, log[0]) then {log[0].key} else {}) + Redone(Plain(m, log[0]), log[1..])
  }

  predicate Succeeds(m: Table, r: Record) {
    r.PutRecord? || (r.CPutRecord? && r.key in m && m[r.key] == r.expected)
  }

  function Plain(m: Table, r: Record): Table {
    if r.DeleteRecord? then m else Apply(m, r)
  }

  /** What one replayed record keeps. */
  ghost predicate RedoneOk(m: Mem, m': Mem, dirty: set<Key>, l: Layout) {
    && Valid(m', dirty) && Hollow(m') == {}
    && m.resident <= m'.resident
    && AgreeBefore(m.blocks, m'.blocks, l.blockId, l.blockOffset)
    && PosLe(l.blockId, l.blockOffset, m'.blockId, m'.blockOffset)
    && Fresh(m', dirty, l)
  }

  /** The columns written since the layout `l` lie beyond it. */
  ghost predicate Fresh(m: Mem, dirty: set<Key>, l: Layout) {
    forall k :: k in dirty ==> k in m.diskMap && ExtentNotBefore(m.diskMap[k], l.blockId, l.blockOffset)
  }

  ghost predicate Base(m: Mem, dirty: set<Key>, l: Layout) {
    Valid(m, dirty) && Hollow(m) == {} && PosLe(l.blockId, l.blockOffset, m.blockId, m.blockOffset) && Fresh(m, dirty, l)
  }

  lemma FreshAfter(m: Mem, m': Mem, k: Key, size: nat, dirty: set<Key>, l: Layout)
    requires Fresh(m, dirty, l) && PosLe(l.blockId, l.blockOffset, m.blockId, m.blockOffset)
    requires LayoutOf(m') == Rewritten(LayoutOf(m), k, size)
    requires ExtentNotBefore(m'.diskMap[k], m.blockId, m.blockOffset)
    ensures Fresh(m', dirty + {k}, l)
  {
    hide ExtentNotBefore;
    NotBeforeMonotone(m'.diskMap[k], l.blockId, l.blockOffset, m.blockId, m.blockOffset);
  }

  lemma RedoPut(m: Mem, r: Record, dirty: set<Key>, l: Layout)
    requires Base(m, dirty, l) && r.PutRecord?
    ensures RedoneOk(m, Redo(m, r), dirty + {r.key}, l) && View(Redo(m, r)) == Plain(View(m), r)
    ensures r.key.row in Redo(m, r).resident
  {
    hide Valid; hide View; hide Hollow; hide AgreeBefore; hide ExtentNotBefore; hide Fresh; hide PutColumn;
    var m' := Redo(m, r);
    PutColumnKeeps(m, r.key, r.value, dirty);
    PutColumnResident(m, r.key, r.value);
    FreshAfter(m, m', r.key, |r.value|, dirty, l);
    AgreeMonotone(m.blocks, m'.blocks, l.blockId, l.blockOffset, m.blockId, m.blockOffset);
  }

  lemma PutColumnResident(m: Mem, k: Key, value: string)
    ensures k.row in PutColumn(m, k, value).resident && m.resident <= PutColumn(m, k, value).resident
  {
  }

  lemma CPutColumnResident(m: Mem, k: Key, e: string, value: string)
    ensures m.resident <= CPutColumn(m, k, e, value).1.resident
  {
  }

  lemma RedoCPut(m: Mem, r: Record, dirty: set<Key>, l: Layout)
    requires Base(m, dirty, l) && r.CPutRecord?
    ensures RedoneOk(m, Redo(m, r), dirty + (if Succeeds(View(m), r) then {r.key} else {}), l)
    ensures View(Redo(m, r)) == Plain(View(m), r) && r.key.row in Redo(m, r).resident
  {
    hide Valid; hide View; hide Hollow; hide AgreeBefore; hide ExtentNotBefore; hide CPutColumn; hide Fresh;
    var m' := Redo(m, r);
    CPutColumnKeeps(m, r.key, r.expected, r.value, dirty);
    CPutColumnResident(m, r.key, r.expected, r.value);
    ViewKeys(m);
    AgreeMonotone(m.blocks, m'.blocks, l.blockId, l.blockOffset, m.blockId, m.blockOffset);
    if Succeeds(View(m), r) {
      FreshAfter(m, m', r.key, |r.value|, dirty, l);
    } else {
      assert dirty + {} == dirty;
      FreshSame(m, m', dirty, l);
    }
  }

  lemma FreshSame(m: Mem, m': Mem, dirty: set<Key>, l: Layout)
    requires Fresh(m, dirty, l) && LayoutOf(m') == LayoutOf(m)
    ensures Fresh(m', dirty, l)
  {
  }

  lemma RedoOne(m: Mem, r: Record, dirty: set<Key>, l: Layout)
    requires Base(m, dirty, l)
    ensures RedoneOk(m, Redo(m, r), dirty + (if Succeeds(View(m), r) then {r.key} else {}), l)
    ensures View(Redo(m, r)) == Plain(View(m), r) && (!r.DeleteRecord? ==> r.key.row in Redo(m, r).resident)
  {
    hide Valid; hide View; hide Hollow; hide AgreeBefore; hide Fresh; hide Apply;
    match r
    case PutRecord(_, _) => RedoPut(m, r, dirty, l);
    case CPutRecord(_, _, _) => RedoCPut(m, r, dirty, l);
    case DeleteRecord(_) =>
      assert dirty + {} == dirty;
      SelfAgrees(m.blocks, l.blockId, l.blockOffset);
  }

  /** Rows of the puts and conditional puts of a log. */
  function WrittenRows(log: seq<Record>): set<string>
    decreases |log|
  {
    if log == [] then {} else (if log[0].DeleteRecord? then {} else {log[0].key.row}) + WrittenRows(log[1..])
  }

  /** Replaying the log on the table is replaying it on the plain map. */
  lemma {:induction false} RedoAllOk(m: Mem, log: seq<Record>, dirty: set<Key>, l: Layout)
    requires Base(m, dirty, l)
    ensures RedoneOk(m, RedoAll(m, log), dirty + Redone(View(m), log), l)
    ensures View(RedoAll(m, log)) == Replayed(View(m), log)
    ensures WrittenRows(log) <= RedoAll(m, log).resident
    decreases |log|
  {
    hide Valid; hide View; hide Hollow; hide AgreeBefore; hide Fresh; hide Apply; hide Redo; hide Succeeds;
    SelfAgrees(m.blocks, l.blockId, l.blockOffset);
    if log == [] {
      assert dirty + {} == dirty;
    } else {
      var m1 := Redo(m, log[0]);
      var d1 := dirty + (if Succeeds(View(m), log[0]) then {log[0].key} else {});
      RedoOne(m, log[0], dirty, l);
      RedoAllOk(m1, log[1..], d1, l);
      AgreeTransitive(m.blocks, m1.blocks, RedoAll(m, log).blocks, l.blockId, l.blockOffset);
      assert d1 + Redone(View(m1), log[1..]) == dirty + Redone(View(m), log);
    }
  }

  // ---- Recovery -------------------------------------------------------------------------------------

  lemma RestartedBase(b: Blocks, l: Layout, capacity: nat)
    requires DiskOk(l.diskMap, l.blockId, l.blockOffset, b)
    ensures Base(Restarted(b, l, capacity), {}, l)
    ensures View(Restarted(b, l, capacity)) == OnDisk(l, b) - Unlisted(l.diskMap)
  {
    hide DiskOk; hide ReadBack; hide Contents; hide Unlisted;
    ReadBackOk(l.diskMap, l.blockId, l.blockOffset, b);
    ReadBackContents(l.diskMap, b);
  }

  lemma ReadBackContents(d: DiskMap, b: Blocks)
    ensures Contents(map[], ReadBack(d), b) == Contents(map[], d, b) - Unlisted(d)
  {
    hide ReadExtent;
  }

  lemma ReadBackOk(d: DiskMap, id: nat, offset: nat, b: Blocks)
    requires DiskOk(d, id, offset, b)
    ensures DiskOk(ReadBack(d), id, offset, b)
  {
  }

  /** A disk that the metadata file can be read from. */
  ghost predicate Readable(b: Blocks, l: Layout) {
    DiskOk(l.diskMap, l.blockId, l.blockOffset, b)
  }

  /** The recovered node stands for the replay of the log on what reading the metadata file gives. */
  lemma RecoverIsReplay(d: Disk, capacity: nat)
    requires Readable(d.blocks, d.metadata)
    ensures View(Recover(d, capacity).mem)
            == Replayed(OnDisk(d.metadata, d.blocks) - Unlisted(d.metadata.diskMap), d.log)
  {
    hide View; hide Base; hide RedoneOk; hide DiskOk; hide OnDisk;
    RestartedBase(d.blocks, d.metadata, capacity);
    RedoAllOk(Restarted(d.blocks, d.metadata, capacity), d.log, {}, d.metadata);
  }

  lemma ShadowingIsReadable(n: Node)
    requires NodeValid(n) && Shadowing(n)
    ensures Readable(n.mem.blocks, n.metadata)
  {
    hide ExtentsOk; hide ExtentsApart; hide Shadowed; hide CacheOk; hide CleanOnDisk;
  }

  lemma DurableIsReadable(n: Node)
    requires NodeValid(n) && Durable(n)
    ensures Readable(n.mem.blocks, n.metadata)
  {
    hide Shadowing; hide NodeValid; hide LogExplains; hide Readable;
    ShadowingIsReadable(n);
  }

  lemma OnDiskKeys(l: Layout, b: Blocks)
    ensures OnDisk(l, b).Keys == l.diskMap.Keys && Unlisted(l.diskMap) <= OnDisk(l, b).Keys
  {
  }

  /** On a disk whose log explains the map `m`, a restart gives `m` back exactly when the log makes every column good:
      one that the metadata file names without a fragment is put or deleted in it, and never put if it ends deleted;
      no other column ends deleted. */
  lemma DiskRecoversIff(d: Disk, m: Table, capacity: nat)
    requires Readable(d.blocks, d.metadata) && LogExplains(OnDisk(d.metadata, d.blocks), d.log, m)
    ensures View(Recover(d, capacity).mem) == m <==> AllMadeGood(Unlisted(d.metadata.diskMap), d.log)
  {
    hide View; hide Readable; hide Recover; hide OnDisk; hide AllMadeGood; hide Unlisted;
    RecoverIsReplay(d, capacity);
    OnDiskKeys(d.metadata, d.blocks);
    ReplayIsHistoryIff(OnDisk(d.metadata, d.blocks), Unlisted(d.metadata.diskMap), d.log);
  }

  /** Crash recovery at every boundary between requests. */
  lemma RecoverIff(n: Node, capacity: nat)
    requires NodeValid(n) && Durable(n)
    ensures View(Recover(DiskOf(n), capacity).mem) == View(n.mem)
            <==> AllMadeGood(Unlisted(n.metadata.diskMap), n.log)
  {
    hide NodeValid; hide View; hide Readable; hide Recover; hide OnDisk; hide Shadowing; hide AllMadeGood;
    DurableIsReadable(n);
    DiskRecoversIff(DiskOf(n), View(n.mem), capacity);
  }

  /** An empty value that a checkpoint has saved does not survive a restart: the put is no longer in the log, and the
      metadata file names the column without a fragment. */
  lemma EmptyValueIsLost(n: Node, k: Key, capacity: nat)
    requires NodeValid(n) && k in n.mem.diskMap && View(n.mem)[k] == "" && n.mem.diskMap[k] == []
    ensures k in View(Checkpoint(n).mem) && k !in View(Recover(DiskOf(Checkpoint(n)), capacity).mem)
  {
    hide NodeValid; hide View; hide Recover; hide OnDisk; hide Checkpoint; hide Durable; hide Hollow;
    var c := Checkpoint(n);
    CheckpointKeeps(n);
    CheckpointDurable(n);
    CheckpointFields(n);
    CheckpointDiskMap(n, k);
    ViewKeys(c.mem);
    DurableIsReadable(c);
    RecoverIsReplay(DiskOf(c), capacity);
  }

  lemma CheckpointDiskMap(n: Node, k: Key)
    requires k in n.mem.diskMap
    ensures k in Checkpoint(n).metadata.diskMap && Checkpoint(n).metadata.diskMap[k] == n.mem.diskMap[k]
  {
  }

  // ---- A recovered node goes on as before -----------------------------------------------------------

  /** Every row that the log names was loaded by one of its puts or conditional puts. A row named by deletes only is
      marked modified without being loaded. */
  predicate RowsLoaded(log: seq<Record>) {
    forall k :: k in LogKeys(log) ==> k.row in WrittenRows(log)
  }

  lemma {:induction false} RedoneAreLogKeys(m: Table, log: seq<Record>)
    ensures Redone(m, log) <= LogKeys(log)
    decreases |log|
  {
    if log == [] {
    } else {
      RedoneAreLogKeys(Plain(m, log[0]), log[1..]);
    }
  }

  /** The replay loads those rows and no others. */
  lemma {:induction false} RedoAllResident(m: Mem, log: seq<Record>)
    ensures RedoAll(m, log).resident == m.resident + WrittenRows(log)
    decreases |log|
  {
    hide Redo;
    if log == [] {
    } else {
      RedoResident(m, log[0]);
      RedoAllResident(Redo(m, log[0]), log[1..]);
    }
  }

  lemma RedoResident(m: Mem, r: Record)
    ensures Redo(m, r).resident == m.resident + if r.DeleteRecord? then {} else {r.key.row}
  {
  }

  lemma MoreDirty(m: Mem, dirty: set<Key>, modified: set<Key>)
    requires Valid(m, dirty) && dirty <= modified && forall k :: k in modified ==> k.row in m.resident
    ensures Valid(m, modified)
  {
    hide DiskOk; hide CacheOk;
  }

  lemma FreshIsShadowed(m: Mem, dirty: set<Key>, modified: set<Key>, l: Layout)
    requires Valid(m, dirty) && Fresh(m, dirty, l)
    ensures Shadowed(m, modified, l)
  {
    hide DiskOk; hide CacheOk; hide ExtentNotBefore;
  }

  /** The recovered node is a clean node in its own right exactly when its modified columns lie in rows that it has
      loaded. */
  lemma RecoveredIsCleanIff(d: Disk, capacity: nat)
    requires Readable(d.blocks, d.metadata)
    ensures Clean(Recover(d, capacity)) <==> RowsLoaded(d.log)
  {
    hide View; hide Valid; hide Hollow; hide OnDisk; hide DiskOk; hide Fresh; hide AgreeBefore;
    var m := Restarted(d.blocks, d.metadata, capacity);
    RestartedBase(d.blocks, d.metadata, capacity);
    RedoAllOk(m, d.log, {}, d.metadata);
    RedoAllResident(m, d.log);
    RedoneAreLogKeys(View(m), d.log);
    var n' := Recover(d, capacity);
    if RowsLoaded(d.log) {
      MoreDirty(n'.mem, {} + Redone(View(m), d.log), LogKeys(d.log));
    } else {
      var k :| k in LogKeys(d.log) && k.row !in WrittenRows(d.log);
      DirtyIsResident(n', k);
    }
  }

  lemma DirtyIsResident(n: Node, k: Key)
    requires k in n.modified && k.row !in n.mem.resident
    ensures !NodeValid(n)
  {
  }

  /** Its files determine its map again exactly when the log explains that map. */
  lemma RecoveredIsDurableIff(d: Disk, capacity: nat)
    requires Readable(d.blocks, d.metadata)
    ensures Durable(Recover(d, capacity))
            <==> LogExplains(OnDisk(d.metadata, d.blocks), d.log, View(Recover(d, capacity).mem))
  {
    hide View; hide Valid; hide Hollow; hide OnDisk; hide Shadowed; hide Fresh; hide AgreeBefore; hide LogExplains;
    hide ExtentsOk; hide ExtentsApart;
    var l, b := d.metadata, d.blocks;
    var m := Restarted(b, l, capacity);
    RestartedBase(b, l, capacity);
    RedoAllOk(m, d.log, {}, l);
    var n' := Recover(d, capacity);
    FreshIsShadowed(n'.mem, {} + Redone(View(m), d.log), LogKeys(d.log), l);
    AgreeOnDisk(l, b, n'.mem.blocks);
    PutKeysAreLogKeys(d.log);
  }

  ghost predicate Good(n: Node) {
    Clean(n) && Durable(n)
  }

  /** A restart gives a good node that stands for `m`, one to which everything proved of running nodes applies and
      that can crash again, exactly when the log explains `m`, makes every column good and loads every row. */
  lemma RecoversWellIff(d: Disk, m: Table, capacity: nat)
    requires Readable(d.blocks, d.metadata)
    ensures Good(Recover(d, capacity)) && View(Recover(d, capacity).mem) == m
            <==> LogExplains(OnDisk(d.metadata, d.blocks), d.log, m)
                 && AllMadeGood(Unlisted(d.metadata.diskMap), d.log) && RowsLoaded(d.log)
  {
    hide View; hide Readable; hide Recover; hide OnDisk; hide AllMadeGood; hide Unlisted; hide LogExplains; hide Clean;
    hide Durable; hide RowsLoaded;
    RecoveredIsCleanIff(d, capacity);
    RecoveredIsDurableIff(d, capacity);
    if LogExplains(OnDisk(d.metadata, d.blocks), d.log, m) {
      DiskRecoversIff(d, m, capacity);
    }
  }
}
