/** Crashes inside a checkpoint and inside a write. */
module CrashPoints {
  import opened Extents
  import opened Memtable
  import opened Options
  import opened Checkpointing
  import opened StorageNode
  import opened NodeRuns
  import opened LogReplay
  import opened Durability
  import opened Recovery

  // ---- A crash while the blocks are written ---------------------------------------------------------

  ghost predicate Covers(e: seq<BlockPtr>, id: nat, o: nat) {
    exists j :: 0 <= j < |e| && e[j].id == id && e[j].offset <= o < e[j].offset + e[j].size
  }

  ghost predicate InDirtyExtent(m: Mem, modified: set<Key>, id: nat, o: nat) {
    exists k :: k in modified && k in m.diskMap && !Settled(m, k) && Covers(m.diskMap[k], id, o)
  }

  /** Block files at some moment of a checkpoint: any of the bytes it is writing may already be there, whole,
      in part or garbled, but no other byte has changed. */
  ghost predicate Torn(m: Mem, modified: set<Key>, b: Blocks) {
    && Allocated(b, m.blockId)
    && (forall id: nat, o: nat {:trigger ByteAt(b, id, o)} ::
          ByteAt(b, id, o) != ByteAt(m.blocks, id, o) ==> InDirtyExtent(m, modified, id, o))
  }

  lemma TornAgrees(n: Node, b: Blocks)
    requires Durable(n) && Torn(n.mem, n.modified, b)
    ensures AgreeBefore(n.mem.blocks, b, n.metadata.blockId, n.metadata.blockOffset)
  {
    hide View; hide Settled; hide LogExplains; hide MetadataOk; hide Allocated;
    var l := n.metadata;
    forall id: nat, o: nat | id < l.blockId || (id == l.blockId && o < l.blockOffset)
      ensures ByteAt(n.mem.blocks, id, o) == ByteAt(b, id, o)
    {
    }
  }

  lemma TornReadable(n: Node, b: Blocks)
    requires NodeValid(n) && Durable(n) && Torn(n.mem, n.modified, b)
    ensures Readable(b, n.metadata)
  {
    hide ExtentsOk; hide ExtentsApart; hide Shadowed; hide LogExplains; hide CacheOk; hide CleanOnDisk;
  }

  /** Shadow writes: a crash anywhere among the block writes of a checkpoint, however torn, finds on disk what a crash
      before the checkpoint would. */
  lemma TornCheckpointRecovers(n: Node, b: Blocks, capacity: nat)
    requires NodeValid(n) && Durable(n) && Torn(n.mem, n.modified, b)
    ensures Readable(b, n.metadata) && OnDisk(n.metadata, b) == OnDisk(n.metadata, n.mem.blocks)
    ensures View(Recover(DiskOf(n).(blocks := b), capacity).mem) == View(Recover(DiskOf(n), capacity).mem)
  {
    hide NodeValid; hide View; hide Readable; hide Recover; hide OnDisk; hide Shadowed; hide LogExplains; hide Torn;
    DurableIsReadable(n);
    TornReadable(n, b);
    TornAgrees(n, b);
    RecoverIsReplay(DiskOf(n), capacity);
    RecoverIsReplay(DiskOf(n).(blocks := b), capacity);
    AgreeOnDisk(n.metadata, n.mem.blocks, b);
  }

  lemma {:induction false} RewritingIsNothing(b: Blocks, e: seq<BlockPtr>)
    requires ExtentInBounds(e) && forall i :: 0 <= i < |e| ==> e[i].id in b && |b[e[i].id]| == BLOCK_SIZE
    ensures WriteExtent(b, e, ReadExtent(b, e)) == b
    decreases |e|
  {
    if e == [] {
    } else {
      var f, piece := e[0], ReadFragment(b, e[0]);
      assert InBounds(f);
      var s := b[f.id];
      forall i | 0 <= i < |piece| ensures piece[i] == s[f.offset + i] {
        assert piece[i] == ByteAt(b, f.id, f.offset + i);
      }
      assert s[..f.offset] + piece + s[f.offset + |piece|..] == s;
      assert b[f.id := s] == b;
      assert ReadExtent(b, e) == piece + ReadExtent(b, e[1..]);
      assert ReadExtent(b, e)[..f.size] == piece && ReadExtent(b, e)[f.size..] == ReadExtent(b, e[1..]);
      assert forall i :: 0 <= i < |e[1..]| ==> e[1..][i] == e[i + 1];
      RewritingIsNothing(b, e[1..]);
    }
  }

  lemma FlushSettled(m: Mem, modified: set<Key>, k: Key)
    requires Valid(m, modified) && k in m.diskMap && Settled(m, k)
    ensures FlushKey(m.blocks, m, k) == m.blocks
  {
    hide ExtentsApart; hide CleanOnDisk; hide CacheOk;
    if Writable(m, k) {
      assert ExtentOk(m.diskMap[k], m.blockId, m.blockOffset);
      RewritingIsNothing(m.blocks, m.diskMap[k]);
      assert View(m)[k] == m.cache[k];
    }
  }

  ghost function Unsettled(m: Mem, todo: set<Key>): set<Key> {
    set k | k in todo && k in m.diskMap && !Settled(m, k)
  }

  /** Columns that are on disk already add nothing to a checkpoint's writes. */
  lemma {:induction false} FlushOnlyUnsettled(m: Mem, modified: set<Key>, todo: set<Key>)
    requires Valid(m, modified)
    ensures Flush(m.blocks, m, todo) == Flush(m.blocks, m, Unsettled(m, todo))
    decreases todo
  {
    hide DiskOk; hide CacheOk; hide CleanOnDisk; hide Settled; hide View; hide Flush; hide FlushKey;
    if todo == Unsettled(m, todo) {
    } else {
      var k :| k in todo && k !in Unsettled(m, todo);
      ApartOfValid(m, modified);
      FlushAny(m.blocks, m, todo, k);
      FlushIdle(m, modified, k);
      FlushOnlyUnsettled(m, modified, todo - {k});
      assert Unsettled(m, todo - {k}) == Unsettled(m, todo);
    }
  }

  lemma ApartOfValid(m: Mem, modified: set<Key>)
    requires Valid(m, modified)
    ensures ExtentsApart(m.diskMap) && ExtentsOk(m.diskMap, m.blockId, m.blockOffset) && Allocated(m.blocks, m.blockId)
  {
  }

  lemma FlushIdle(m: Mem, modified: set<Key>, k: Key)
    requires Valid(m, modified) && (k in m.diskMap ==> Settled(m, k))
    ensures FlushKey(m.blocks, m, k) == m.blocks
  {
    hide Valid; hide Settled;
    if k in m.diskMap {
      FlushSettled(m, modified, k);
    }
  }

  /** Wherever a checkpoint has got to among the modified columns, the block files are torn in this sense. */
  lemma FlushIsTorn(m: Mem, modified: set<Key>, todo: set<Key>)
    requires Valid(m, modified) && todo <= modified
    ensures Torn(m, modified, Flush(m.blocks, m, todo))
  {
    hide Valid; hide Settled; hide View; hide Flush; hide ExtentsApart; hide ExtentsOk; hide Covers;
    ApartOfValid(m, modified);
    FlushFrame(m.blocks, m, todo, []);
    FlushOnlyUnsettled(m, modified, todo);
    var b := Flush(m.blocks, m, todo);
    forall id: nat, o: nat | !InDirtyExtent(m, modified, id, o)
      ensures ByteAt(b, id, o) == ByteAt(m.blocks, id, o)
    {
      var g := BlockPtr(id, o, 1);
      forall k | k in Unsettled(m, todo) ensures MutuallyApart([g], m.diskMap[k]) {
        ApartUnlessCovered(m.diskMap[k], id, o);
      }
      FlushFrame(m.blocks, m, Unsettled(m, todo), [g]);
      OneByte(b, id, o);
      OneByte(m.blocks, id, o);
    }
  }

  lemma ApartUnlessCovered(e: seq<BlockPtr>, id: nat, o: nat)
    ensures Covers(e, id, o) || MutuallyApart([BlockPtr(id, o, 1)], e)
  {
  }

  lemma OneByte(b: Blocks, id: nat, o: nat)
    ensures ReadExtent(b, [BlockPtr(id, o, 1)]) == [ByteAt(b, id, o)]
  {
    var e := [BlockPtr(id, o, 1)];
    assert e[1..] == [];
    assert ReadFragment(b, e[0]) == [ByteAt(b, id, o)];
  }

  // ---- A crash inside a write -----------------------------------------------------------------------

  /** Block files while `update_disk_map` runs: those beyond the bump pointer's may be removed, re-created or cut short,
      no other byte has changed. */
  ghost predicate Recreating(m: Mem, b: Blocks) {
    && Allocated(b, m.blockId)
    && (forall id: nat, o: nat {:trigger ByteAt(b, id, o)} ::
          id <= m.blockId ==> ByteAt(b, id, o) == ByteAt(m.blocks, id, o))
  }

  /** However many of the block files have been re-created. */
  lemma {:induction false} RecreatedIsRecreating(m: Mem, hi: nat)
    requires Allocated(m.blocks, m.blockId)
    ensures Recreating(m, Recreated(m.blocks, m.blockId, hi))
    decreases hi
  {
    if hi <= m.blockId {
    } else {
      RecreatedIsRecreating(m, hi - 1);
      var b, b' := Recreated(m.blocks, m.blockId, hi - 1), Recreated(m.blocks, m.blockId, hi);
      forall id: nat, o: nat | id <= m.blockId ensures ByteAt(b', id, o) == ByteAt(m.blocks, id, o) {
        assert ByteAt(b, id, o) == ByteAt(m.blocks, id, o);
      }
    }
  }

  lemma RecreatingReadable(n: Node, b: Blocks)
    requires NodeValid(n) && Shadowing(n) && Recreating(n.mem, b)
    ensures Readable(b, n.metadata) && OnDisk(n.metadata, b) == OnDisk(n.metadata, n.mem.blocks)
  {
    hide View; hide Shadowed; hide CacheOk; hide CleanOnDisk; hide OnDisk;
    var l := n.metadata;
    RecreatingAgrees(n, b);
    AgreeOnDisk(l, n.mem.blocks, b);
    assert Allocated(b, l.blockId);
  }

  lemma RecreatingAgrees(n: Node, b: Blocks)
    requires Shadowing(n) && Recreating(n.mem, b)
    ensures AgreeBefore(n.mem.blocks, b, n.metadata.blockId, n.metadata.blockOffset)
  {
    hide View; hide Shadowed; hide ExtentsOk; hide ExtentsApart; hide Allocated;
    var l := n.metadata;
    forall id: nat, o: nat | id < l.blockId || (id == l.blockId && o < l.blockOffset)
      ensures ByteAt(n.mem.blocks, id, o) == ByteAt(b, id, o)
    {
      assert ByteAt(b, id, o) == ByteAt(n.mem.blocks, id, o);
    }
  }

  /** Shadow writes, the other half: a crash after `log(...)`, at any moment of the re-creation of block files, recovers
      the plain map with the logged request applied, exactly when the longer log makes every column good. */
  lemma LoggedRequestRecoversIff(n: Node, r: Record, b: Blocks, capacity: nat)
    requires NodeValid(n) && Durable(n) && Recreating(n.mem, b) && (!r.PutRecord? ==> r.key in View(n.mem))
    ensures Readable(b, n.metadata)
    ensures LogExplains(OnDisk(n.metadata, b), n.log + [r], Apply(View(n.mem), r))
    ensures View(Recover(DiskOf(n).(blocks := b, log := n.log + [r]), capacity).mem) == Apply(View(n.mem), r)
            <==> AllMadeGood(Unlisted(n.metadata.diskMap), n.log + [r])
  {
    hide NodeValid; hide View; hide Readable; hide Recover; hide OnDisk; hide Shadowing; hide Recreating;
    hide AllMadeGood; hide Unlisted; hide Apply;
    RecreatingReadable(n, b);
    HistoryAppend(OnDisk(n.metadata, b), n.log, r);
    DiskRecoversIff(DiskOf(n).(blocks := b, log := n.log + [r]), Apply(View(n.mem), r), capacity);
  }

  // ---- A crash between the metadata file and the log ------------------------------------------------

  /** The metadata file is new, the log still the old one: the whole log is replayed on the state it produced. Where
      conditional puts mismatched on columns that the log puts only, this recovers the plain map exactly when no column
      that the log puts ends deleted, and it puts every column without a fragment. */
  lemma CrashBeforeTruncationIff(n: Node, capacity: nat)
    requires NodeValid(n) && Durable(n) && MismatchesArePut(OnDisk(n.metadata, n.mem.blocks), n.log)
    ensures View(Recover(Untruncated(n), capacity).mem) == View(n.mem)
            <==> Unlisted(n.mem.diskMap) <= PutKeys(n.log)
                 && forall k :: k in PutKeys(n.log) ==> !LastIsDelete(n.log, k, false)
  {
    hide Valid; hide View; hide Checkpoint; hide Recover; hide OnDisk; hide Shadowed; hide MetadataOk; hide Hollow;
    hide Unlisted; hide LastIsDelete;
    UntruncatedReplay(n, capacity);
    ViewKeys(n.mem);
    UnlistedKeys(n.mem.diskMap);
    ReplayOnResultIff(OnDisk(n.metadata, n.mem.blocks), Unlisted(n.mem.diskMap), n.log);
  }

  /** The files after the metadata file has been written and before the log is truncated. */
  ghost function Untruncated(n: Node): Disk {
    DiskOf(Checkpoint(n)).(log := n.log, version := n.version)
  }

  /** Whatever the log, the restart replays it on the state it produced, less the columns without a fragment. */
  lemma UntruncatedReplay(n: Node, capacity: nat)
    requires NodeValid(n)
    ensures Readable(Untruncated(n).blocks, Untruncated(n).metadata)
    ensures View(Recover(Untruncated(n), capacity).mem)
            == Replayed(View(n.mem) - Unlisted(n.mem.diskMap), n.log)
  {
    hide Valid; hide View; hide Checkpoint; hide Recover; hide OnDisk; hide Shadowed; hide MetadataOk; hide Hollow;
    hide Unlisted;
    var c := Checkpoint(n);
    CheckpointDurable(n);
    CheckpointFields(n);
    CheckpointKeeps(n);
    DurableIsReadable(c);
    CleanIsOnDisk(c.mem);
    RecoverIsReplay(Untruncated(n), capacity);
    CheckpointReadBack(n);
  }

  lemma UnlistedKeys(d: DiskMap)
    ensures Unlisted(d) <= d.Keys
  {
  }

  /** What a checkpoint re-creates has no fragment, so a restart drops it again. */
  lemma CheckpointReadBack(n: Node)
    requires NodeValid(n)
    ensures View(Checkpoint(n).mem) - Unlisted(Checkpoint(n).metadata.diskMap) == View(n.mem) - Unlisted(n.mem.diskMap)
  {
    hide NodeValid; hide View; hide Checkpoint; hide Hollow;
    CheckpointKeeps(n);
    ViewKeys(n.mem);
    CheckpointUnlisted(n);
    assert forall k :: k in Empties(Limbo(n)) ==> k in Limbo(n);
  }

  lemma CheckpointUnlisted(n: Node)
    ensures Unlisted(Checkpoint(n).metadata.diskMap) == Unlisted(n.mem.diskMap) + Limbo(n)
  {
    hide Flush;
  }

  /** The bound is needed: a node that has just checkpointed the value "1" gets two conditional puts, of which the first
      mismatches. Its column holds "2"; a crash before the log is truncated brings back "5", which no client ever got
      accepted. */
  lemma MismatchedCPutComesBack(n: Node, k: Key, queue: seq<string>, queue': seq<string>, capacity: nat)
    requires Clean(n) && Durable(n) && n.log == [] && k in n.mem.diskMap && View(n.mem)[k] == "1"
    requires k.row in n.mem.resident && n.mem.available >= 1 && CHECKPOINT_THRESHOLD > n.operations + 1
    ensures var s1 := Step(n, CPut(k, "2", "5", queue));
            s1.Done? && s1.reply == ValueMismatch
            && var s2 := Step(s1.node, CPut(k, "1", "2", queue'));
               s2.Done? && s2.reply == Success && Lookup(View(s2.node.mem), k) == Some("2")
               && Lookup(View(Recover(Untruncated(s2.node), capacity).mem), k) == Some("5")
  {
    hide View; hide Step; hide Recover; hide ApplyCPut; hide Untruncated; hide Unlisted; hide Clean; hide NodeValid;
    hide Durable;
    ViewKeys(n.mem);
    QuietCPut(n, k, "2", "5", queue);
    var n1 := ApplyCPut(n, k, "2", "5").1;
    ViewKeys(n1.mem);
    QuietCPut(n1, k, "1", "2", queue');
    var n2 := ApplyCPut(n1, k, "1", "2").1;
    UntruncatedReplay(n2, capacity);
    assert n2.log == [CPutRecord(k, "2", "5"), CPutRecord(k, "1", "2")];
    ListedIs(n2.mem.diskMap, k);
    TwoReplayed(View(n2.mem) - Unlisted(n2.mem.diskMap), k);
  }

  /** A conditional put on a resident row that needs neither room nor a checkpoint. */
  lemma QuietCPut(n: Node, k: Key, expected: string, value: string, queue: seq<string>)
    requires Clean(n) && k in n.mem.diskMap && k.row in n.mem.resident && 0 < |value| <= n.mem.available
    requires n.operations + 1 != CHECKPOINT_THRESHOLD
    ensures k in View(n.mem)
    ensures var n' := ApplyCPut(n, k, expected, value).1;
            && Clean(n') && NodeValid(n') && k in n'.mem.diskMap && k.row in n'.mem.resident
            && n'.log == n.log + [CPutRecord(k, expected, value)]
            && (if View(n.mem)[k] == expected then
                  Step(n, CPut(k, expected, value, queue)) == Done(n', Success)
                  && View(n'.mem) == View(n.mem)[k := value] && n'.mem.diskMap[k] != []
                else
                  Step(n, CPut(k, expected, value, queue)) == Done(n', ValueMismatch)
                  && View(n'.mem) == View(n.mem) && n'.mem.available == n.mem.available
                  && n'.operations == n.operations)
  {
    hide Valid; hide View; hide Hollow; hide ApplyCPut; hide CPutColumn; hide GetColumn; hide Checkpoint;
    ViewKeys(n.mem);
    ApplyCPutKeeps(n, k, expected, value);
    CPutLogs(n, k, expected, value);
    CPutMismatches(n, k, expected, value);
    if View(n.mem)[k] == expected { CPutHasFragment(n, k, expected, value); }
    assert Reserve(n, k.row, |value|, queue, true) == Some(n);
  }

  lemma CPutMismatches(n: Node, k: Key, expected: string, value: string)
    requires NodeValid(n)
    ensures ApplyCPut(n, k, expected, value).0 == CPutColumn(GetColumn(n.mem, k).1, k, expected, value).0
  {
    hide Valid; hide CPutColumn; hide GetColumn;
  }

  lemma ListedIs(d: DiskMap, k: Key)
    requires k in d && d[k] != []
    ensures k !in Unlisted(d)
  {
  }

  lemma CPutLogs(n: Node, k: Key, expected: string, value: string)
    ensures var n' := ApplyCPut(n, k, expected, value).1;
            n'.log == n.log + [CPutRecord(k, expected, value)] && k.row in n'.mem.resident
            && (CPutColumn(GetColumn(n.mem, k).1, k, expected, value).0.Mismatch? && k.row in n.mem.resident ==>
                  n'.mem.available == n.mem.available)
  {
  }

  lemma CPutHasFragment(n: Node, k: Key, expected: string, value: string)
    requires NodeValid(n) && k in n.mem.diskMap && k !in Hollow(n.mem) && View(n.mem)[k] == expected && |value| > 0
    ensures var n' := ApplyCPut(n, k, expected, value).1; k in n'.mem.diskMap && n'.mem.diskMap[k] != []
  {
    hide Valid; hide View; hide Hollow; hide Appended; hide ExtentNotBefore; hide CPutColumn; hide GetColumn;
    var m := GetColumn(n.mem, k).1;
    ViewKeys(n.mem);
    GetColumnKeeps(n.mem, k, n.modified);
    CPutColumnKeeps(m, k, expected, value, n.modified);
    PlaceIsExact(n.mem.blockId, n.mem.blockOffset, |value|);
  }

  lemma TwoReplayed(t: Table, k: Key)
    requires k in t && t[k] == "2"
    ensures Lookup(Replayed(t, [CPutRecord(k, "2", "5"), CPutRecord(k, "1", "2")]), k) == Some("5")
  {
    var log, rest := [CPutRecord(k, "2", "5"), CPutRecord(k, "1", "2")], [CPutRecord(k, "1", "2")];
    assert log[1..] == rest && rest[1..] == [];
    var t' := t[k := "5"];
    assert Apply(t, log[0]) == t' && Apply(t', rest[0]) == t';
    assert Replayed(t, log) == Replayed(t', rest) == Replayed(t', []);
  }

  /** A put and a delete of the same column, the last write before a checkpoint being the delete: the deleted column is
      found again. */
  lemma DeletedColumnComesBack(n: Node, k: Key, value: string, queue: seq<string>, queue': seq<string>)
    requires Clean(n) && n.operations + 2 == CHECKPOINT_THRESHOLD && !NeedsRoom(n.mem, k.row, |value|)
    requires var n1 := Step(n, Put(k, value, queue)).node;
             Step(Step(n1, Delete(k)).node, Get(k, queue')).Done?
    ensures var n1 := Step(n, Put(k, value, queue)).node;
            Step(Step(n1, Delete(k)).node, Get(k, queue')).reply == Found("")
  {
    hide Valid; hide View; hide Hollow; hide NeedsRoom; hide PutColumn; hide Checkpoint;
    var n1 := Step(n, Put(k, value, queue)).node;
    StepRefinesIff(n, Put(k, value, queue));
    ReserveKeeps(n, k.row, |value|, queue);
    ApplyPutKeeps(Reserve(n, k.row, |value|, queue, true).value, k, value);
    assert n1.operations + 1 == CHECKPOINT_THRESHOLD && k in n1.modified && k in n1.mem.diskMap;
    assert k in Resurrected(n1, Delete(k));
    ResurrectedIsFound(n1, Delete(k), k, queue');
  }
}
