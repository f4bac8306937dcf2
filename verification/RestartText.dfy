/** A restart from the texts of the two files (kvstore/kv_store.cpp:180-206, 243-276, 643-663, 786-824), and when it is the
    recovery of module Recovery: the log arrives through messages that end at a NUL, and both files are parsed by lines. */
module RestartText {
  import opened Options
  import opened Decimal
  import opened Extents
  import opened Memtable
  import opened StorageNode
  import opened LogReplay
  import opened Durability
  import opened Recovery
  import opened LogFormat
  import opened MetadataFormat

  ghost function RedoEntry(m: Mem, e: Entry): Mem {
    match e
    case PutEntry(k, v) => PutColumn(m, k, v)
    case CPutEntry(k, expected, v) => CPutColumn(m, k, expected, v).1
    case DeleEntry(k) => DeleteColumn(m, k).1
    case OtherEntry(_) => m
  }

  ghost function RedoEntries(m: Mem, es: seq<Entry>): Mem
    decreases |es|
  {
    if es == [] then m else RedoEntries(RedoEntry(m, es[0]), es[1..])
  }

  function EntryKeys(es: seq<Entry>): set<Key>
    decreases |es|
  {
    if es == [] then {} else {es[0].key} + EntryKeys(es[1..])
  }

  lemma {:induction false} EntriesAreRecords(m: Mem, log: seq<Record>)
    ensures RedoEntries(m, AllMeant(log)) == RedoAll(m, log) && EntryKeys(AllMeant(log)) == LogKeys(log)
    decreases |log|
  {
    hide PutColumn; hide CPutColumn;
    if log == [] {
    } else {
      assert AllMeant(log)[1..] == AllMeant(log[1..]);
      EntriesAreRecords(Redo(m, log[0]), log[1..]);
    }
  }

  // ---- The restart ----------------------------------------------------------------------------------

  /** The hash tables are walked in some order. */
  ghost predicate Orders(order: seq<Key>, d: DiskMap) {
    (forall k :: k in order <==> k in d) && forall i, j :: 0 <= i < j < |order| ==> order[i] != order[j]
  }

  /** The metadata file's text; a missing file reads like an empty one. */
  function MetadataFile(d: Disk, order: seq<Key>): string
    requires forall k :: k in order ==> k in d.metadata.diskMap
  {
    if d.saved then PrintMetadata(d.metadata, order) else ""
  }

  /** The table and `modified` after a restart from the texts; `None` where a parse throws. */
  ghost function RestartFrom(metadata: string, log: string, blocks: Blocks, capacity: nat): Option<(Mem, set<Key>)> {
    match ParseMetadata(metadata)
    case None => None
    case Some((d, id, offset)) =>
      if offset > BLOCK_SIZE then None
      else
        match ParseLog(log)
        case None => None
        case Some(es) =>
          Some((RedoEntries(Mem({}, map[], map[], SizeT(capacity), d, id, offset, blocks), es), EntryKeys(es)))
  }

  /** The files are read back as what was written to them: there is a metadata file, the log holds no NUL byte, and no
      row or column name in either holds a newline. */
  ghost predicate Legible(d: Disk) {
    && d.saved
    && '\0' !in PrintLog(d.log)
    && (forall i :: 0 <= i < |d.log| ==> LineFree(d.log[i].key))
    && (forall k :: k in d.metadata.diskMap ==> LineFree(k))
  }

  /** From legible files the restart is the recovery, in whatever order the columns were written. */
  lemma LegibleRestarts(d: Disk, order: seq<Key>, capacity: nat)
    requires Legible(d) && Orders(order, d.metadata.diskMap)
    ensures RestartFrom(MetadataFile(d, order), Received(PrintLog(d.log)), d.blocks, capacity)
            == Some((Recover(d, capacity).mem, Recover(d, capacity).modified))
  {
    hide LineFree; hide PrintMetadata; hide ParseMetadata; hide PrintLog; hide ParseLog; hide RedoEntries; hide RedoAll;
    hide ReadBack; hide LogKeys; hide EntryKeys; hide AllMeant; hide SizeT;
    MetadataBack(d.metadata, order);
    ReceivedIff(PrintLog(d.log));
    LogReadIff(d.log);
    EntriesAreRecords(Restarted(d.blocks, d.metadata, capacity), d.log);
  }

  /** A group that loses a node before the first checkpoint cannot bring it back: the first line of the missing file is
      tokenized all the same (kvstore/kv_store.cpp:693-698), which throws. */
  lemma UnsavedNeverRestarts(d: Disk, order: seq<Key>, capacity: nat)
    requires !d.saved && Orders(order, d.metadata.diskMap)
    ensures RestartFrom(MetadataFile(d, order), Received(PrintLog(d.log)), d.blocks, capacity) == None
  {
  }

  // ---- A value with a NUL ---------------------------------------------------------------------------

  function Nuls(n: nat): (s: string)
    ensures |s| == n
  {
    seq(n, _ => '\0')
  }

  /** What is left of a value at the end of the log: its bytes up to the first NUL, the rest NULs. */
  function Cut(v: string): (c: string)
    ensures |c| == |v|
  {
    CStringWhole(v);
    CString(v) + Nuls(|v| - |CString(v)|)
  }

  /** That is the value exactly when nothing but NULs follows its first NUL. */
  lemma CutIff(v: string)
    ensures Cut(v) == v <==> forall i :: |CString(v)| <= i < |v| ==> v[i] == '\0'
  {
    CStringWhole(v);
    assert forall i :: 0 <= i < |CString(v)| ==> Cut(v)[i] == v[i];
    assert forall i :: |CString(v)| <= i < |v| ==> Cut(v)[i] == '\0';
  }

  lemma {:induction false} CStringConcat(s: string, t: string)
    requires '\0' !in s
    ensures CString(s + t) == s + CString(t)
    decreases |s|
  {
    if s == "" {
      assert "" + t == t;
    } else {
      assert (s + t)[1..] == s[1..] + t;
      CStringConcat(s[1..], t);
    }
  }

  lemma {:induction false} CStringOfCut(v: string, rest: string)
    requires '\0' in v
    ensures CString(v + rest) == CString(v)
    decreases |v|
  {
    assert (v + rest)[0] == v[0] && (v + rest)[1..] == v[1..] + rest;
    if v[0] == '\0' {
    } else {
      CStringOfCut(v[1..], rest);
    }
  }

  function PutHead(k: Key, size: nat): string {
    "PUT" + "\n" + k.row + "\n" + k.col + "\n" + ToString(size) + "\n"
  }

  lemma OnePut(k: Key, v: string)
    ensures PrintLog([PutRecord(k, v)]) == PutHead(k, |v|) + (v + "\n")
  {
    hide ToString;
    var r := PutRecord(k, v);
    assert PrintLog([r]) == PrintRecord(r) + PrintLog([]);
    assert PrintRecord(r) == PutHead(k, |v|) + v + "\n";
    Grouped(PutHead(k, |v|), v, "\n", "");
    assert v + "\n" + "" == v + "\n";
  }

  /** What the restarted node makes of a log of one put whose value holds a NUL. */
  lemma NulLogRead(k: Key, v: string)
    requires '\0' in v && '\0' !in k.row && '\0' !in k.col && LineFree(k)
    requires |PrintLog([PutRecord(k, v)])| <= RPC_MSG_SIZE
    ensures ParseLog(Received(PrintLog([PutRecord(k, v)]))) == Some([PutEntry(k, Cut(v))])
  {
    hide ToString; hide NextNumber; hide NextLine; hide LineFree; hide CString;
    OnePut(k, v);
    assert forall c :: c in ToString(|v|) ==> IsDigit(c);
    CStringConcat(PutHead(k, |v|), v + "\n");
    CStringOfCut(v, "\n");
    var text := PutHead(k, |v|) + CString(v);
    assert Received(PrintLog([PutRecord(k, v)])) == text;
    var body := ToString(|v|) + "\n" + CString(v);
    assert text == "PUT" + "\n" + k.row + "\n" + k.col + "\n" + body by { HeadGrouped(k, ToString(|v|), CString(v)); }
    HeadRead("PUT", k, body);
    NumberRead(|v|, CString(v));
    CStringWhole(v);
    CutRead(v);
    assert ParseEntry(text) == Some((PutEntry(k, Cut(v)), ""));
    assert ParseLog("") == Some([]);
    assert [PutEntry(k, Cut(v))] + [] == [PutEntry(k, Cut(v))];
  }

  lemma HeadGrouped(k: Key, n: string, rest: string)
    ensures "PUT" + "\n" + k.row + "\n" + k.col + "\n" + n + "\n" + rest
            == "PUT" + "\n" + k.row + "\n" + k.col + "\n" + (n + "\n" + rest)
  {
    Grouped("PUT" + "\n" + k.row + "\n" + k.col + "\n", n, "\n", rest);
  }

  lemma CutRead(v: string)
    requires '\0' in v
    ensures NextValue(CString(v), |v|) == (Cut(v), "")
  {
    CStringWhole(v);
    assert CString(v) != v;
  }

  /** A put whose value holds a NUL comes back cut at it: the restarted node holds the cut value, which is the value put
      only where nothing but NULs followed. */
  lemma NulComesBackCut(d: Disk, order: seq<Key>, k: Key, v: string, capacity: nat)
    requires d.saved && Readable(d.blocks, d.metadata) && Orders(order, d.metadata.diskMap)
    requires (forall k' :: k' in d.metadata.diskMap ==> LineFree(k')) && d.log == [PutRecord(k, v)]
    requires '\0' in v && '\0' !in k.row && '\0' !in k.col && LineFree(k)
    requires |PrintLog([PutRecord(k, v)])| <= RPC_MSG_SIZE
    ensures var r := RestartFrom(MetadataFile(d, order), Received(PrintLog(d.log)), d.blocks, capacity);
            r.Some? && Lookup(View(r.value.0), k) == Some(Cut(v))
    ensures Lookup(History(OnDisk(d.metadata, d.blocks), d.log), k) == Some(v)
  {
    hide LineFree; hide PrintMetadata; hide ParseMetadata; hide PrintLog; hide ParseLog; hide Received; hide Cut;
    hide ReadBack; hide SizeT; hide View; hide PutColumn; hide Valid; hide OnDisk; hide Fresh; hide Hollow;
    MetadataBack(d.metadata, order);
    NulLogRead(k, v);
    var m := Restarted(d.blocks, d.metadata, capacity);
    RestartedBase(d.blocks, d.metadata, capacity);
    PutColumnKeeps(m, k, Cut(v), {});
    var e := PutEntry(k, Cut(v));
    assert [e][1..] == [];
    assert RedoEntries(m, [e]) == RedoEntries(RedoEntry(m, e), []);
    assert d.log[1..] == [];
  }
}
