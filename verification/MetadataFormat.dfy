/** The metadata file as text (kvstore/kv_store.cpp:320-345, 257-272; kvstore/utils.cpp:57-79). */
module MetadataFormat {
  import opened Options
  import opened Decimal
  import opened ListString
  import opened Extents
  import opened Memtable
  import opened Recovery
  import opened LogFormat

  // ---- tokenize -------------------------------------------------------------------------------------

  method FindFirstNotOf(s: string, delim: char) returns (pos: nat)
    ensures pos <= |s| && (pos < |s| ==> s[pos] != delim) && forall i :: 0 <= i < pos ==> s[i] == delim
  {
    pos := 0;
    while pos < |s| && s[pos] == delim
      invariant pos <= |s| && forall i :: 0 <= i < pos ==> s[i] == delim
    {
      pos := pos + 1;
    }
  }

  lemma {:induction false} TokensSkip(s: string, d: char, n: nat)
    requires n <= |s| && forall i :: 0 <= i < n ==> s[i] == d
    ensures Tokens(s, d) == Tokens(s[n..], d)
    decreases n
  {
    if n == 0 {
      assert s[0..] == s;
    } else {
      assert s == "" + [d] + s[1..];
      TokensConcat("", s[1..], d);
      TokensOne("", d);
      TokensSkip(s[1..], d, n - 1);
      assert s[1..][n - 1..] == s[n..];
    }
  }

  lemma FirstToken(s: string, d: char, end: nat)
    requires 0 < end <= |s| && d !in s[..end] && (end < |s| ==> s[end] == d)
    ensures Tokens(s, d) == [s[..end]] + Tokens(s[end..], d)
  {
    TokensOne(s[..end], d);
    if end < |s| {
      assert s == s[..end] + [d] + s[end + 1..];
      TokensConcat(s[..end], s[end + 1..], d);
      TokensSkip(s[end..], d, 1);
      assert s[end..][1..] == s[end + 1..];
    } else {
      assert s[..end] == s && s[end..] == "";
      TokensOne("", d);
    }
  }

  lemma NoTokensLeft(s: string, d: char)
    requires s == "" || s[0] == d
    requires forall i :: 0 <= i < |s| ==> s[i] == d
    ensures Tokens(s, d) == []
  {
    TokensSkip(s, d, |s|);
    TokensOne("", d);
  }

  /** `tokenize`: the non-empty pieces, like `separate_string`, except that a string without any is an error
      (`substr` from `npos`). */
  method Tokenize(text: string, delim: char) returns (ok: bool, tokens: seq<string>)
    ensures ok <==> Tokens(text, delim) != []
    ensures ok ==> tokens == Tokens(text, delim)
  {
    hide Tokens;
    tokens := [];
    var start := FindFirstNotOf(text, delim);
    if start == |text| {
      NoTokensLeft(text, delim);
      return false, [];
    }
    TokensSkip(text, delim, start);
    var str := text[start..];
    ok := true;
    while str != ""
      invariant tokens + Tokens(str, delim) == Tokens(text, delim)
      invariant tokens == [] ==> str != "" && str[0] != delim
      invariant str != "" && str[0] == delim ==> forall i :: 0 <= i < |str| ==> str[i] == delim
      decreases |str|
    {
      var found, pos := Find(str, delim);
      var end := if found then pos else |str|;
      if end == 0 {
        NoTokensLeft(str, delim);
        break;
      }
      FirstToken(str, delim, end);
      tokens := tokens + [str[..end]];
      str := str[end..];
      if !found {
        NoTokensLeft(str, delim);
        break;
      }
      start := FindFirstNotOf(str, delim);
      if start != |str| {
        TokensSkip(str, delim, start);
        str := str[start..];
      }
    }
    if str == "" { NoTokensLeft(str, delim); }
  }

  // ---- Printing -------------------------------------------------------------------------------------

  function PtrLine(f: BlockPtr): string {
    ToString(f.id) + " " + ToString(f.offset) + " " + ToString(f.size)
  }

  function PrintPtrs(e: seq<BlockPtr>, rest: string): string
    decreases |e|
  {
    if e == [] then rest else PtrLine(e[0]) + "\n" + PrintPtrs(e[1..], rest)
  }

  /** The columns in the order in which the hash tables are walked. */
  function PrintColumns(order: seq<Key>, d: DiskMap): string
    requires forall k :: k in order ==> k in d
    decreases |order|
  {
    if order == [] then ""
    else
      var k := order[0];
      k.row + "\n" + k.col + "\n" + (ToString(|d[k]|) + "\n" + PrintPtrs(d[k], PrintColumns(order[1..], d)))
  }

  /** The metadata file that `checkpoint` writes. */
  function PrintMetadata(l: Layout, order: seq<Key>): string
    requires forall k :: k in order ==> k in l.diskMap
  {
    ToString(l.blockId) + " " + ToString(l.blockOffset) + "\n" + PrintColumns(order, l.diskMap)
  }

  // ---- Parsing --------------------------------------------------------------------------------------

  function ParsePtr(line: string): Option<BlockPtr> {
    var tokens := Tokens(line, ' ');
    if |tokens| < 3 then None
    else
      match (Number(tokens[0]), Number(tokens[1]), Number(tokens[2]))
      case (Some(id), Some(offset), Some(size)) => Some(BlockPtr(id, offset, size))
      case _ => None
  }

  /** `n` lines, each pushed onto the column's entry, which the first of them creates. */
  function ParsePtrs(d: DiskMap, k: Key, s: string, n: nat): (r: Option<(DiskMap, string)>)
    ensures r.Some? ==> |r.value.1| <= |s|
    decreases n
  {
    if n == 0 then Some((d, s))
    else
      match NextLine(s)
      case None => None
      case Some((line, rest)) =>
        match ParsePtr(line)
        case None => None
        case Some(f) => ParsePtrs(Pushed(d, k, f), k, rest, n - 1)
  }

  /** `disk_map[row][col].push_back` */
  function Pushed(d: DiskMap, k: Key, f: BlockPtr): DiskMap {
    d[k := (if k in d then d[k] else []) + [f]]
  }

  function ParseColumn(d: DiskMap, s: string): (r: Option<(DiskMap, string)>)
    ensures r.Some? ==> |r.value.1| < |s|
  {
    match NextLine(s)
    case None => None
    case Some((row, s1)) =>
      match NextLine(s1)
      case None => None
      case Some((col, s2)) =>
        match NextNumber(s2)
        case None => None
        case Some((n, s3)) => ParsePtrs(d, Key(row, col), s3, n)
  }

  function ParseColumns(d: DiskMap, s: string): Option<DiskMap>
    decreases |s|
  {
    if s == "" then Some(d)
    else
      match ParseColumn(d, s)
      case None => None
      case Some((d', rest)) => ParseColumns(d', rest)
  }

  /** The metadata file as a restarted node reads it. */
  function ParseMetadata(s: string): Option<(DiskMap, nat, nat)> {
    match NextLine(s)
    case None => None
    case Some((line, rest)) =>
      var tokens := Tokens(line, ' ');
      if |tokens| < 2 then None
      else
        match (Number(tokens[0]), Number(tokens[1]), ParseColumns(map[], rest))
        case (Some(id), Some(offset), Some(d)) => Some((d, id, offset))
        case _ => None
  }

  /** The loop of `Metadata` at the restarted node. */
  method ReadColumns(text: string) returns (ok: bool, diskMap: DiskMap)
    ensures ok <==> ParseColumns(map[], text).Some?
    ensures ok ==> diskMap == ParseColumns(map[], text).value
  {
    hide NextLine; hide NextNumber; hide ParsePtr; hide Pushed;
    diskMap := map[];
    var rest := text;
    while rest != ""
      invariant ParseColumns(diskMap, rest) == ParseColumns(map[], text)
      decreases |rest|
    {
      ghost var start, from := diskMap, rest;
      var row := NextLine(rest);
      if row.None? { return false, map[]; }
      var col := NextLine(row.value.1);
      if col.None? { return false, map[]; }
      var blocksSize := NextNumber(col.value.1);
      if blocksSize.None? { return false, map[]; }
      var k, n := Key(row.value.0, col.value.0), blocksSize.value.0;
      rest := blocksSize.value.1;
      assert ParseColumn(start, from) == ParsePtrs(start, k, rest, n);
      for i := 0 to n
        invariant |rest| < |from|
        invariant ParsePtrs(diskMap, k, rest, n - i) == ParseColumn(start, from)
      {
        var line := NextLine(rest);
        if line.None? { return false, map[]; }
        var f := ParsePtr(line.value.0);
        if f.None? { return false, map[]; }
        diskMap := Pushed(diskMap, k, f.value);
        rest := line.value.1;
      }
    }
    ok := true;
  }

  /** `Metadata` at the restarted node: the pointer from the first line, then the columns. */
  method ReadMetadata(text: string) returns (ok: bool, diskMap: DiskMap, blockId: nat, blockOffset: nat)
    ensures ok <==> ParseMetadata(text).Some?
    ensures ok ==> (diskMap, blockId, blockOffset) == ParseMetadata(text).value
  {
    hide Number; hide Tokens; hide ParseColumns; hide LineOf; hide AfterLine;
    ok, diskMap, blockId, blockOffset := false, map[], 0, 0;
    var head := NextLine(text);
    if head.None? { return; }
    var some, tokens := Tokenize(head.value.0, ' ');
    if !some || |tokens| < 2 { return; }
    var id, offset := Number(tokens[0]), Number(tokens[1]);
    var columns, d := ReadColumns(head.value.1);
    if id.None? || offset.None? || !columns { return; }
    return true, d, id.value, offset.value;
  }

  // ---- Round trip -----------------------------------------------------------------------------------

  lemma NumberBack(n: nat)
    ensures Number(ToString(n)) == Some(n) && ' ' !in ToString(n) && '\n' !in ToString(n) && ToString(n) != ""
  {
    RoundTrip(n);
  }

  lemma PtrBack(f: BlockPtr)
    ensures ParsePtr(PtrLine(f)) == Some(f) && '\n' !in PtrLine(f)
  {
    hide Tokens; hide Number; hide ToString;
    NumberBack(f.id);
    NumberBack(f.offset);
    NumberBack(f.size);
    var a, b, c := ToString(f.id), ToString(f.offset), ToString(f.size);
    assert a + " " + b + " " + c == a + [' '] + (b + [' '] + c);
    TokensConcat(a, b + [' '] + c, ' ');
    TokensConcat(b, c, ' ');
    TokensOne(a, ' ');
    TokensOne(b, ' ');
    TokensOne(c, ' ');
  }

  function PushedAll(d: DiskMap, k: Key, e: seq<BlockPtr>): DiskMap
    decreases |e|
  {
    if e == [] then d else PushedAll(Pushed(d, k, e[0]), k, e[1..])
  }

  lemma {:induction false} PtrsBack(d: DiskMap, k: Key, e: seq<BlockPtr>, rest: string)
    ensures ParsePtrs(d, k, PrintPtrs(e, rest), |e|) == Some((PushedAll(d, k, e), rest))
    decreases |e|
  {
    hide ParsePtr; hide PtrLine; hide Pushed; hide LineOf; hide AfterLine;
    if e == [] {
    } else {
      PtrBack(e[0]);
      LineRead(PtrLine(e[0]), PrintPtrs(e[1..], rest));
      PtrsBack(Pushed(d, k, e[0]), k, e[1..], rest);
    }
  }

  lemma {:induction false} PushedAllIs(d: DiskMap, k: Key, e: seq<BlockPtr>)
    requires e != []
    ensures PushedAll(d, k, e) == d[k := (if k in d then d[k] else []) + e]
    decreases |e|
  {
    if |e| == 1 {
      assert e == [e[0]] && e[1..] == [];
    } else {
      PushedAllIs(Pushed(d, k, e[0]), k, e[1..]);
      assert (if k in d then d[k] else []) + [e[0]] + e[1..] == (if k in d then d[k] else []) + e;
    }
  }

  /** The columns of `order` read in. */
  function Filled(d: DiskMap, order: seq<Key>, l: DiskMap): DiskMap {
    d + map k | k in order && k in l && l[k] != [] :: l[k]
  }

  lemma {:induction false} ColumnsBack(d: DiskMap, order: seq<Key>, l: DiskMap)
    requires forall k :: k in order ==> k in l && k !in d && LineFree(k)
    requires forall i, j :: 0 <= i < j < |order| ==> order[i] != order[j]
    ensures ParseColumns(d, PrintColumns(order, l)) == Some(Filled(d, order, l))
    decreases |order|
  {
    hide NextLine; hide NextNumber; hide ParsePtrs; hide PrintPtrs; hide LineFree; hide ToString; hide Filled;
    if order == [] {
      FilledNone(d, l);
    } else {
      var k := order[0];
      var rest := PrintColumns(order[1..], l);
      var ptrs := PrintPtrs(l[k], rest);
      ColumnHead(k, |l[k]|, ptrs);
      PtrsBack(d, k, l[k], rest);
      FilledStep(d, order, l);
      ColumnsBack(PushedAll(d, k, l[k]), order[1..], l);
    }
  }

  lemma ColumnHead(k: Key, n: nat, rest: string)
    requires LineFree(k)
    ensures var s2 := ToString(n) + "\n" + rest;
            var s1 := k.col + "\n" + s2;
            var s := k.row + "\n" + k.col + "\n" + s2;
            s != "" && NextLine(s) == Some((k.row, s1)) && NextLine(s1) == Some((k.col, s2)) && NextNumber(s2) == Some((n, rest))
  {
    hide LineOf; hide AfterLine; hide NextNumber; hide ToString;
    var s2 := ToString(n) + "\n" + rest;
    assert k.row + "\n" + k.col + "\n" + s2 == k.row + "\n" + (k.col + "\n" + s2);
    LineRead(k.row, k.col + "\n" + s2);
    LineRead(k.col, s2);
    NumberRead(n, rest);
  }

  lemma FilledNone(d: DiskMap, l: DiskMap)
    ensures Filled(d, [], l) == d
  {
  }

  lemma PushedAllOnce(d: DiskMap, k: Key, e: seq<BlockPtr>)
    requires k !in d
    ensures PushedAll(d, k, e) == if e == [] then d else d[k := e]
  {
    if e != [] {
      PushedAllIs(d, k, e);
      assert [] + e == e;
    }
  }

  lemma TailMembers(order: seq<Key>)
    requires order != [] && forall i, j :: 0 <= i < j < |order| ==> order[i] != order[j]
    ensures forall k :: k in order <==> k == order[0] || k in order[1..]
    ensures order[0] !in order[1..]
    ensures forall i, j :: 0 <= i < j < |order[1..]| ==> order[1..][i] != order[1..][j]
  {
    assert forall i :: 0 <= i < |order[1..]| ==> order[1..][i] == order[i + 1];
    assert order == [order[0]] + order[1..];
  }

  lemma FilledStep(d: DiskMap, order: seq<Key>, l: DiskMap)
    requires order != [] && order[0] in l && order[0] !in d
    requires forall i, j :: 0 <= i < j < |order| ==> order[i] != order[j]
    requires forall k :: k in order ==> k !in d
    ensures var d' := PushedAll(d, order[0], l[order[0]]);
            Filled(d', order[1..], l) == Filled(d, order, l) && forall k :: k in order[1..] ==> k in order && k !in d'
  {
    hide PushedAll;
    PushedAllOnce(d, order[0], l[order[0]]);
    TailMembers(order);
    FilledTail(d, order[0], order[1..], order, l);
  }

  lemma FilledTail(d: DiskMap, k: Key, tail: seq<Key>, order: seq<Key>, l: DiskMap)
    requires k in l && k !in d && k !in tail && forall k' :: k' in order <==> k' == k || k' in tail
    ensures Filled(if l[k] == [] then d else d[k := l[k]], tail, l) == Filled(d, order, l)
  {
  }

  /** Reading the metadata file gives back the pointer and every column that has a fragment, whatever the order in
      which the columns were written, provided no row or column name holds a newline. */
  lemma MetadataBack(l: Layout, order: seq<Key>)
    requires forall k :: k in order <==> k in l.diskMap
    requires forall i, j :: 0 <= i < j < |order| ==> order[i] != order[j]
    requires forall k :: k in l.diskMap ==> LineFree(k)
    ensures ParseMetadata(PrintMetadata(l, order)) == Some((ReadBack(l.diskMap), l.blockId, l.blockOffset))
  {
    hide LineOf; hide AfterLine; hide Number; hide ToString; hide Tokens; hide ParseColumns; hide PrintColumns;
    hide LineFree;
    var a, b := ToString(l.blockId), ToString(l.blockOffset);
    NumberBack(l.blockId);
    NumberBack(l.blockOffset);
    TokensConcat(a, b, ' ');
    TokensOne(a, ' ');
    TokensOne(b, ' ');
    assert a + " " + b == a + [' '] + b;
    LineRead(a + " " + b, PrintColumns(order, l.diskMap));
    ColumnsBack(map[], order, l.diskMap);
    assert Filled(map[], order, l.diskMap) == ReadBack(l.diskMap);
  }
}
