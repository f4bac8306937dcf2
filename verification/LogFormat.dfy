/** The log as text, its transfer and its parse (kvstore/kv_store.cpp:187-205, 290-296, 643-663, 788-822). */
module LogFormat {
  import opened Numbers
  import opened Options
  import opened Decimal
  import opened Memtable
  import opened StorageNode

  /** What the replay makes of a record by its type line; the type it knows as a deletion is "DELE". */
  datatype Entry =
    | PutEntry(key: Key, value: string)
    | CPutEntry(key: Key, expected: string, value: string)
    | DeleEntry(key: Key)
    | OtherEntry(key: Key)

  // ---- Printing -------------------------------------------------------------------------------------

  /** `log` */
  function PrintRecord(r: Record): string {
    match r
    case PutRecord(k, v) => "PUT" + "\n" + k.row + "\n" + k.col + "\n" + ToString(|v|) + "\n" + v + "\n"
    case CPutRecord(k, e, v) =>
      "CPUT" + "\n" + k.row + "\n" + k.col + "\n" + ToString(|e|) + "\n" + ToString(|v|) + "\n" + e + "\n" + v + "\n"
    case DeleteRecord(k) => "DELETE" + "\n" + k.row + "\n" + k.col + "\n"
  }

  function PrintLog(log: seq<Record>): string
    decreases |log|
  {
    if log == [] then "" else PrintRecord(log[0]) + PrintLog(log[1..])
  }

  // ---- Parsing --------------------------------------------------------------------------------------

  /** `getline`: the text up to the next newline, which is consumed. */
  function LineOf(s: string): (line: string)
    ensures '\n' !in line
    decreases |s|
  {
    if s == "" || s[0] == '\n' then "" else [s[0]] + LineOf(s[1..])
  }

  function AfterLine(s: string): (rest: string)
    ensures |rest| <= |s| && (s != "" ==> |rest| < |s|)
    decreases |s|
  {
    if s == "" then "" else if s[0] == '\n' then s[1..] else AfterLine(s[1..])
  }

  function NextLine(s: string): (r: Option<(string, string)>)
    ensures r.Some? ==> |r.value.1| < |s| && '\n' !in r.value.0
  {
    if s == "" then None else Some((LineOf(s), AfterLine(s)))
  }

  /** `stoi` on a line that is a number. */
  function Number(line: string): Option<nat> {
    if line != "" && (forall i :: 0 <= i < |line| ==> IsDigit(line[i])) && FromString(line) >= 0 then
      Some(FromString(line))
    else None
  }

  function NextNumber(s: string): (r: Option<(nat, string)>)
    ensures r.Some? ==> |r.value.1| < |s|
  {
    match NextLine(s)
    case None => None
    case Some((line, rest)) =>
      match Number(line)
      case None => None
      case Some(n) => Some((n, rest))
  }

  /** A value of known size and the newline after it. At the end of the text the rest of the resized string stays NUL. */
  function NextValue(s: string, size: nat): (r: (string, string))
    ensures |r.0| == size && |r.1| <= |s|
  {
    if size <= |s| then (s[..size], AfterLine(s[size..])) else (s + seq(size - |s|, _ => '\0'), "")
  }

  function ParsePut(k: Key, s: string): (r: Option<(Entry, string)>)
    ensures r.Some? ==> |r.value.1| <= |s| && r.value.0.key == k
  {
    match NextNumber(s)
    case None => None
    case Some((size, s1)) =>
      var (value, s2) := NextValue(s1, size);
      Some((PutEntry(k, value), s2))
  }

  function ParseCPut(k: Key, s: string): (r: Option<(Entry, string)>)
    ensures r.Some? ==> |r.value.1| <= |s| && r.value.0.key == k
  {
    match NextNumber(s)
    case None => None
    case Some((oldSize, s1)) =>
      match NextNumber(s1)
      case None => None
      case Some((newSize, s2)) =>
        var (oldValue, s3) := NextValue(s2, oldSize);
        var (newValue, s4) := NextValue(s3, newSize);
        Some((CPutEntry(k, oldValue, newValue), s4))
  }

  predicate LineFree(k: Key) {
    '\n' !in k.row && '\n' !in k.col
  }

  function ParseEntry(s: string): (r: Option<(Entry, string)>)
    ensures r.Some? ==> |r.value.1| < |s| && LineFree(r.value.0.key)
  {
    match NextLine(s)
    case None => None
    case Some((kind, s1)) =>
      match NextLine(s1)
      case None => None
      case Some((row, s2)) =>
        match NextLine(s2)
        case None => None
        case Some((col, s3)) =>
          var k := Key(row, col);
          if kind == "PUT" then ParsePut(k, s3)
          else if kind == "CPUT" then ParseCPut(k, s3)
          else if kind == "DELE" then Some((DeleEntry(k), s3))
          else Some((OtherEntry(k), s3))
  }

  /** The records of a log; `None` where `stoi` throws or the text ends within the lines at the head of a record. */
  function ParseLog(s: string): Option<seq<Entry>>
    decreases |s|
  {
    if s == "" then Some([])
    else
      match ParseEntry(s)
      case None => None
      case Some((e, rest)) =>
        match ParseLog(rest)
        case None => None
        case Some(es) => Some([e] + es)
  }

  // ---- Round trip -----------------------------------------------------------------------------------

  function Meant(r: Record): Entry {
    match r
    case PutRecord(k, v) => PutEntry(k, v)
    case CPutRecord(k, e, v) => CPutEntry(k, e, v)
    case DeleteRecord(k) => OtherEntry(k)
  }

  function AllMeant(log: seq<Record>): seq<Entry>
    decreases |log|
  {
    if log == [] then [] else [Meant(log[0])] + AllMeant(log[1..])
  }

  lemma {:induction false} LineRead(line: string, rest: string)
    requires '\n' !in line
    ensures LineOf(line + "\n" + rest) == line && AfterLine(line + "\n" + rest) == rest
    decreases |line|
  {
    var s := line + "\n" + rest;
    if line == "" {
      assert s[0] == '\n' && s[1..] == rest;
    } else {
      assert s[0] == line[0] && s[1..] == line[1..] + "\n" + rest;
      LineRead(line[1..], rest);
    }
  }

  lemma NumberRead(n: nat, rest: string)
    ensures NextNumber(ToString(n) + "\n" + rest) == Some((n, rest))
  {
    assert '\n' !in ToString(n);
    LineRead(ToString(n), rest);
    RoundTrip(n);
  }

  lemma ValueRead(v: string, rest: string)
    ensures NextValue(v + "\n" + rest, |v|) == (v, rest)
  {
    var s := v + "\n" + rest;
    assert s[..|v|] == v && s[|v|..] == "" + "\n" + rest;
    LineRead("", rest);
  }

  lemma Grouped(p: string, x: string, y: string, z: string)
    ensures p + x + y + z == p + (x + y + z)
  {
  }

  lemma PutRead(k: Key, v: string, rest: string)
    ensures ParsePut(k, ToString(|v|) + "\n" + v + "\n" + rest) == Some((PutEntry(k, v), rest))
  {
    hide ToString; hide NextNumber; hide NextValue;
    Grouped(ToString(|v|) + "\n", v, "\n", rest);
    NumberRead(|v|, v + "\n" + rest);
    ValueRead(v, rest);
  }

  lemma CPutRead(k: Key, e: string, v: string, rest: string)
    ensures ParseCPut(k, ToString(|e|) + "\n" + ToString(|v|) + "\n" + e + "\n" + v + "\n" + rest)
            == Some((CPutEntry(k, e, v), rest))
  {
    hide ToString; hide NextNumber; hide NextValue;
    var s2 := e + "\n" + (v + "\n" + rest);
    var s1 := ToString(|v|) + "\n" + s2;
    CPutGrouped(ToString(|e|), ToString(|v|), e, v, rest);
    NumberRead(|e|, s1);
    NumberRead(|v|, s2);
    ValueRead(e, v + "\n" + rest);
    ValueRead(v, rest);
  }

  lemma CPutGrouped(m: string, n: string, e: string, v: string, rest: string)
    ensures m + "\n" + n + "\n" + e + "\n" + v + "\n" + rest == m + "\n" + (n + "\n" + (e + "\n" + (v + "\n" + rest)))
  {
    var p := m + "\n" + n + "\n";
    Grouped(p + e + "\n", v, "\n", rest);
    Grouped(p, e, "\n", v + "\n" + rest);
    Grouped(m + "\n", n, "\n", e + "\n" + (v + "\n" + rest));
  }

  /** The three lines at the head of a record. */
  lemma HeadRead(kind: string, k: Key, rest: string)
    requires '\n' !in kind && LineFree(k)
    ensures var s := kind + "\n" + k.row + "\n" + k.col + "\n" + rest;
            && NextLine(s) == Some((kind, k.row + "\n" + k.col + "\n" + rest))
            && NextLine(k.row + "\n" + k.col + "\n" + rest) == Some((k.row, k.col + "\n" + rest))
            && NextLine(k.col + "\n" + rest) == Some((k.col, rest))
  {
    hide LineOf; hide AfterLine;
    var s1 := k.row + "\n" + k.col + "\n" + rest;
    assert kind + "\n" + k.row + "\n" + k.col + "\n" + rest == kind + "\n" + s1;
    assert s1 == k.row + "\n" + (k.col + "\n" + rest);
    LineRead(kind, s1);
    LineRead(k.row, k.col + "\n" + rest);
    LineRead(k.col, rest);
  }

  /** A record whose row and column hold no newline is read back; its values may hold anything. */
  lemma RecordRead(r: Record, rest: string)
    requires LineFree(r.key)
    ensures ParseEntry(PrintRecord(r) + rest) == Some((Meant(r), rest))
  {
    hide NextLine; hide ToString; hide ParsePut; hide ParseCPut; hide LineFree;
    match r
    case PutRecord(k, v) =>
      var body := ToString(|v|) + "\n" + v + "\n" + rest;
      assert PrintRecord(r) + rest == "PUT" + "\n" + k.row + "\n" + k.col + "\n" + body;
      HeadRead("PUT", k, body);
      PutRead(k, v, rest);
    case CPutRecord(k, e, v) =>
      var body := ToString(|e|) + "\n" + ToString(|v|) + "\n" + e + "\n" + v + "\n" + rest;
      assert PrintRecord(r) + rest == "CPUT" + "\n" + k.row + "\n" + k.col + "\n" + body;
      HeadRead("CPUT", k, body);
      CPutRead(k, e, v, rest);
    case DeleteRecord(k) =>
      assert PrintRecord(r) + rest == "DELETE" + "\n" + k.row + "\n" + k.col + "\n" + rest;
      HeadRead("DELETE", k, rest);
  }

  lemma {:induction false} LogRead(log: seq<Record>)
    requires forall i :: 0 <= i < |log| ==> LineFree(log[i].key)
    ensures ParseLog(PrintLog(log)) == Some(AllMeant(log))
    decreases |log|
  {
    hide PrintRecord; hide ParseEntry; hide LineFree; hide Meant;
    if log == [] {
    } else {
      RecordRead(log[0], PrintLog(log[1..]));
      PrintedNotEmpty(log[0]);
      LogRead(log[1..]);
    }
  }

  lemma PrintedNotEmpty(r: Record)
    ensures |PrintRecord(r)| > 0
  {
  }

  lemma {:induction false} ParsedLineFree(s: string)
    requires ParseLog(s).Some?
    ensures forall i :: 0 <= i < |ParseLog(s).value| ==> LineFree(ParseLog(s).value[i].key)
    decreases |s|
  {
    hide ParseEntry;
    if s == "" {
    } else {
      ParsedLineFree(ParseEntry(s).value.1);
    }
  }

  lemma {:induction false} AllMeantAt(log: seq<Record>, i: nat)
    requires i < |log|
    ensures |AllMeant(log)| == |log| && AllMeant(log)[i].key == log[i].key
    decreases |log|
  {
    if i > 0 {
      AllMeantAt(log[1..], i - 1);
    } else if |log| > 1 {
      AllMeantAt(log[1..], 0);
    }
  }

  /** The log is read back as it was written exactly when no row or column name holds a newline. */
  lemma LogReadIff(log: seq<Record>)
    ensures ParseLog(PrintLog(log)) == Some(AllMeant(log)) <==> forall i :: 0 <= i < |log| ==> LineFree(log[i].key)
  {
    hide LineFree; hide ParseLog; hide PrintLog; hide AllMeant;
    if ParseLog(PrintLog(log)) == Some(AllMeant(log)) {
      ParsedLineFree(PrintLog(log));
      forall i | 0 <= i < |log| ensures LineFree(log[i].key) {
        AllMeantAt(log, i);
      }
    } else if forall i :: 0 <= i < |log| ==> LineFree(log[i].key) {
      LogRead(log);
    }
  }

  // ---- Transfer -------------------------------------------------------------------------------------

  /** 10 * 1024 * 1024 (kvstore/kv_store.cpp:40) */
  const RPC_MSG_SIZE: Positive

  /** `string temp(buf)` on a buffer with a NUL behind its content. */
  function CString(buf: string): string
    decreases |buf|
  {
    if buf == "" || buf[0] == '\0' then "" else [buf[0]] + CString(buf[1..])
  }

  lemma {:induction false} CStringWhole(buf: string)
    ensures CString(buf) <= buf && '\0' !in CString(buf)
    ensures |CString(buf)| < |buf| ==> buf[|CString(buf)|] == '\0'
    decreases |buf|
  {
    if buf == "" {
    } else {
      CStringWhole(buf[1..]);
    }
  }

  /** The value is the piece of the log up to its first NUL. */
  ghost predicate UpToNul(value: string, piece: string) {
    value <= piece && '\0' !in value && (|value| < |piece| ==> piece[|value|] == '\0')
  }

  lemma UpToNulIsCString(value: string, piece: string)
    requires UpToNul(value, piece)
    ensures value == CString(piece)
  {
    CStringWhole(piece);
    var v := CString(piece);
    assert |value| == |v|;
  }

  /** The piece of the log for one message. */
  function Piece(rest: string): string {
    if |rest| <= RPC_MSG_SIZE then rest else rest[..RPC_MSG_SIZE]
  }

  /** `Recover` at the primary, on the part of the log behind its version line. */
  method SendChunk(body: string, round: nat) returns (value: string, isEnd: bool)
    requires round * RPC_MSG_SIZE <= |body|
    ensures UpToNul(value, Piece(body[round * RPC_MSG_SIZE..]))
    ensures isEnd <==> |body| <= (round + 1) * RPC_MSG_SIZE
  {
    var start := round * RPC_MSG_SIZE;
    assert (round + 1) * RPC_MSG_SIZE == start + RPC_MSG_SIZE;
    var rest := body[start..];
    CStringWhole(Piece(rest));
    value, isEnd := CString(Piece(rest)), |rest| <= RPC_MSG_SIZE;
  }

  /** What arrives of a log. */
  function Received(body: string): string
    decreases |body|
  {
    if |body| <= RPC_MSG_SIZE then CString(body)
    else CString(body[..RPC_MSG_SIZE]) + Received(body[RPC_MSG_SIZE..])
  }

  /** All of it exactly when it holds no NUL byte. */
  lemma {:induction false} ReceivedIff(body: string)
    ensures |Received(body)| <= |body|
    ensures Received(body) == body <==> '\0' !in body
    decreases |body|
  {
    var piece, rest := Piece(body), if |body| <= RPC_MSG_SIZE then "" else body[RPC_MSG_SIZE..];
    assert body == piece + rest;
    CStringWhole(piece);
    if |CString(piece)| == |piece| { assert CString(piece) == piece; }
    if |body| <= RPC_MSG_SIZE {
    } else {
      ReceivedIff(rest);
      if Received(body) == body { assert |CString(piece)| == |piece| && |Received(rest)| == |rest|; }
    }
  }

  /** The number of rounds it takes to send `size` bytes. */
  predicate Rounds(size: nat, rounds: nat) {
    rounds >= 1 && size <= rounds * RPC_MSG_SIZE && (rounds > 1 ==> (rounds - 1) * RPC_MSG_SIZE < size)
  }

  /** `Recover` at the restarted node, after as many rounds as the log fills messages, and at least one. */
  method FetchLog(body: string) returns (log: string, rounds: nat)
    ensures log == Received(body) && (log == body <==> '\0' !in body)
    ensures Rounds(|body|, rounds)
  {
    hide CString;
    ReceivedIff(body);
    log, rounds := "", 0;
    var isEnd := false;
    assert body[0..] == body;
    while !isEnd
      invariant isEnd ==> Rounds(|body|, rounds) && log == Received(body)
      invariant !isEnd ==> rounds * RPC_MSG_SIZE <= |body| && (rounds > 0 ==> rounds * RPC_MSG_SIZE < |body|)
      invariant !isEnd ==> log + Received(body[rounds * RPC_MSG_SIZE..]) == Received(body)
      decreases !isEnd, |body| - rounds * RPC_MSG_SIZE
    {
      ghost var rest := body[rounds * RPC_MSG_SIZE..];
      assert (rounds + 1) * RPC_MSG_SIZE == rounds * RPC_MSG_SIZE + RPC_MSG_SIZE;
      var value;
      value, isEnd := SendChunk(body, rounds);
      UpToNulIsCString(value, Piece(rest));
      assert !isEnd ==> rest[RPC_MSG_SIZE..] == body[(rounds + 1) * RPC_MSG_SIZE..];
      log := log + value;
      rounds := rounds + 1;
    }
  }
}
