/** What a log means for a plain map, and what replaying it does (kvstore/kv_store.cpp:788-824).

    Deletes are logged as "DELETE" (kvstore/kv_store.cpp:494) and looked for as "DELE" (kvstore/kv_store.cpp:820), so
    a replay passes over them. */
module LogReplay {
  import opened Memtable
  import opened Options
  import opened StorageNode

  type Table = map<Key, string>

  function Apply(m: Table, r: Record): Table {
    match r
    case PutRecord(k, v) => m[k := v]
    case CPutRecord(k, e, v) => if k in m && m[k] == e then m[k := v] else m
    case DeleteRecord(k) => m - {k}
  }

  /** The requests of the log, one after the other. */
  function History(m: Table, log: seq<Record>): Table
    decreases |log|
  {
    if log == [] then m else History(Apply(m, log[0]), log[1..])
  }

  /** The replay: deletes are passed over. */
  function Replayed(m: Table, log: seq<Record>): Table
    decreases |log|
  {
    if log == [] then m else Replayed(if log[0].DeleteRecord? then m else Apply(m, log[0]), log[1..])
  }

  /** Columns that a replay has and the history has not, when it starts with `pending` of them and `gone` columns the
      other way round: those whose last put or delete is a delete that found them. */
  function Pending(pending: set<Key>, gone: set<Key>, log: seq<Record>): set<Key>
    decreases |log|
  {
    if log == [] then pending
    else Pending(PendingAfter(pending, gone, log[0]), GoneAfter(gone, log[0]), log[1..])
  }

  function PendingAfter(pending: set<Key>, gone: set<Key>, r: Record): set<Key> {
    match r
    case PutRecord(k, _) => pending - {k}
    case CPutRecord(_, _, _) => pending
    case DeleteRecord(k) => if k in gone then pending else pending + {k}
  }

  /** Columns that the history has and a replay has not. */
  function Gone(gone: set<Key>, log: seq<Record>): set<Key>
    decreases |log|
  {
    if log == [] then gone else Gone(GoneAfter(gone, log[0]), log[1..])
  }

  function GoneAfter(gone: set<Key>, r: Record): set<Key> {
    if r.CPutRecord? then gone else gone - {r.key}
  }

  /** Deletes and conditional puts are logged for columns that exist only: the handlers answer the others before
      they log. */
  predicate KeysPresent(m: Table, log: seq<Record>)
    decreases |log|
  {
    log == []
    || ((!log[0].PutRecord? ==> log[0].key in m) && KeysPresent(Apply(m, log[0]), log[1..]))
  }

  /** Every conditional put of the column succeeded. */
  predicate CPutsSucceedOn(m: Table, log: seq<Record>, k: Key)
    decreases |log|
  {
    log == []
    || ((log[0].CPutRecord? && log[0].key == k ==> k in m && m[k] == log[0].expected)
        && CPutsSucceedOn(Apply(m, log[0]), log[1..], k))
  }

  /** Conditional puts that mismatched are on columns that the log puts. */
  ghost predicate MismatchesArePut(m: Table, log: seq<Record>) {
    forall k :: k !in PutKeys(log) ==> CPutsSucceedOn(m, log, k)
  }

  function PutKeys(log: seq<Record>): set<Key>
    decreases |log|
  {
    if log == [] then {} else (if log[0].PutRecord? then {log[0].key} else {}) + PutKeys(log[1..])
  }

  // ---- Appending ------------------------------------------------------------------------------------

  lemma {:induction false} HistoryAppend(m: Table, log: seq<Record>, r: Record)
    ensures History(m, log + [r]) == Apply(History(m, log), r)
    ensures KeysPresent(m, log) && (!r.PutRecord? ==> r.key in History(m, log)) ==> KeysPresent(m, log + [r])
    decreases |log|
  {
    if log == [] {
      assert log + [r] == [r];
      assert History(m, [r]) == History(Apply(m, r), []);
      assert KeysPresent(Apply(m, r), []);
    } else {
      assert (log + [r])[1..] == log[1..] + [r];
      HistoryAppend(Apply(m, log[0]), log[1..], r);
    }
  }

  // ---- Replay against history -----------------------------------------------------------------------

  /** `s` has the columns of `d` that `h` has not, lacks those of `g` that `h` has, and is otherwise the same. */
  ghost predicate DiffersIn(h: Table, s: Table, d: set<Key>, g: set<Key>) {
    && d !! h.Keys && g !! s.Keys && d !! g
    && (forall k :: k !in d && k !in g ==> ((k in h) <==> (k in s)) && (k in h ==> h[k] == s[k]))
  }

  lemma {:induction false} ReplayKeepsPending(h: Table, s: Table, d: set<Key>, g: set<Key>, log: seq<Record>)
    requires DiffersIn(h, s, d, g)
    ensures DiffersIn(History(h, log), Replayed(s, log), Pending(d, g, log), Gone(g, log))
    ensures d <= s.Keys && g <= h.Keys && KeysPresent(h, log) ==>
              Pending(d, g, log) <= Replayed(s, log).Keys && Gone(g, log) <= History(h, log).Keys
    decreases |log|
  {
    if log == [] {
    } else {
      var r := log[0];
      var s' := if r.DeleteRecord? then s else Apply(s, r);
      var d', g' := PendingAfter(d, g, r), GoneAfter(g, r);
      assert DiffersIn(Apply(h, r), s', d', g');
      ReplayKeepsPending(Apply(h, r), s', d', g', log[1..]);
    }
  }

  /** Nothing differs between the history and the replay from a start that lacks the columns of `gone`. */
  predicate Agrees(gone: set<Key>, log: seq<Record>) {
    Pending({}, gone, log) == {} && Gone(gone, log) == {}
  }

  /** A replay whose start lacks some columns gives the history's result exactly when nothing differs at the end. */
  lemma ReplayAgrees(m: Table, gone: set<Key>, log: seq<Record>)
    requires KeysPresent(m, log) && gone <= m.Keys
    ensures Replayed(m - gone, log) == History(m, log) <==> Agrees(gone, log)
  {
    ReplayKeepsPending(m, m - gone, {}, gone, log);
    if Pending({}, gone, log) != {} {
      var k :| k in Pending({}, gone, log);
      assert k in Replayed(m - gone, log) && k !in History(m, log);
    } else if Gone(gone, log) != {} {
      var k :| k in Gone(gone, log);
      assert k !in Replayed(m - gone, log) && k in History(m, log);
    }
  }

  /** Columns that the log puts or deletes. */
  function Decided(log: seq<Record>): set<Key>
    decreases |log|
  {
    if log == [] then {} else (if log[0].CPutRecord? then {} else {log[0].key}) + Decided(log[1..])
  }

  /** What the log must say of a column. One that the start lacks must be put or deleted, and if it ends deleted the log
      must never have put it; any other one must not end deleted. */
  predicate MadeGood(gone: set<Key>, log: seq<Record>, k: Key) {
    if k in gone then k in Decided(log) && (LastIsDelete(log, k, false) ==> k !in PutKeys(log))
    else !LastIsDelete(log, k, false)
  }

  ghost predicate AllMadeGood(gone: set<Key>, log: seq<Record>) {
    forall k :: MadeGood(gone, log, k)
  }

  lemma {:induction false} GoneIsUndecided(gone: set<Key>, log: seq<Record>)
    ensures Gone(gone, log) == gone - Decided(log)
    decreases |log|
  {
    if log == [] {
    } else {
      GoneIsUndecided(GoneAfter(gone, log[0]), log[1..]);
    }
  }

  /** A column that is not lacking is pending at the end exactly when its last put or delete is a delete. */
  lemma {:induction false} PendingWhenThere(d: set<Key>, gone: set<Key>, log: seq<Record>, k: Key)
    requires k !in gone
    ensures k in Pending(d, gone, log) <==> LastIsDelete(log, k, k in d)
    decreases |log|
  {
    if log == [] {
    } else {
      PendingWhenThere(PendingAfter(d, gone, log[0]), GoneAfter(gone, log[0]), log[1..], k);
    }
  }

  /** A column that neither the history nor a replay has, which the log goes on to name, is put first. */
  lemma {:induction false} AbsentUntilPut(m: Table, log: seq<Record>, k: Key)
    requires KeysPresent(m, log) && k !in m
    ensures k in Decided(log) <==> k in PutKeys(log)
    ensures LastIsDelete(log, k, false) ==> k in PutKeys(log)
    decreases |log|
  {
    if log == [] {
    } else if log[0].key != k {
      AbsentUntilPut(Apply(m, log[0]), log[1..], k);
    }
  }

  lemma {:induction false} PendingWhenGone(m: Table, d: set<Key>, gone: set<Key>, log: seq<Record>, k: Key)
    requires KeysPresent(m, log) && k in gone && k in m && k !in d
    ensures k in Pending(d, gone, log) <==> LastIsDelete(log, k, false) && k in PutKeys(log)
    decreases |log|
  {
    if log == [] {
    } else {
      var r := log[0];
      var d', gone' := PendingAfter(d, gone, r), GoneAfter(gone, r);
      if r.key != k || r.CPutRecord? {
        PendingWhenGone(Apply(m, r), d', gone', log[1..], k);
      } else if r.PutRecord? {
        PendingWhenThere(d', gone', log[1..], k);
      } else {
        PendingWhenThere(d', gone', log[1..], k);
        AbsentUntilPut(Apply(m, r), log[1..], k);
        StartMatters(log[1..], k);
      }
    }
  }

  /** The start matters to the last put or delete only where there is none. */
  lemma {:induction false} StartMatters(log: seq<Record>, k: Key)
    ensures k in Decided(log) ==> LastIsDelete(log, k, true) == LastIsDelete(log, k, false)
    ensures k !in Decided(log) ==> !LastIsDelete(log, k, false) && LastIsDelete(log, k, true)
    ensures PutKeys(log) <= Decided(log)
    decreases |log|
  {
    if log == [] {
    } else {
      StartMatters(log[1..], k);
    }
  }

  /** Column by column: nothing differs exactly when the log makes every column good. */
  lemma AgreesIff(m: Table, gone: set<Key>, log: seq<Record>)
    requires KeysPresent(m, log) && gone <= m.Keys
    ensures Agrees(gone, log) <==> AllMadeGood(gone, log)
  {
    GoneIsUndecided(gone, log);
    forall k ensures MadeGood(gone, log, k) <==> k !in Pending({}, gone, log) && k !in Gone(gone, log) {
      if k in gone { PendingWhenGone(m, {}, gone, log, k); } else { PendingWhenThere({}, gone, log, k); }
    }
    if AllMadeGood(gone, log) {
      forall k ensures k !in Pending({}, gone, log) && k !in Gone(gone, log) { assert MadeGood(gone, log, k); }
    }
  }

  /** A replay whose start lacks some columns gives the history's result exactly when the log makes every column good. */
  lemma ReplayIsHistoryIff(m: Table, gone: set<Key>, log: seq<Record>)
    requires KeysPresent(m, log) && gone <= m.Keys
    ensures Replayed(m - gone, log) == History(m, log) <==> AllMadeGood(gone, log)
  {
    ReplayAgrees(m, gone, log);
    AgreesIff(m, gone, log);
  }

  function LogKeys(log: seq<Record>): set<Key>
    decreases |log|
  {
    if log == [] then {} else {log[0].key} + LogKeys(log[1..])
  }

  lemma {:induction false} PutKeysAppend(log: seq<Record>, r: Record)
    ensures PutKeys(log + [r]) == PutKeys(log) + (if r.PutRecord? then {r.key} else {})
    decreases |log|
  {
    if log == [] {
      assert log + [r] == [r];
    } else {
      assert (log + [r])[1..] == log[1..] + [r];
      PutKeysAppend(log[1..], r);
    }
  }

  lemma {:induction false} PutKeysAreLogKeys(log: seq<Record>)
    ensures PutKeys(log) <= LogKeys(log)
    decreases |log|
  {
    if log == [] {
    } else {
      PutKeysAreLogKeys(log[1..]);
    }
  }

  // ---- Replay of a log on the state it produced -----------------------------------------------------

  function Lookup(m: Table, k: Key): Option<string> {
    if k in m then Some(m[k]) else None
  }

  lemma {:induction false} ReplayNeverRemoves(m: Table, log: seq<Record>, k: Key)
    requires k in m || k in PutKeys(log)
    ensures k in Replayed(m, log)
    decreases |log|
  {
    if log == [] {
    } else {
      ReplayNeverRemoves(if log[0].DeleteRecord? then m else Apply(m, log[0]), log[1..], k);
    }
  }

  /** Whether the last put or delete of the column is a delete; `start` when there is neither. */
  predicate LastIsDelete(log: seq<Record>, k: Key, start: bool)
    decreases |log|
  {
    if log == [] then start
    else if log[0].key != k || log[0].CPutRecord? then LastIsDelete(log[1..], k, start)
    else LastIsDelete(log[1..], k, log[0].DeleteRecord?)
  }

  /** Where a column is put, what held before does not matter. */
  lemma {:induction false} PutDecides(log: seq<Record>, k: Key)
    requires k in PutKeys(log)
    ensures LastIsDelete(log, k, true) == LastIsDelete(log, k, false)
    decreases |log|
  {
    if !(log[0].key == k && !log[0].CPutRecord?) {
      PutDecides(log[1..], k);
    }
  }

  lemma {:induction false} ReplayAddsPutsOnly(m: Table, log: seq<Record>, k: Key)
    requires k !in m && k !in PutKeys(log)
    ensures k !in Replayed(m, log)
    decreases |log|
  {
    if log == [] {
    } else {
      ReplayAddsPutsOnly(if log[0].DeleteRecord? then m else Apply(m, log[0]), log[1..], k);
    }
  }

  /** A column whose last put or delete is a put ends up the same from any two starts, one replayed and one not. */
  lemma {:induction false} PutSettles(h: Table, s: Table, log: seq<Record>, k: Key)
    requires !LastIsDelete(log, k, true)
    ensures Lookup(Replayed(s, log), k) == Lookup(History(h, log), k)
    decreases |log|
  {
    if log == [] {
    } else {
      var h', s' := Apply(h, log[0]), if log[0].DeleteRecord? then s else Apply(s, log[0]);
      if log[0].PutRecord? && log[0].key == k {
        ReplayFollows(h', s', log[1..], k);
      } else {
        PutSettles(h', s', log[1..], k);
      }
    }
  }

  lemma {:induction false} ReplayFollows(h: Table, s: Table, log: seq<Record>, k: Key)
    requires Lookup(h, k) == Lookup(s, k) && !LastIsDelete(log, k, false)
    ensures Lookup(Replayed(s, log), k) == Lookup(History(h, log), k)
    decreases |log|
  {
    if log == [] {
    } else {
      var h', s' := Apply(h, log[0]), if log[0].DeleteRecord? then s else Apply(s, log[0]);
      if log[0].DeleteRecord? && log[0].key == k {
        PutSettles(h', s', log[1..], k);
      } else {
        ReplayFollows(h', s', log[1..], k);
      }
    }
  }

  /** One column that the log never puts: replay from the log's own result either falls in step with the history or
      never moves. */
  lemma {:induction false} ReplayOnResultKey(m: Table, t: Table, log: seq<Record>, k: Key)
    requires CPutsSucceedOn(m, log, k) && k !in PutKeys(log)
    requires Lookup(t, k) == Lookup(History(m, log), k)
    ensures Lookup(Replayed(t, log), k) == Lookup(t, k)
    decreases |log|
  {
    if log == [] {
    } else {
      var r := log[0];
      var m', t' := Apply(m, r), if r.DeleteRecord? then t else Apply(t, r);
      if Lookup(t', k) == Lookup(m', k) && !LastIsDelete(log[1..], k, false) {
        ReplayFollows(m', t', log[1..], k);
      } else if Lookup(t', k) == Lookup(t, k) {
        ReplayOnResultKey(m', t', log[1..], k);
      } else {
        assert Lookup(t', k) == Lookup(m', k) && t'.Keys == t.Keys;
        EndsAbsent(m', log[1..], k);
      }
    }
  }

  /** A column whose last put or delete is a delete is not there at the end. */
  lemma {:induction false} EndsAbsent(m: Table, log: seq<Record>, k: Key)
    requires LastIsDelete(log, k, false) || (LastIsDelete(log, k, true) && k !in m)
    ensures k !in History(m, log)
    decreases |log|
  {
    if log == [] {
    } else {
      StartMatters(log[1..], k);
      EndsAbsent(Apply(m, log[0]), log[1..], k);
    }
  }

  /** Replaying a log on the state it produced, less some columns, gives that state exactly when those columns were put
      in the log and no column that ends deleted was. Conditional puts may have mismatched on columns that the log
      puts. */
  lemma ReplayOnResultIff(m: Table, gone: set<Key>, log: seq<Record>)
    requires MismatchesArePut(m, log) && gone <= History(m, log).Keys
    ensures Replayed(History(m, log) - gone, log) == History(m, log)
            <==> gone <= PutKeys(log) && forall k :: k in PutKeys(log) ==> !LastIsDelete(log, k, false)
  {
    var f, t := History(m, log), History(m, log) - gone;
    if k :| k in PutKeys(log) && LastIsDelete(log, k, false) {
      ReplayNeverRemoves(t, log, k);
      EndsAbsent(m, log, k);
    } else if !(gone <= PutKeys(log)) {
      var k :| k in gone && k !in PutKeys(log);
      ReplayAddsPutsOnly(t, log, k);
    } else {
      forall k ensures Lookup(Replayed(t, log), k) == Lookup(f, k) {
        if k in PutKeys(log) {
          PutDecides(log, k);
          PutSettles(m, t, log, k);
        } else {
          assert CPutsSucceedOn(m, log, k) && k !in gone;
          ReplayOnResultKey(m, t, log, k);
        }
      }
      LookupsEqual(Replayed(t, log), f);
    }
  }

  lemma LookupsEqual(m: Table, m': Table)
    requires forall k :: Lookup(m, k) == Lookup(m', k)
    ensures m == m'
  {
    assert forall k :: k in m <==> Lookup(m, k).Some?;
    assert forall k :: k in m' <==> Lookup(m', k).Some?;
    assert forall k :: k in m ==> Lookup(m, k) == Some(m[k]) && k in m' && Lookup(m', k) == Some(m'[k]);
  }
}
