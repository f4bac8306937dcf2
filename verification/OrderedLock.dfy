/** The fair lock of kvstore/utils.cpp: `unlock` hands the lock to the thread that has waited longest, without
    clearing `locked`. Waking up without a signal is assumed not to happen. */
module OrderedLock {

  import opened Options

  /** `cvar`, the queue of waiting threads, and `locked`. */
  datatype Lock<T> = Lock(locked: bool, waiting: seq<T>)

  /** `lock()` called by `t`: the second component is whether `t` goes on at once. */
  function Arrive<T>(l: Lock<T>, t: T): (Lock<T>, bool) {
    if l.locked then (l.(waiting := l.waiting + [t]), false) else (l.(locked := true), true)
  }

  /** `unlock()`: the thread that goes on, if any. */
  function Leave<T>(l: Lock<T>): (Lock<T>, Option<T>) {
    if l.waiting == [] then (l.(locked := false), None)
    else (l.(waiting := l.waiting[1..]), Some(l.waiting[0]))
  }

  class Mutex<T> {
    var cvar: seq<T>
    var locked: bool

    constructor ()
      ensures State() == Lock(false, [])
    {
      cvar, locked := [], false;
    }

    function State(): Lock<T>
      reads this
    {
      Lock(locked, cvar)
    }

    method Acquire(t: T) returns (goesOn: bool)
      modifies this
      ensures (State(), goesOn) == Arrive(old(State()), t)
    {
      if locked {
        cvar := cvar + [t];
        goesOn := false;
      } else {
        locked := true;
        goesOn := true;
      }
    }

    method Release() returns (next: Option<T>)
      modifies this
      ensures (State(), next) == Leave(old(State()))
    {
      if cvar == [] {
        locked := false;
        next := None;
      } else {
        next := Some(cvar[0]);
        cvar := cvar[1..];
      }
    }
  }

  // ---- Histories ------------------------------------------------------------------------------------

  datatype Event<T> = Locks(thread: T) | Unlocks

  /** The lock, the threads in order of arrival, the threads in the order in which they went on, and how many of
      those have unlocked. */
  datatype History<T> = History(lock: Lock<T>, arrived: seq<T>, granted: seq<T>, released: nat)

  function Begin<T>(): History<T> {
    History(Lock(false, []), [], [], 0)
  }

  function After<T>(h: History<T>, e: Event<T>): History<T> {
    match e
    case Locks(t) =>
      var (l, goesOn) := Arrive(h.lock, t);
      h.(lock := l, arrived := h.arrived + [t], granted := if goesOn then h.granted + [t] else h.granted)
    case Unlocks =>
      var (l, next) := Leave(h.lock);
      h.(lock := l, granted := if next.Some? then h.granted + [next.value] else h.granted, released := h.released + 1)
  }

  /** Threads that went on and have not unlocked. */
  function Holding<T>(h: History<T>): int {
    |h.granted| - h.released
  }

  /** Every unlock is by a thread that holds the lock. */
  predicate Balanced<T>(h: History<T>, es: seq<Event<T>>)
    decreases |es|
  {
    es == [] || ((es[0].Unlocks? ==> Holding(h) > 0) && Balanced(After(h, es[0]), es[1..]))
  }

  function AfterAll<T>(h: History<T>, es: seq<Event<T>>): History<T>
    decreases |es|
  {
    if es == [] then h else AfterAll(After(h, es[0]), es[1..])
  }

  predicate Fair<T(==)>(h: History<T>) {
    && h.arrived == h.granted + h.lock.waiting
    && Holding(h) == (if h.lock.locked then 1 else 0)
    && (h.lock.waiting != [] ==> h.lock.locked)
  }

  /** Over every balanced history the lock has at most one holder, nobody waits for a free lock, and threads go on in
      the order of their arrival. */
  lemma {:induction false} LockIsFair<T>(h: History<T>, es: seq<Event<T>>)
    requires Fair(h) && Balanced(h, es)
    ensures Fair(AfterAll(h, es))
    decreases |es|
  {
    if es == [] {
    } else {
      var h' := After(h, es[0]);
      if es[0].Locks? {
        assert h'.arrived == h'.granted + h'.lock.waiting;
      } else if h.lock.waiting != [] {
        assert h.granted + h.lock.waiting == h.granted + [h.lock.waiting[0]] + h.lock.waiting[1..];
      }
      assert Fair(h');
      LockIsFair(h', es[1..]);
    }
  }

  lemma FairFromTheStart<T>(es: seq<Event<T>>)
    requires Balanced(Begin(), es)
    ensures var h := AfterAll(Begin(), es);
            h.granted <= h.arrived && 0 <= Holding(h) <= 1 && (h.lock.waiting != [] ==> Holding(h) == 1)
  {
    LockIsFair(Begin(), es);
  }

  /** An unlock by a thread that does not hold the lock lets a second thread in beside the holder: at once if one is
      waiting, else when the next one arrives. A version-match recovery unlocks twice
      (kvstore/kv_store.cpp:659 and 705). */
  lemma StrayUnlockAdmitsASecond<T>(h: History<T>, t: T)
    requires Fair(h) && h.lock.locked
    ensures |After(After(h, Unlocks), Locks(t)).granted| - h.released == 2
  {
  }
}
