/** Replicated writes (kvstore/kv_store.cpp:378-452, 481-625): node 0 is the primary of the group, the others are
    secondaries, and requests from clients of any node interleave in any way. Each action below is what one handler
    does between two points where it may wait: for a lock (the fair lock of module OrderedLock) or for a reply.

    Checkpoints and eviction do not matter to the order of writes and are left to the other modules. Deletes of
    missing columns return without releasing the lock, as the source does. */
module Replication {
  import opened Memtable
  import NodeRuns
  import OrderedLock
  import StorageNode

  datatype Write = Put(key: Key, value: string) | CPut(key: Key, expected: string, value: string) | Delete(key: Key)

  type Table = map<Key, string>

  predicate Accepts(m: Table, w: Write) {
    match w
    case Put(_, _) => true
    case CPut(k, e, _) => k in m && m[k] == e
    case Delete(k) => k in m
  }

  function Apply(m: Table, w: Write): Table {
    match w
    case Put(k, v) => m[k := v]
    case CPut(k, e, v) => if k in m && m[k] == e then m[k := v] else m
    case Delete(k) => m - {k}
  }

  function TableOf(ws: seq<Write>): Table
    decreases |ws|
  {
    if ws == [] then map[] else Apply(TableOf(ws[..|ws| - 1]), ws[|ws| - 1])
  }

  // ---- Writes as requests ---------------------------------------------------------------------------

  /** The request of which the write is the replicated part. */
  function OpOf(w: Write): StorageNode.Op {
    match w
    case Put(k, v) => StorageNode.Put(k, v, [])
    case CPut(k, e, v) => StorageNode.CPut(k, e, v, [])
    case Delete(k) => StorageNode.Delete(k)
  }

  function OpsOf(ws: seq<Write>): (ops: seq<StorageNode.Op>)
    ensures |ops| == |ws| && forall i :: 0 <= i < |ws| ==> ops[i] == OpOf(ws[i])
  {
    seq(|ws|, i requires 0 <= i < |ws| => OpOf(ws[i]))
  }

  /** The plain map after the writes. */
  function MapAfter(ws: seq<Write>): map<Key, string> {
    NodeRuns.PlainRun(map[], OpsOf(ws)).0
  }

  /** A plain map carries out every one of the writes with success. */
  ghost predicate AllSucceed(ws: seq<Write>) {
    forall r <- NodeRuns.PlainRun(map[], OpsOf(ws)).1 :: r == StorageNode.Success
  }

  /** The primary's test and its write are those of a plain map. */
  lemma AcceptsIsSuccess(m: Table, w: Write)
    ensures Accepts(m, w) <==> StorageNode.PlainStep(m, OpOf(w)).1 == StorageNode.Success
    ensures Apply(m, w) == StorageNode.PlainStep(m, OpOf(w)).0
  {
  }

  lemma {:induction false} PlainRunAppend(m: Table, ops: seq<StorageNode.Op>, op: StorageNode.Op)
    ensures var (m1, rs) := NodeRuns.PlainRun(m, ops);
            var (m2, r) := StorageNode.PlainStep(m1, op);
            NodeRuns.PlainRun(m, ops + [op]) == (m2, rs + [r])
    decreases |ops|
  {
    hide StorageNode.PlainStep;
    if ops == [] {
      var (m', reply) := StorageNode.PlainStep(m, op);
      assert [] + [op] == [op] && [op][0] == op && [op][1..] == [];
      assert NodeRuns.PlainRun(m', []) == (m', []) && [reply] + [] == [reply] && [] + [reply] == [reply];
    } else {
      var (m', reply) := StorageNode.PlainStep(m, ops[0]);
      var rest := NodeRuns.PlainRun(m', ops[1..]);
      var last := StorageNode.PlainStep(rest.0, op).1;
      assert (ops + [op])[0] == ops[0] && (ops + [op])[1..] == ops[1..] + [op];
      PlainRunAppend(m', ops[1..], op);
      assert [reply] + (rest.1 + [last]) == ([reply] + rest.1) + [last];
    }
  }

  lemma {:induction false} TableIsMap(ws: seq<Write>)
    ensures TableOf(ws) == MapAfter(ws)
    ensures AllAccepted(ws) <==> AllSucceed(ws)
    decreases |ws|
  {
    hide Accepts; hide Apply; hide StorageNode.PlainStep;
    if ws == [] {
    } else {
      var before, w := ws[..|ws| - 1], ws[|ws| - 1];
      TableIsMap(before);
      AcceptsIsSuccess(TableOf(before), w);
      PlainRunAppend(map[], OpsOf(before), OpOf(w));
      assert OpsOf(ws) == OpsOf(before) + [OpOf(w)];
      assert before + [w] == ws;
      if Accepts(TableOf(before), w) && AllAccepted(before) { AcceptedMore(before, w); }
      if AllAccepted(ws) {
        PrefixAccepted(ws, before);
        assert Accepts(TableOf(ws[..|ws| - 1]), ws[|ws| - 1]);
      }
      LastReply(NodeRuns.PlainRun(map[], OpsOf(before)).1, StorageNode.PlainStep(TableOf(before), OpOf(w)).1);
    }
  }

  lemma LastReply(rs: seq<StorageNode.Reply>, r: StorageNode.Reply)
    ensures (forall x <- rs + [r] :: x == StorageNode.Success)
            <==> (forall x <- rs :: x == StorageNode.Success) && r == StorageNode.Success
  {
    assert r in rs + [r];
    assert forall x :: x in rs ==> x in rs + [r];
  }

  // ---- State ----------------------------------------------------------------------------------------

  /** A handler that has asked for a node's lock: for a client, for the primary's push, for a secondary's forward. */
  datatype Task = Client(write: Write) | Push(write: Write) | Forward(source: nat, write: Write)

  /** Where the handler that holds the lock is. `Pushing(j, sent)`: the primary has pushed to the replicas before `j`
      and, if `sent`, waits for replica `j`. `Stuck`: it has returned and kept the lock. */
  datatype Phase = Entered | Waiting | Replied(ok: bool) | Pushing(next: nat, sent: bool) | Stuck

  datatype Holder = Free | Held(task: Task, phase: Phase)

  datatype Node = Node(applied: seq<Write>, holder: Holder, queue: seq<Task>)

  type Cluster = seq<Node>

  datatype Action =
    | ClientArrives(node: nat, write: Write)
    | SecondaryForwards(node: nat)
    | PrimaryDecides
    | PrimaryPushes
    | ReplicaApplies(node: nat)
    | PrimaryReplies
    | SecondaryFinishes(node: nat)

  /** `all_lock.lock()` by a new handler. */
  function Lock(n: Node, t: Task): Node {
    var (l, goesOn) := OrderedLock.Arrive(OrderedLock.Lock(n.holder.Held?, n.queue), t);
    if goesOn then n.(holder := Held(t, Entered)) else n.(queue := l.waiting)
  }

  /** `all_lock.unlock()` by the handler that holds it. */
  function Unlock(n: Node): Node {
    var (l, next) := OrderedLock.Leave(OrderedLock.Lock(true, n.queue));
    n.(queue := l.waiting, holder := if next.Some? then Held(next.value, Entered) else Free)
  }

  function WithPhase(n: Node, p: Phase): Node
    requires n.holder.Held?
  {
    n.(holder := Held(n.holder.task, p))
  }

  predicate Enabled(c: Cluster, a: Action) {
    |c| > 0
    && match a
       case ClientArrives(i, _) => i < |c|
       case SecondaryForwards(i) => 0 < i < |c| && c[i].holder.Held? && c[i].holder.task.Client? && c[i].holder.phase == Entered
       case PrimaryDecides => c[0].holder.Held? && c[0].holder.phase == Entered
       case PrimaryPushes =>
         c[0].holder.Held? && c[0].holder.phase.Pushing? && !c[0].holder.phase.sent && c[0].holder.phase.next < |c|
       case ReplicaApplies(i) => 0 < i < |c| && c[i].holder.Held? && c[i].holder.task.Push? && c[i].holder.phase == Entered
       case PrimaryReplies =>
         c[0].holder.Held? && c[0].holder.phase.Pushing? && !c[0].holder.phase.sent && c[0].holder.phase.next >= |c|
       case SecondaryFinishes(i) => 0 < i < |c| && c[i].holder.Held? && c[i].holder.task.Client? && c[i].holder.phase.Replied?
  }

  /** The primary's answer reaches the secondary that forwarded the request, if one did. */
  function Answer(c: Cluster, t: Task, ok: bool): Cluster {
    if t.Forward? && 0 < t.source < |c| && c[t.source].holder.Held?
    then c[t.source := WithPhase(c[t.source], Replied(ok))]
    else c
  }

  /** Reject without a trace; a delete keeps the lock (kvstore/kv_store.cpp:489-492, 510-516). */
  function Reject(n: Node, w: Write): Node
    requires n.holder.Held?
  {
    if w.Delete? then WithPhase(n, Stuck) else Unlock(n)
  }

  function Next(c: Cluster, a: Action): Cluster
    requires Enabled(c, a)
  {
    match a
    case ClientArrives(i, w) => c[i := Lock(c[i], Client(w))]
    case SecondaryForwards(i) =>
      c[i := WithPhase(c[i], Waiting)][0 := Lock(c[0], Forward(i, c[i].holder.task.write))]
    case PrimaryDecides =>
      var t := c[0].holder.task;
      if Accepts(TableOf(c[0].applied), t.write) then
        c[0 := WithPhase(c[0], Pushing(1, false)).(applied := c[0].applied + [t.write])]
      else
        Answer(c[0 := Reject(c[0], t.write)], t, false)
    case PrimaryPushes =>
      var t, j := c[0].holder.task, c[0].holder.phase.next;
      if t.Forward? && t.source == j then c[0 := WithPhase(c[0], Pushing(j + 1, false))]
      else c[j := Lock(c[j], Push(t.write))][0 := WithPhase(c[0], Pushing(j, true))]
    case ReplicaApplies(i) =>
      var c' := c[i := Unlock(c[i].(applied := c[i].applied + [c[i].holder.task.write]))];
      if c[0].holder.Held? then c'[0 := WithPhase(c[0], Pushing(i + 1, false))] else c'
    case PrimaryReplies => Answer(c[0 := Unlock(c[0])], c[0].holder.task, true)
    case SecondaryFinishes(i) =>
      var w := c[i].holder.task.write;
      if c[i].holder.phase.ok then c[i := Unlock(c[i].(applied := c[i].applied + [w]))]
      else c[i := Reject(c[i], w)]
  }

  ghost predicate Run(c: Cluster, actions: seq<Action>)
    decreases |actions|
  {
    actions == [] || (Enabled(c, actions[0]) && Run(Next(c, actions[0]), actions[1..]))
  }

  function AfterRun(c: Cluster, actions: seq<Action>): Cluster
    requires Run(c, actions)
    decreases |actions|
  {
    if actions == [] then c else AfterRun(Next(c, actions[0]), actions[1..])
  }

  predicate Initial(c: Cluster) {
    |c| > 0 && forall n <- c :: n == Node([], Free, [])
  }

  // ---- Invariant ------------------------------------------------------------------------------------

  /** The handlers of a node that have not returned, in the order in which they get the lock. */
  function Active(n: Node): seq<Task> {
    (if n.holder.Held? && n.holder.phase != Stuck then [n.holder.task] else []) + n.queue
  }

  predicate IsCarrying(p: Node) {
    p.holder.Held? && p.holder.phase.Pushing?
  }

  /** The primary has applied a forward of node `i` and is pushing it on. */
  predicate CarriedFor(c: Cluster, i: nat)
    requires |c| > 0
  {
    IsCarrying(c[0]) && c[0].holder.task.Forward? && c[0].holder.task.source == i
  }

  /** A write of node `i`'s own client that the primary has applied and the node has not. */
  function OwnPending(c: Cluster, i: nat): seq<Write>
    requires 0 < i < |c|
  {
    if c[i].holder.Held? && c[i].holder.task.Client?
       && (c[i].holder.phase == Replied(true) || (c[i].holder.phase == Waiting && CarriedFor(c, i)))
    then [c[i].holder.task.write] else []
  }

  /** A write that the primary has applied and is still to push to node `i`. */
  function PushPending(c: Cluster, i: nat): seq<Write>
    requires 0 < i < |c|
  {
    if IsCarrying(c[0]) && c[0].holder.phase.next <= i && !CarriedFor(c, i) then [c[0].holder.task.write] else []
  }

  function Pending(c: Cluster, i: nat): seq<Write>
    requires 0 < i < |c|
  {
    OwnPending(c, i) + PushPending(c, i)
  }

  /** A free lock has no queue, and a handler is in a phase of its kind. */
  predicate NodeOk(n: Node, primary: bool) {
    && (n.holder.Free? ==> n.queue == [])
    && (n.holder.Held? ==>
          if primary then n.holder.phase == Entered || n.holder.phase.Pushing? || n.holder.phase == Stuck
          else if n.holder.task.Client? then !n.holder.phase.Pushing?
          else n.holder.phase == Entered)
  }

  ghost predicate NodesOk(c: Cluster) {
    forall i :: 0 <= i < |c| ==> NodeOk(c[i], i == 0)
  }

  /** A forward at the primary is for a secondary that holds its own lock and waits for the answer. */
  predicate TaskAtPrimary(c: Cluster, t: Task) {
    t.Client? || (t.Forward? && 0 < t.source < |c| && c[t.source].holder == Held(Client(t.write), Waiting))
  }

  ghost predicate ForwardsOk(c: Cluster)
    requires |c| > 0
  {
    && (forall a :: 0 <= a < |Active(c[0])| ==> TaskAtPrimary(c, Active(c[0])[a]))
    && (forall a, b :: 0 <= a < b < |Active(c[0])| && Active(c[0])[a].Forward? && Active(c[0])[b].Forward? ==>
          Active(c[0])[a].source != Active(c[0])[b].source)
  }

  /** A push at a replica is the one the primary is waiting for. */
  predicate TaskAtReplica(c: Cluster, j: nat, t: Task)
    requires |c| > 0
  {
    t.Client? || (t.Push? && IsCarrying(c[0]) && c[0].holder.phase == Pushing(j, true) && c[0].holder.task.write == t.write)
  }

  ghost predicate PushesAt(c: Cluster, j: nat)
    requires 0 < j < |c|
  {
    && (forall a :: 0 <= a < |Active(c[j])| ==> TaskAtReplica(c, j, Active(c[j])[a]))
    && (forall a, b :: 0 <= a < b < |Active(c[j])| ==> !(Active(c[j])[a].Push? && Active(c[j])[b].Push?))
  }

  ghost predicate PushesOk(c: Cluster)
    requires |c| > 0
  {
    && (forall j :: 0 < j < |c| ==> PushesAt(c, j))
    && (IsCarrying(c[0]) ==>
          1 <= c[0].holder.phase.next <= |c| && (c[0].holder.phase.sent ==> !CarriedFor(c, c[0].holder.phase.next)))
  }

  /** Each secondary lacks what is pending for it, in that order. */
  ghost predicate Prefixes(c: Cluster)
    requires |c| > 0
  {
    forall i :: 0 < i < |c| ==> c[0].applied == c[i].applied + Pending(c, i)
  }

  /** A replica that has been pushed to has no write of its own client outstanding. */
  ghost predicate PushedAreCaughtUp(c: Cluster)
    requires |c| > 0
  {
    IsCarrying(c[0]) ==>
      forall i :: 0 < i < |c| && i < c[0].holder.phase.next && !CarriedFor(c, i) ==> OwnPending(c, i) == []
  }

  /** The primary accepted every write it applied. */
  ghost predicate AllAccepted(ws: seq<Write>) {
    forall k :: 0 <= k < |ws| ==> Accepts(TableOf(ws[..k]), ws[k])
  }

  ghost predicate Inv(c: Cluster) {
    && |c| > 0
    && NodesOk(c) && ForwardsOk(c) && PushesOk(c)
    && Prefixes(c) && PushedAreCaughtUp(c) && AllAccepted(c[0].applied)
  }

  // ---- The lock, seen as a sequence of handlers -----------------------------------------------------

  lemma LockQueues(n: Node, t: Task, primary: bool)
    requires NodeOk(n, primary) && (primary ==> !t.Push?) && (!primary ==> !t.Forward?)
    ensures var n' := Lock(n, t);
            Active(n') == Active(n) + [t] && NodeOk(n', primary) && n'.applied == n.applied
            && (n.holder.Held? ==> n'.holder == n.holder)
            && (n.holder.Free? ==> n'.holder == Held(t, Entered))
  {
  }

  lemma UnlockAdvances(n: Node, primary: bool)
    requires NodeOk(n, primary) && n.holder.Held? && n.holder.phase != Stuck
    requires forall a :: 0 <= a < |n.queue| ==> (primary ==> !n.queue[a].Push?) && (!primary ==> !n.queue[a].Forward?)
    ensures var n' := Unlock(n);
            Active(n') == Active(n)[1..] && NodeOk(n', primary) && n'.applied == n.applied
            && (n'.holder.Held? ==> n'.holder.phase == Entered)
  {
  }

  lemma RejectAdvances(n: Node, w: Write, primary: bool)
    requires NodeOk(n, primary) && n.holder.Held? && n.holder.phase != Stuck && (!primary ==> n.holder.task.Client?)
    requires forall a :: 0 <= a < |n.queue| ==> (primary ==> !n.queue[a].Push?) && (!primary ==> !n.queue[a].Forward?)
    ensures var n' := Reject(n, w);
            Active(n') == Active(n)[1..] && NodeOk(n', primary) && n'.applied == n.applied
            && (n'.holder.Held? ==> n'.holder.phase == Entered || n'.holder.phase == Stuck)
  {
    UnlockAdvances(n, primary);
  }

  lemma HeadIsHolder(n: Node)
    ensures n.holder.Held? && n.holder.phase != Stuck ==>
              |Active(n)| > 0 && Active(n)[0] == n.holder.task && Active(n)[1..] == n.queue
  {
  }

  /** What waits at a node is of the node's kind. */
  lemma QueueKinds(c: Cluster, i: nat)
    requires Inv(c) && i < |c|
    ensures forall a :: 0 <= a < |c[i].queue| ==> (i == 0 ==> !c[i].queue[a].Push?) && (i > 0 ==> !c[i].queue[a].Forward?)
  {
    hide AllAccepted; hide Prefixes; hide PushedAreCaughtUp; hide NodesOk;
    var d := |Active(c[i])| - |c[i].queue|;
    forall a | 0 <= a < |c[i].queue| ensures Active(c[i])[a + d] == c[i].queue[a] {
    }
    if i > 0 { assert PushesAt(c, i); }
  }

  // ---- Each action keeps the invariant --------------------------------------------------------------

  lemma ClientArrivesShape(c: Cluster, i: nat, w: Write)
    requires Inv(c) && i < |c|
    ensures var c' := Next(c, ClientArrives(i, w));
            |c'| == |c| && NodesOk(c') && ForwardsOk(c') && PushesOk(c')
  {
    hide AllAccepted; hide Prefixes; hide PushedAreCaughtUp; hide Lock;
    LockQueues(c[i], Client(w), i == 0);
    var c' := Next(c, ClientArrives(i, w));
    forall j | 0 < j < |c| ensures PushesAt(c', j) {
      assert PushesAt(c, j);
    }
  }

  lemma ClientArrivesData(c: Cluster, i: nat, w: Write)
    requires Inv(c) && i < |c|
    ensures var c' := Next(c, ClientArrives(i, w));
            Prefixes(c') && PushedAreCaughtUp(c') && AllAccepted(c'[0].applied)
  {
    hide AllAccepted; hide ForwardsOk; hide PushesOk; hide Lock;
    LockQueues(c[i], Client(w), i == 0);
    var c' := Next(c, ClientArrives(i, w));
    forall j | 0 < j < |c| ensures Pending(c', j) == Pending(c, j) && OwnPending(c', j) == OwnPending(c, j) {
    }
  }

  lemma SecondaryForwardsShape(c: Cluster, i: nat)
    requires Inv(c) && Enabled(c, SecondaryForwards(i))
    ensures var c' := Next(c, SecondaryForwards(i));
            |c'| == |c| && NodesOk(c') && ForwardsOk(c') && PushesOk(c')
  {
    hide AllAccepted; hide Prefixes; hide PushedAreCaughtUp; hide Lock;
    LockQueues(c[0], Forward(i, c[i].holder.task.write), true);
    var c' := Next(c, SecondaryForwards(i));
    assert Active(c'[i]) == Active(c[i]);
    forall j | 0 < j < |c| ensures PushesAt(c', j) {
      assert PushesAt(c, j);
    }
  }

  /** The forward is in the primary's line; the secondary waits, and nothing is carried for it. */
  lemma ForwardChanges(c: Cluster, i: nat)
    requires Inv(c) && Enabled(c, SecondaryForwards(i))
    ensures var c' := Next(c, SecondaryForwards(i));
            && |c'| == |c| && c'[i] == WithPhase(c[i], Waiting) && c'[0].applied == c[0].applied
            && (forall j :: 0 < j < |c| && j != i ==> c'[j] == c[j])
            && (IsCarrying(c'[0]) <==> IsCarrying(c[0])) && (IsCarrying(c[0]) ==> c'[0].holder == c[0].holder)
            && !CarriedFor(c, i)
  {
    hide AllAccepted; hide PushesOk; hide Lock; hide Prefixes; hide PushedAreCaughtUp;
    LockQueues(c[0], Forward(i, c[i].holder.task.write), true);
    HeadIsHolder(c[0]);
    assert IsCarrying(c[0]) ==> TaskAtPrimary(c, Active(c[0])[0]);
  }

  lemma ForwardSame(c: Cluster, c': Cluster, i: nat, j: nat)
    requires |c'| == |c| && 0 < i < |c| && 0 < j < |c| && Enabled(c, SecondaryForwards(i))
    requires c'[i] == WithPhase(c[i], Waiting) && (j != i ==> c'[j] == c[j]) && !CarriedFor(c, i)
    requires (IsCarrying(c'[0]) <==> IsCarrying(c[0])) && (IsCarrying(c[0]) ==> c'[0].holder == c[0].holder)
    ensures SameFor(c, c', j) && (CarriedFor(c', j) <==> CarriedFor(c, j))
  {
  }

  lemma SecondaryForwardsData(c: Cluster, i: nat)
    requires Inv(c) && Enabled(c, SecondaryForwards(i))
    ensures var c' := Next(c, SecondaryForwards(i));
            Prefixes(c') && PushedAreCaughtUp(c') && AllAccepted(c'[0].applied)
  {
    hide AllAccepted; hide PushesOk; hide Next; hide OwnPending; hide PushPending;
    var c' := Next(c, SecondaryForwards(i));
    ForwardChanges(c, i);
    forall j | 0 < j < |c| ensures c'[0].applied == c'[j].applied + Pending(c', j) {
      ForwardSame(c, c', i, j);
      assert c[0].applied == c[j].applied + Pending(c, j);
    }
    if IsCarrying(c'[0]) {
      forall j | 0 < j < |c| && j < c'[0].holder.phase.next && !CarriedFor(c', j) ensures OwnPending(c', j) == [] {
        ForwardSame(c, c', i, j);
      }
    }
  }

  predicate Accepting(c: Cluster)
    requires Enabled(c, PrimaryDecides)
  {
    Accepts(TableOf(c[0].applied), c[0].holder.task.write)
  }

  lemma PrimaryAcceptsShape(c: Cluster)
    requires Inv(c) && Enabled(c, PrimaryDecides) && Accepting(c)
    ensures var c' := Next(c, PrimaryDecides);
            |c'| == |c| && NodesOk(c') && ForwardsOk(c') && PushesOk(c')
  {
    hide AllAccepted; hide Prefixes; hide PushedAreCaughtUp; hide TableOf; hide Accepts;
    var c' := Next(c, PrimaryDecides);
    assert Active(c'[0]) == Active(c[0]);
    forall j | 0 < j < |c| ensures PushesAt(c', j) {
      assert PushesAt(c, j);
    }
  }

  lemma PrimaryAcceptsData(c: Cluster)
    requires Inv(c) && Enabled(c, PrimaryDecides) && Accepting(c)
    ensures var c' := Next(c, PrimaryDecides);
            Prefixes(c') && PushedAreCaughtUp(c') && AllAccepted(c'[0].applied)
  {
    hide PushesOk; hide NodesOk; hide TableOf; hide Accepts; hide AllAccepted;
    var c', w := Next(c, PrimaryDecides), c[0].holder.task.write;
    HeadIsHolder(c[0]);
    assert TaskAtPrimary(c, Active(c[0])[0]);
    forall j | 0 < j < |c| ensures Pending(c', j) == Pending(c, j) + [w] {
    }
    AcceptedMore(c[0].applied, w);
  }

  lemma AcceptedMore(ws: seq<Write>, w: Write)
    requires AllAccepted(ws) && Accepts(TableOf(ws), w)
    ensures AllAccepted(ws + [w])
  {
    forall k | 0 <= k < |ws + [w]| ensures Accepts(TableOf((ws + [w])[..k]), (ws + [w])[k]) {
      assert (ws + [w])[..k] == ws[..k];
      assert ws[..|ws|] == ws;
    }
  }

  lemma PrimaryRejectsShape(c: Cluster)
    requires Inv(c) && Enabled(c, PrimaryDecides) && !Accepting(c)
    ensures var c' := Next(c, PrimaryDecides);
            |c'| == |c| && NodesOk(c') && ForwardsOk(c') && PushesOk(c')
  {
    hide AllAccepted; hide Prefixes; hide PushedAreCaughtUp; hide TableOf; hide Accepts; hide Reject;
    var c', t := Next(c, PrimaryDecides), c[0].holder.task;
    QueueKinds(c, 0);
    RejectAdvances(c[0], t.write, true);
    HeadIsHolder(c[0]);
    assert TaskAtPrimary(c, Active(c[0])[0]);
    forall a | 0 <= a < |Active(c'[0])| ensures TaskAtPrimary(c', Active(c'[0])[a]) {
      assert TaskAtPrimary(c, Active(c[0])[a + 1]);
    }
    forall j | 0 < j < |c| ensures PushesAt(c', j) {
      assert PushesAt(c, j);
      assert Active(c'[j]) == Active(c[j]);
    }
  }

  lemma PrimaryRejectsData(c: Cluster)
    requires Inv(c) && Enabled(c, PrimaryDecides) && !Accepting(c)
    ensures var c' := Next(c, PrimaryDecides);
            Prefixes(c') && PushedAreCaughtUp(c') && AllAccepted(c'[0].applied)
  {
    hide AllAccepted; hide PushesOk; hide TableOf; hide Accepts; hide Reject;
    var c', t := Next(c, PrimaryDecides), c[0].holder.task;
    QueueKinds(c, 0);
    RejectAdvances(c[0], t.write, true);
    HeadIsHolder(c[0]);
    assert TaskAtPrimary(c, Active(c[0])[0]);
    forall j | 0 < j < |c| ensures Pending(c', j) == Pending(c, j) {
    }
  }

  lemma PrimaryPushesShape(c: Cluster)
    requires Inv(c) && Enabled(c, PrimaryPushes)
    ensures var c' := Next(c, PrimaryPushes);
            |c'| == |c| && NodesOk(c') && ForwardsOk(c') && PushesOk(c')
  {
    hide AllAccepted; hide Prefixes; hide PushedAreCaughtUp; hide Lock;
    var c', t, n := Next(c, PrimaryPushes), c[0].holder.task, c[0].holder.phase.next;
    LockQueues(c[n], Push(t.write), false);
    assert Active(c'[0]) == Active(c[0]);
    forall j | 0 < j < |c| ensures PushesAt(c', j) {
      assert PushesAt(c, j);
      assert forall a :: 0 <= a < |Active(c[j])| ==> Active(c[j])[a].Client?;
    }
  }

  /** Nothing that is pending for node `j` changes. */
  predicate SameFor(c: Cluster, c': Cluster, j: nat)
    requires |c'| == |c| && 0 < j < |c|
  {
    c'[j].applied == c[j].applied && Pending(c', j) == Pending(c, j) && OwnPending(c', j) == OwnPending(c, j)
  }

  /** No further replica counts as pushed to. */
  ghost predicate NoFurther(c: Cluster, c': Cluster)
    requires |c'| == |c| > 0
  {
    IsCarrying(c'[0]) ==>
      IsCarrying(c[0])
      && forall i :: 0 < i < |c| && i < c'[0].holder.phase.next && !CarriedFor(c', i) ==>
           i < c[0].holder.phase.next && !CarriedFor(c, i)
  }

  lemma DataKept(c: Cluster, c': Cluster)
    requires |c'| == |c| > 0 && c'[0].applied == c[0].applied && NoFurther(c, c')
    requires forall j :: 0 < j < |c| ==> SameFor(c, c', j)
    requires Prefixes(c) && PushedAreCaughtUp(c) && AllAccepted(c[0].applied)
    ensures Prefixes(c') && PushedAreCaughtUp(c') && AllAccepted(c'[0].applied)
  {
    hide Pending; hide OwnPending; hide AllAccepted; hide CarriedFor;
    forall j | 0 < j < |c| ensures c'[0].applied == c'[j].applied + Pending(c', j) {
      assert SameFor(c, c', j);
    }
    if IsCarrying(c'[0]) {
      forall j | 0 < j < |c| && j < c'[0].holder.phase.next && !CarriedFor(c', j) ensures OwnPending(c', j) == [] {
        assert SameFor(c, c', j);
      }
    }
  }

  lemma PrimaryPushesData(c: Cluster)
    requires Inv(c) && Enabled(c, PrimaryPushes)
    ensures var c' := Next(c, PrimaryPushes);
            Prefixes(c') && PushedAreCaughtUp(c') && AllAccepted(c'[0].applied)
  {
    hide AllAccepted; hide ForwardsOk; hide NodesOk; hide PushesOk; hide Prefixes; hide PushedAreCaughtUp; hide Lock;
    hide SameFor;
    var c' := Next(c, PrimaryPushes);
    forall j | 0 < j < |c| ensures SameFor(c, c', j) {
      PushSame(c, j);
    }
    PushNoFurther(c);
    DataKept(c, c');
  }

  lemma PushSame(c: Cluster, j: nat)
    requires Inv(c) && Enabled(c, PrimaryPushes) && 0 < j < |c|
    ensures SameFor(c, Next(c, PrimaryPushes), j)
  {
    hide AllAccepted; hide ForwardsOk; hide Prefixes; hide PushedAreCaughtUp; hide Lock;
    var t, n := c[0].holder.task, c[0].holder.phase.next;
    assert PushesOk(c) && NodeOk(c[n], false);
    LockQueues(c[n], Push(t.write), false);
  }

  lemma PushNoFurther(c: Cluster)
    requires Inv(c) && Enabled(c, PrimaryPushes)
    ensures NoFurther(c, Next(c, PrimaryPushes))
  {
    hide AllAccepted; hide ForwardsOk; hide NodesOk; hide Prefixes; hide PushedAreCaughtUp; hide Lock;
  }

  lemma ReplicaAppliesShape(c: Cluster, i: nat)
    requires Inv(c) && Enabled(c, ReplicaApplies(i))
    ensures var c' := Next(c, ReplicaApplies(i));
            |c'| == |c| && NodesOk(c') && ForwardsOk(c') && PushesOk(c')
  {
    hide AllAccepted; hide Prefixes; hide PushedAreCaughtUp; hide Unlock;
    var c', w := Next(c, ReplicaApplies(i)), c[i].holder.task.write;
    QueueKinds(c, i);
    HeadIsHolder(c[i]);
    assert PushesAt(c, i) && TaskAtReplica(c, i, Active(c[i])[0]);
    var n := c[i].(applied := c[i].applied + [w]);
    assert Active(n) == Active(c[i]);
    UnlockAdvances(n, false);
    assert Active(c'[0]) == Active(c[0]);
    forall j | 0 < j < |c| ensures PushesAt(c', j) {
      assert PushesAt(c, j);
      assert j != i ==> forall a :: 0 <= a < |Active(c[j])| ==> Active(c[j])[a].Client?;
    }
  }

  lemma ReplicaCatchesUp(c: Cluster, i: nat)
    requires Inv(c) && Enabled(c, ReplicaApplies(i))
    ensures var c', w := Next(c, ReplicaApplies(i)), c[i].holder.task.write;
            && c[0].holder.Held? && c[0].holder.phase == Pushing(i, true)
            && c' == c[i := c'[i]][0 := WithPhase(c[0], Pushing(i + 1, false))]
            && c'[i].applied == c[i].applied + [w]
            && Pending(c, i) == [w] && OwnPending(c', i) == [] && PushPending(c', i) == []
  {
    hide AllAccepted; hide ForwardsOk; hide Unlock; hide Prefixes; hide PushedAreCaughtUp;
    QueueKinds(c, i);
    HeadIsHolder(c[i]);
    assert PushesAt(c, i) && TaskAtReplica(c, i, Active(c[i])[0]);
    UnlockAdvances(c[i].(applied := c[i].applied + [c[i].holder.task.write]), false);
  }

  lemma ReplicaAppliesData(c: Cluster, i: nat)
    requires Inv(c) && Enabled(c, ReplicaApplies(i))
    ensures var c' := Next(c, ReplicaApplies(i));
            Prefixes(c') && PushedAreCaughtUp(c') && AllAccepted(c'[0].applied)
  {
    hide AllAccepted; hide ForwardsOk; hide Next; hide NodesOk; hide PushesOk; hide OwnPending; hide PushPending;
    var c' := Next(c, ReplicaApplies(i));
    ReplicaCatchesUp(c, i);
    forall j | 0 < j < |c| ensures c'[0].applied == c'[j].applied + Pending(c', j) {
      assert c[0].applied == c[j].applied + Pending(c, j);
      if j != i { OneFurther(c, c', i, j); }
    }
    forall j | 0 < j < |c| && j < i + 1 && !CarriedFor(c', j) ensures OwnPending(c', j) == [] {
      if j != i { OneFurther(c, c', i, j); }
    }
  }

  /** The primary going on from replica `i` changes nothing for the others. */
  lemma OneFurther(c: Cluster, c': Cluster, i: nat, j: nat)
    requires |c'| == |c| && 0 < i < |c| && 0 < j < |c| && j != i && c'[j] == c[j]
    requires c[0].holder.Held? && c[0].holder.phase == Pushing(i, true)
    requires c'[0] == WithPhase(c[0], Pushing(i + 1, false))
    ensures SameFor(c, c', j) && (CarriedFor(c', j) <==> CarriedFor(c, j))
  {
  }

  lemma PrimaryRepliesShape(c: Cluster)
    requires Inv(c) && Enabled(c, PrimaryReplies)
    ensures var c' := Next(c, PrimaryReplies);
            |c'| == |c| && NodesOk(c') && ForwardsOk(c') && PushesOk(c')
  {
    hide AllAccepted; hide Prefixes; hide PushedAreCaughtUp; hide Unlock;
    var c', t := Next(c, PrimaryReplies), c[0].holder.task;
    QueueKinds(c, 0);
    UnlockAdvances(c[0], true);
    HeadIsHolder(c[0]);
    assert TaskAtPrimary(c, Active(c[0])[0]);
    forall a | 0 <= a < |Active(c'[0])| ensures TaskAtPrimary(c', Active(c'[0])[a]) {
      assert TaskAtPrimary(c, Active(c[0])[a + 1]);
    }
    forall j | 0 < j < |c| ensures PushesAt(c', j) {
      assert PushesAt(c, j);
      assert Active(c'[j]) == Active(c[j]);
    }
  }

  lemma PrimaryRepliesData(c: Cluster)
    requires Inv(c) && Enabled(c, PrimaryReplies)
    ensures var c' := Next(c, PrimaryReplies);
            Prefixes(c') && PushedAreCaughtUp(c') && AllAccepted(c'[0].applied)
  {
    hide AllAccepted; hide Unlock;
    var c', t := Next(c, PrimaryReplies), c[0].holder.task;
    QueueKinds(c, 0);
    UnlockAdvances(c[0], true);
    HeadIsHolder(c[0]);
    assert TaskAtPrimary(c, Active(c[0])[0]);
    forall j | 0 < j < |c| ensures Pending(c', j) == Pending(c, j) {
    }
  }

  lemma SecondaryFinishesShape(c: Cluster, i: nat)
    requires Inv(c) && Enabled(c, SecondaryFinishes(i))
    ensures var c' := Next(c, SecondaryFinishes(i));
            |c'| == |c| && NodesOk(c') && ForwardsOk(c') && PushesOk(c')
  {
    hide AllAccepted; hide Prefixes; hide PushedAreCaughtUp; hide Next; hide Active;
    var c' := Next(c, SecondaryFinishes(i));
    FinishTouchesOne(c, i);
    FinishAdvances(c, i);
    forall a | 0 <= a < |Active(c'[0])| ensures TaskAtPrimary(c', Active(c'[0])[a]) {
      assert TaskAtPrimary(c, Active(c[0])[a]);
    }
    forall j | 0 < j < |c| ensures PushesAt(c', j) {
      assert PushesAt(c, j);
    }
  }

  lemma FinishAdvances(c: Cluster, i: nat)
    requires Inv(c) && Enabled(c, SecondaryFinishes(i))
    ensures var c' := Next(c, SecondaryFinishes(i));
            Active(c[i]) != [] && Active(c'[i]) == Active(c[i])[1..] && NodeOk(c'[i], false)
  {
    hide AllAccepted; hide Prefixes; hide PushedAreCaughtUp; hide Unlock; hide Reject; hide ForwardsOk; hide PushesOk;
    var w := c[i].holder.task.write;
    QueueKinds(c, i);
    HeadIsHolder(c[i]);
    var n := c[i].(applied := c[i].applied + [w]);
    assert Active(n) == Active(c[i]);
    UnlockAdvances(n, false);
    RejectAdvances(c[i], w, false);
  }

  lemma SecondaryFinishesData(c: Cluster, i: nat)
    requires Inv(c) && Enabled(c, SecondaryFinishes(i))
    ensures var c' := Next(c, SecondaryFinishes(i));
            Prefixes(c') && PushedAreCaughtUp(c') && AllAccepted(c'[0].applied)
  {
    hide AllAccepted; hide ForwardsOk; hide PushesOk; hide NodesOk; hide Next; hide OwnPending; hide PushPending;
    var c' := Next(c, SecondaryFinishes(i));
    SecondaryCatchesUp(c, i);
    FinishTouchesOne(c, i);
    forall j | 0 < j < |c| ensures c'[0].applied == c'[j].applied + Pending(c', j) {
      assert c[0].applied == c[j].applied + Pending(c, j);
      if j != i { SameNodes(c, c', j); }
    }
    if IsCarrying(c'[0]) {
      forall j | 0 < j < |c| && j < c'[0].holder.phase.next && !CarriedFor(c', j) ensures OwnPending(c', j) == [] {
        if j != i { SameNodes(c, c', j); }
      }
    }
  }

  lemma FinishTouchesOne(c: Cluster, i: nat)
    requires Enabled(c, SecondaryFinishes(i))
    ensures var c' := Next(c, SecondaryFinishes(i)); |c'| == |c| && forall j :: 0 <= j < |c| && j != i ==> c'[j] == c[j]
  {
    hide Unlock; hide Reject;
  }

  /** What is pending for a node depends on it and the primary only. */
  lemma SameNodes(c: Cluster, c': Cluster, j: nat)
    requires |c'| == |c| && 0 < j < |c| && c'[0] == c[0] && c'[j] == c[j]
    ensures SameFor(c, c', j)
  {
  }

  lemma SecondaryCatchesUp(c: Cluster, i: nat)
    requires Inv(c) && Enabled(c, SecondaryFinishes(i))
    ensures var c', w, ok := Next(c, SecondaryFinishes(i)), c[i].holder.task.write, c[i].holder.phase.ok;
            && OwnPending(c, i) == (if ok then [w] else []) && OwnPending(c', i) == []
            && PushPending(c', i) == PushPending(c, i)
            && c'[i].applied == c[i].applied + (if ok then [w] else [])
  {
    hide AllAccepted; hide ForwardsOk; hide PushesOk; hide Unlock; hide Reject; hide Prefixes; hide PushedAreCaughtUp;
    var w := c[i].holder.task.write;
    QueueKinds(c, i);
    UnlockAdvances(c[i].(applied := c[i].applied + [w]), false);
    RejectAdvances(c[i], w, false);
  }

  lemma NextKeeps(c: Cluster, a: Action)
    requires Inv(c) && Enabled(c, a)
    ensures Inv(Next(c, a))
  {
    hide NodesOk; hide ForwardsOk; hide PushesOk; hide Prefixes; hide PushedAreCaughtUp; hide AllAccepted; hide Next;
    match a
    case ClientArrives(i, w) => ClientArrivesShape(c, i, w); ClientArrivesData(c, i, w);
    case SecondaryForwards(i) => SecondaryForwardsShape(c, i); SecondaryForwardsData(c, i);
    case PrimaryDecides =>
      if Accepting(c) {
        PrimaryAcceptsShape(c);
        PrimaryAcceptsData(c);
      } else {
        PrimaryRejectsShape(c);
        PrimaryRejectsData(c);
      }
    case PrimaryPushes => PrimaryPushesShape(c); PrimaryPushesData(c);
    case ReplicaApplies(i) => ReplicaAppliesShape(c, i); ReplicaAppliesData(c, i);
    case PrimaryReplies => PrimaryRepliesShape(c); PrimaryRepliesData(c);
    case SecondaryFinishes(i) => SecondaryFinishesShape(c, i); SecondaryFinishesData(c, i);
  }

  lemma InitialInv(c: Cluster)
    requires Initial(c)
    ensures Inv(c) && AckedIsEverywhere(c)
  {
    hide NodesOk; hide ForwardsOk; hide PushesOk;
    InitialShape(c);
    assert forall i :: 0 <= i < |c| ==> c[i] in c;
  }

  lemma InitialShape(c: Cluster)
    requires Initial(c)
    ensures NodesOk(c) && ForwardsOk(c) && PushesOk(c)
  {
    assert forall i :: 0 <= i < |c| ==> c[i] in c;
    assert forall i :: 0 <= i < |c| ==> Active(c[i]) == [];
  }

  /** A secondary that has been told of its client's success is behind every other node: when it applies the write
      and answers the client, all nodes have it. */
  ghost predicate AckedIsEverywhere(c: Cluster) {
    forall i, j :: 0 < i < |c| && 0 <= j < |c| && i != j && c[i].holder.Held? && c[i].holder.phase == Replied(true) ==>
      |c[j].applied| > |c[i].applied|
  }

  /** Nothing but a reply of the primary tells a secondary of success, and no node forgets a write. */
  lemma AppliedGrows(c: Cluster, a: Action)
    requires Inv(c) && Enabled(c, a)
    ensures var c' := Next(c, a);
            && |c'| == |c|
            && (forall j :: 0 <= j < |c| ==> c[j].applied <= c'[j].applied)
            && (forall i :: 0 < i < |c| && c'[i].holder.Held? && c'[i].holder.phase == Replied(true) ==>
                  c'[i].applied == c[i].applied
                  && (c[i].holder == c'[i].holder || (a == PrimaryReplies && CarriedFor(c, i))))
  {
    hide ForwardsOk; hide PushesOk; hide Prefixes; hide PushedAreCaughtUp; hide AllAccepted; hide TableOf; hide Accepts;
  }

  lemma AcksStaySafe(c: Cluster, a: Action)
    requires Inv(c) && AckedIsEverywhere(c) && Enabled(c, a)
    ensures AckedIsEverywhere(Next(c, a))
  {
    hide NodesOk; hide ForwardsOk; hide PushesOk; hide AllAccepted; hide Next;
    AppliedGrows(c, a);
    var c' := Next(c, a);
    forall i, j | 0 < i < |c| && 0 <= j < |c| && i != j && c'[i].holder.Held? && c'[i].holder.phase == Replied(true)
      ensures |c'[j].applied| > |c'[i].applied|
    {
      assert |c'[j].applied| >= |c[j].applied|;
      if c[i].holder != c'[i].holder {
        CarriedIsAhead(c, i, j);
      }
    }
  }

  /** When the primary is about to reply, every node but the one it replies to has the write. */
  lemma CarriedIsAhead(c: Cluster, i: nat, j: nat)
    requires Inv(c) && Enabled(c, PrimaryReplies) && 0 < i < |c| && j < |c| && i != j && CarriedFor(c, i)
    ensures |c[j].applied| > |c[i].applied|
  {
    hide AllAccepted; hide PushesOk; hide NodesOk;
    HeadIsHolder(c[0]);
    assert TaskAtPrimary(c, Active(c[0])[0]);
    assert Pending(c, i) == [c[0].holder.task.write];
    if j > 0 {
      assert OwnPending(c, j) == [] && PushPending(c, j) == [];
    }
  }

  lemma {:induction false} RunKeeps(c: Cluster, actions: seq<Action>)
    requires Inv(c) && AckedIsEverywhere(c) && Run(c, actions)
    ensures Inv(AfterRun(c, actions)) && AckedIsEverywhere(AfterRun(c, actions))
    ensures |AfterRun(c, actions)| == |c|
    decreases |actions|
  {
    hide Inv; hide Next; hide AckedIsEverywhere; hide Enabled;
    if actions == [] {
    } else {
      NextKeeps(c, actions[0]);
      AcksStaySafe(c, actions[0]);
      AppliedGrows(c, actions[0]);
      RunKeeps(Next(c, actions[0]), actions[1..]);
    }
  }

  // ---- Main results ---------------------------------------------------------------------------------

  /** Replication safety, over every interleaving: the writes a secondary has applied are a prefix of the primary's,
      at most two shorter, and a plain map carries out every one of them with success. */
  lemma ReplicationIsSafe(c: Cluster, actions: seq<Action>, i: nat)
    requires Initial(c) && Run(c, actions) && 0 < i < |c|
    ensures var c' := AfterRun(c, actions);
            && |c'| == |c|
            && c'[i].applied <= c'[0].applied
            && |c'[0].applied| <= |c'[i].applied| + 2
            && AllSucceed(c'[i].applied) && AllSucceed(c'[0].applied)
  {
    hide Run; hide AfterRun; hide NodesOk; hide ForwardsOk; hide PushesOk; hide PushedAreCaughtUp; hide TableOf;
    hide Accepts; hide AllSucceed;
    InitialInv(c);
    RunKeeps(c, actions);
    var c' := AfterRun(c, actions);
    assert c'[0].applied == c'[i].applied + Pending(c', i);
    PrefixAccepted(c'[0].applied, c'[i].applied);
    TableIsMap(c'[0].applied);
    TableIsMap(c'[i].applied);
  }

  /** What the primary decides, in any state: it applies the write if and only if the plain map of the writes before it
      carries it out with success, and goes on to push it. Otherwise nothing is applied anywhere, the secondary that
      forwarded the write is told so, and the lock goes to the next in line, but a delete keeps it. */
  lemma PrimaryDecidesExactly(c: Cluster)
    requires Enabled(c, PrimaryDecides)
    ensures var c', t := Next(c, PrimaryDecides), c[0].holder.task;
            var succeeds := StorageNode.PlainStep(MapAfter(c[0].applied), OpOf(t.write)).1 == StorageNode.Success;
            && |c'| == |c|
            && (forall i :: 0 < i < |c| ==> c'[i].applied == c[i].applied && c'[i].queue == c[i].queue)
            && c'[0].applied == c[0].applied + (if succeeds then [t.write] else [])
            && (succeeds ==> c'[0].holder == Held(t, Pushing(1, false)) && c'[0].queue == c[0].queue)
            && (succeeds ==> MapAfter(c'[0].applied) == StorageNode.PlainStep(MapAfter(c[0].applied), OpOf(t.write)).0)
            && (!succeeds && t.write.Delete? ==> c'[0].holder == Held(t, Stuck) && c'[0].queue == c[0].queue)
            && (!succeeds && !t.write.Delete? ==>
                  if c[0].queue == [] then c'[0].holder == Free && c'[0].queue == []
                  else c'[0].holder == Held(c[0].queue[0], Entered) && c'[0].queue == c[0].queue[1..])
            && (forall i :: 0 < i < |c| ==>
                  c'[i].holder == if !succeeds && t.Forward? && t.source == i && c[i].holder.Held?
                                  then Held(c[i].holder.task, Replied(false)) else c[i].holder)
  {
    hide Accepts; hide TableOf; hide StorageNode.PlainStep; hide MapAfter;
    var ws, w := c[0].applied, c[0].holder.task.write;
    TableIsMap(ws);
    AcceptsIsSuccess(TableOf(ws), w);
    MapAfterOneMore(ws, w);
  }

  lemma MapAfterOneMore(ws: seq<Write>, w: Write)
    ensures MapAfter(ws + [w]) == StorageNode.PlainStep(MapAfter(ws), OpOf(w)).0
  {
    hide StorageNode.PlainStep;
    assert OpsOf(ws + [w]) == OpsOf(ws) + [OpOf(w)];
    PlainRunAppend(map[], OpsOf(ws), OpOf(w));
  }

  lemma PrefixAccepted(ws: seq<Write>, vs: seq<Write>)
    requires AllAccepted(ws) && vs <= ws
    ensures AllAccepted(vs)
  {
    hide TableOf; hide Accepts;
    forall k | 0 <= k < |vs| ensures Accepts(TableOf(vs[..k]), vs[k]) {
      assert vs[..k] == ws[..k] && Accepts(TableOf(ws[..k]), ws[k]);
    }
  }

  /** When a secondary answers its client with success, the write is at the same place in the sequence of every node. */
  lemma SuccessIsEverywhere(c: Cluster, actions: seq<Action>, i: nat, j: nat)
    requires Initial(c) && Run(c, actions)
    requires var c' := AfterRun(c, actions);
             Enabled(c', SecondaryFinishes(i)) && c'[i].holder.phase.ok && j < |c'|
    ensures var c' := AfterRun(c, actions);
            var c'' := Next(c', SecondaryFinishes(i));
            var at := |c'[i].applied|;
            |c''| == |c'| && |c''[j].applied| > at && c''[j].applied[at] == c'[i].holder.task.write
  {
    hide Run; hide AfterRun; hide NodesOk; hide ForwardsOk; hide PushesOk; hide PushedAreCaughtUp; hide AllAccepted;
    InitialInv(c);
    RunKeeps(c, actions);
    var c' := AfterRun(c, actions);
    assert c'[0].applied == c'[i].applied + Pending(c', i);
    SecondaryCatchesUp(c', i);
    var at, w := |c'[i].applied|, c'[i].holder.task.write;
    assert c'[0].applied[at] == w;
    if j != i {
      assert |c'[j].applied| > at;
      assert j > 0 ==> c'[0].applied == c'[j].applied + Pending(c', j);
      assert Next(c', SecondaryFinishes(i))[j] == c'[j];
    }
  }

  // ---- Progress -------------------------------------------------------------------------------------

  /** The primary waits for replica `j`, whose lock is held by a client's request that waits for the primary. */
  predicate Deadlocked(c: Cluster, j: nat) {
    && 0 < j < |c|
    && c[0].holder.Held? && c[0].holder.phase == Pushing(j, true)
    && c[j].holder.Held? && c[j].holder.phase == Waiting
  }

  lemma DeadlockStays(c: Cluster, j: nat, a: Action)
    requires Inv(c) && Deadlocked(c, j) && Enabled(c, a)
    ensures Deadlocked(Next(c, a), j) && Next(c, a)[0].applied == c[0].applied
  {
    hide Inv; hide TableOf; hide Accepts;
    if a.ReplicaApplies? {
      ReplicaCatchesUp(c, a.node);
    }
  }

  /** Such a state lasts for ever: whatever happens, no write is applied at the primary again. */
  lemma {:induction false} DeadlockIsForever(c: Cluster, j: nat, actions: seq<Action>)
    requires Inv(c) && Deadlocked(c, j) && Run(c, actions)
    ensures Deadlocked(AfterRun(c, actions), j) && AfterRun(c, actions)[0].applied == c[0].applied
    decreases |actions|
  {
    hide Inv; hide Next; hide Enabled; hide Deadlocked;
    if actions == [] {
    } else {
      NextKeeps(c, actions[0]);
      DeadlockStays(c, j, actions[0]);
      DeadlockIsForever(Next(c, actions[0]), j, actions[1..]);
    }
  }

  lemma StuckStays(c: Cluster, i: nat, a: Action)
    requires Inv(c) && Enabled(c, a) && i < |c| && c[i].holder.Held? && c[i].holder.phase == Stuck
    ensures |Next(c, a)| == |c| && Next(c, a)[i].holder == c[i].holder && Next(c, a)[i].applied == c[i].applied
  {
    hide TableOf; hide Accepts; hide AllAccepted; hide Prefixes; hide PushedAreCaughtUp;
    if c[0].holder.Held? && c[0].holder.phase != Stuck {
      HeadIsHolder(c[0]);
      assert TaskAtPrimary(c, Active(c[0])[0]);
    }
    if a.ReplicaApplies? { ReplicaCatchesUp(c, a.node); }
    hide ForwardsOk; hide PushesOk;
  }

  lemma {:induction false} StuckIsForever(c: Cluster, i: nat, actions: seq<Action>)
    requires Inv(c) && Run(c, actions) && i < |c| && c[i].holder.Held? && c[i].holder.phase == Stuck
    ensures var c' := AfterRun(c, actions);
            |c'| == |c| && c'[i].holder == c[i].holder && c'[i].applied == c[i].applied
    decreases |actions|
  {
    hide Inv; hide Next; hide Enabled;
    if actions == [] {
    } else {
      NextKeeps(c, actions[0]);
      StuckStays(c, i, actions[0]);
      StuckIsForever(Next(c, actions[0]), i, actions[1..]);
    }
  }

  /** A delete of a column that the primary's plain map lacks ends all writing to the group: whatever happens afterwards,
      the primary applies nothing again. */
  lemma MissingDeleteStopsWrites(c: Cluster, actions: seq<Action>)
    requires Inv(c) && Enabled(c, PrimaryDecides) && Run(Next(c, PrimaryDecides), actions)
    requires c[0].holder.task.write.Delete? && c[0].holder.task.write.key !in MapAfter(c[0].applied)
    ensures var c' := AfterRun(Next(c, PrimaryDecides), actions); |c'| == |c| && c'[0].applied == c[0].applied
  {
    hide Inv; hide Next; hide Run; hide AfterRun; hide MapAfter;
    PrimaryDecidesExactly(c);
    NextKeeps(c, PrimaryDecides);
    StuckIsForever(Next(c, PrimaryDecides), 0, actions);
  }

  /** Two secondaries that serve clients at the same time can get there. */
  lemma TwoClientsCanDeadlock(w: Write, v: Write)
    requires w.Put?
    ensures var c := seq(3, _ => Node([], Free, []));
            var actions := [ClientArrives(1, w), ClientArrives(2, v), SecondaryForwards(1), SecondaryForwards(2),
                            PrimaryDecides, PrimaryPushes, PrimaryPushes];
            Initial(c) && Run(c, actions) && Deadlocked(AfterRun(c, actions), 2)
  {
    var free := Node([], Free, []);
    var c := [free, free, free];
    assert c == seq(3, _ => Node([], Free, []));
    var n1, n2 := Node([], Held(Client(w), Waiting), []), Node([], Held(Client(v), Waiting), []);
    var a4: seq<Action> := [];
    var a3 := [PrimaryPushes] + a4;
    var c6 := [Node([w], Held(Forward(1, w), Pushing(2, false)), [Forward(2, v)]), n1, n2];
    var c7 := Next(c6, PrimaryPushes);
    assert Deadlocked(c7, 2);
    Link(c6, PrimaryPushes, a4);
    var c5 := [Node([w], Held(Forward(1, w), Pushing(1, false)), [Forward(2, v)]), n1, n2];
    assert Next(c5, PrimaryPushes) == c6;
    Link(c5, PrimaryPushes, a3);
    var c4 := [Node([], Held(Forward(1, w), Entered), [Forward(2, v)]), n1, n2];
    assert [] + [w] == [w];
    assert Next(c4, PrimaryDecides) == c5;
    Link(c4, PrimaryDecides, [PrimaryPushes] + a3);
    var c3 := [Node([], Held(Forward(1, w), Entered), []), n1, Node([], Held(Client(v), Entered), [])];
    assert [] + [Forward(2, v)] == [Forward(2, v)];
    assert Next(c3, SecondaryForwards(2)) == c4;
    Link(c3, SecondaryForwards(2), [PrimaryDecides] + ([PrimaryPushes] + a3));
    var c2 := [free, Node([], Held(Client(w), Entered), []), Node([], Held(Client(v), Entered), [])];
    assert Next(c2, SecondaryForwards(1)) == c3;
    var rest := [SecondaryForwards(2)] + ([PrimaryDecides] + ([PrimaryPushes] + a3));
    Link(c2, SecondaryForwards(1), rest);
    var c1 := [free, Node([], Held(Client(w), Entered), []), free];
    assert Next(c1, ClientArrives(2, v)) == c2;
    Link(c1, ClientArrives(2, v), [SecondaryForwards(1)] + rest);
    assert Next(c, ClientArrives(1, w)) == c1;
    Link(c, ClientArrives(1, w), [ClientArrives(2, v)] + ([SecondaryForwards(1)] + rest));
    assert [ClientArrives(1, w)] + ([ClientArrives(2, v)] + ([SecondaryForwards(1)] + rest)) ==
           [ClientArrives(1, w), ClientArrives(2, v), SecondaryForwards(1), SecondaryForwards(2),
            PrimaryDecides, PrimaryPushes, PrimaryPushes];
  }

  lemma Link(c: Cluster, a: Action, rest: seq<Action>)
    requires Enabled(c, a) && Run(Next(c, a), rest)
    ensures Run(c, [a] + rest) && AfterRun(c, [a] + rest) == AfterRun(Next(c, a), rest)
  {
    assert ([a] + rest)[1..] == rest;
  }
}
