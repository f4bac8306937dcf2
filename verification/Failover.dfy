/** Failover in kvstore/master.cpp: what the master decides, what it tells the nodes, and what the nodes make of it
    (kvstore/kv_store.cpp:827-855). One round of a heartbeat thread, and one call of an administrator, is one step. */
module Failover {
  import opened Options

  /** `changed` and `adminDown` are the servers with `changed_group` set and those an administrator turned off.
      Servers are named by their ids; their addresses are distinct. */
  datatype Master = Master(
    groups: map<nat, set<nat>>,
    primaries: map<nat, nat>,
    dead: set<nat>,
    init: set<nat>,
    adminDown: set<nat>,
    changed: set<nat>)

  datatype Request = Request(recover: bool, updated: bool, primary: nat, replicas: set<nat>)

  /** What a storage node knows of its group. */
  datatype NodeView = NodeView(startup: bool, isPrimary: bool, clientTo: Option<nat>, replicas: set<nat>)

  datatype System = System(master: Master, nodes: map<nat, NodeView>)

  /** What becomes of a heartbeat: answered in time, carried out but answered too late, or lost. */
  datatype Outcome = Answered | Late | Lost

  /** `heir` is the member that the loop over the group's hash set meets first among those that are not dead. */
  datatype Event =
    | Heartbeat(group: nat, server: nat, outcome: Outcome, heir: nat)
    | TurnOff(group: nat, server: nat, heir: nat)
    | TurnOn(group: nat, server: nat)
    | Restart(server: nat)

  predicate IsMember(m: Master, group: nat, server: nat) {
    group in m.groups && group in m.primaries && server in m.groups[group]
  }

  function LiveMembers(m: Master, group: nat): set<nat>
    requires group in m.groups
  {
    m.groups[group] - m.dead
  }

  // ---- The master -----------------------------------------------------------------------------------

  function RequestFor(m: Master, group: nat, server: nat): Request
    requires group in m.groups && group in m.primaries
  {
    Request(server in m.dead, server in m.changed, m.primaries[group], LiveMembers(m, group) - {m.primaries[group]})
  }

  /** The primary is dead: the heir takes over and the group is told, unless nobody is left. */
  function Succeed(m: Master, group: nat, heir: nat): Master
    requires group in m.groups
  {
    if heir in LiveMembers(m, group)
    then m.(primaries := m.primaries[group := heir], changed := m.changed + m.groups[group])
    else m
  }

  /** A round of `heartbeat` after `Alive` has returned. */
  function AfterRound(m: Master, group: nat, server: nat, alive: bool, heir: nat): Master
    requires group in m.groups && group in m.primaries
  {
    var m1 := m.(changed := if alive then m.changed - {server} else m.changed + {server});
    if server in m.init then (if alive then m1.(init := m.init - {server}) else m1)
    else if server !in m.dead && !alive then
      var m2 := m1.(dead := m.dead + {server});
      if server == m.primaries[group] then Succeed(m2, group, heir) else m2
    else if server in m.dead && alive then
      m1.(dead := m.dead - {server}, changed := m1.changed + m.groups[group])
    else m1
  }

  function AfterTurnOff(m: Master, group: nat, server: nat, heir: nat): Master
    requires group in m.groups && group in m.primaries
  {
    var m1 := m.(adminDown := m.adminDown + {server}, dead := m.dead + {server}, changed := m.changed + m.groups[group]);
    if server == m.primaries[group] then Succeed(m1, group, heir) else m1
  }

  function AfterTurnOn(m: Master, group: nat, server: nat): Master
    requires group in m.groups
  {
    m.(adminDown := m.adminDown - {server}, changed := m.changed + m.groups[group])
  }

  // ---- A storage node -------------------------------------------------------------------------------

  /** `HealthImpl::Alive`. A primary without replicas takes the second branch: it keeps its old list of them. */
  function OnAlive(v: NodeView, server: nat, r: Request): NodeView {
    var v1 := v.(isPrimary := r.primary == server);
    if v.startup || r.updated then
      if v1.isPrimary && r.replicas != {} then v1.(replicas := r.replicas, startup := false)
      else v1.(clientTo := Some(r.primary), startup := false)
    else v1
  }

  // ---- The system -----------------------------------------------------------------------------------

  /** The heir is a live member whenever there is one. */
  predicate HeirOk(m: Master, group: nat, server: nat, heir: nat)
    requires group in m.groups
  {
    heir in LiveMembers(m, group) - {server} || LiveMembers(m, group) - {server} == {}
  }

  predicate Possible(s: System, e: Event) {
    match e
    case Heartbeat(g, x, _, heir) =>
      IsMember(s.master, g, x) && x in s.nodes && x !in s.master.adminDown && HeirOk(s.master, g, x, heir)
    case TurnOff(g, x, heir) => IsMember(s.master, g, x) && HeirOk(s.master, g, x, heir)
    case TurnOn(g, x) => IsMember(s.master, g, x)
    case Restart(x) => x in s.nodes
  }

  function Next(s: System, e: Event): System
    requires Possible(s, e)
  {
    match e
    case Heartbeat(g, x, outcome, heir) =>
      var r := RequestFor(s.master, g, x);
      System(AfterRound(s.master, g, x, outcome == Answered, heir),
             if outcome == Lost then s.nodes else s.nodes[x := OnAlive(s.nodes[x], x, r)])
    case TurnOff(g, x, heir) => s.(master := AfterTurnOff(s.master, g, x, heir))
    case TurnOn(g, x) => s.(master := AfterTurnOn(s.master, g, x))
    case Restart(x) => s.(nodes := s.nodes[x := NodeView(true, false, None, {})])
  }

  // ---- What the nodes know --------------------------------------------------------------------------

  /** A node that has been told what the master holds: who the primary is, and, for the primary, every live replica. */
  predicate UpToDate(m: Master, group: nat, server: nat, v: NodeView)
    requires group in m.groups && group in m.primaries
  {
    if server == m.primaries[group] then v.isPrimary && LiveMembers(m, group) - {server} <= v.replicas
    else !v.isPrimary && v.clientTo == Some(m.primaries[group])
  }

  /** Every started node either is up to date or has its flag set. */
  ghost predicate Informed(s: System) {
    forall g, x :: IsMember(s.master, g, x) && x in s.nodes && !s.nodes[x].startup && x !in s.master.changed ==>
      UpToDate(s.master, g, x, s.nodes[x])
  }

  /** Groups are disjoint and have a primary among their members. */
  ghost predicate GroupsOk(m: Master) {
    && m.primaries.Keys == m.groups.Keys
    && (forall g :: g in m.groups ==> m.primaries[g] in m.groups[g])
    && (forall g, h :: g in m.groups && h in m.groups && g != h ==> m.groups[g] !! m.groups[h])
  }

  lemma NextKeepsGroups(s: System, e: Event)
    requires GroupsOk(s.master) && Possible(s, e)
    ensures GroupsOk(Next(s, e).master) && Next(s, e).master.groups == s.master.groups
  {
  }

  /** Only a group that is flagged as a whole sees its primary change or a dead member come back. */
  lemma MasterTellsGroup(s: System, e: Event, g: nat, x: nat)
    requires GroupsOk(s.master) && Possible(s, e) && IsMember(s.master, g, x)
    requires x !in Next(s, e).master.changed
    ensures var m, m' := s.master, Next(s, e).master;
            && m'.primaries[g] == m.primaries[g] && LiveMembers(m', g) <= LiveMembers(m, g)
            && (x !in m.changed || (e.Heartbeat? && e.server == x && e.group == g && e.outcome == Answered))
            && !(e.Heartbeat? && e.server == x && e.outcome == Late)
  {
  }

  lemma NextInformed(s: System, e: Event)
    requires GroupsOk(s.master) && Informed(s) && Possible(s, e)
    ensures Informed(Next(s, e))
  {
    hide GroupsOk; hide AfterRound; hide AfterTurnOff; hide AfterTurnOn; hide LiveMembers;
    var s' := Next(s, e);
    NextKeepsGroups(s, e);
    forall g, x | IsMember(s'.master, g, x) && x in s'.nodes && !s'.nodes[x].startup && x !in s'.master.changed
      ensures UpToDate(s'.master, g, x, s'.nodes[x])
    {
      GroupsAligned(s.master);
      MasterTellsGroup(s, e, g, x);
      OneGroup(s.master, g, x);
      assert x in s.nodes;
      if e.Heartbeat? && e.server == x && e.outcome == Answered {
        if !s.nodes[x].startup && x !in s.master.changed {
          assert UpToDate(s.master, g, x, s.nodes[x]);
        }
        ToldIsUpToDate(s.master, s'.master, g, x, s.nodes[x]);
      } else {
        assert s'.nodes[x] == s.nodes[x];
        assert UpToDate(s.master, g, x, s.nodes[x]);
      }
    }
  }

  /** What a node makes of an answered heartbeat. */
  lemma ToldIsUpToDate(m: Master, m': Master, g: nat, x: nat, v: NodeView)
    requires IsMember(m, g, x) && IsMember(m', g, x)
    requires v.startup || x in m.changed || UpToDate(m, g, x, v)
    requires m'.primaries[g] == m.primaries[g] && LiveMembers(m', g) <= LiveMembers(m, g)
    ensures UpToDate(m', g, x, OnAlive(v, x, RequestFor(m, g, x)))
    ensures (v.startup || x in m.changed) && x == m.primaries[g] && LiveMembers(m, g) - {x} != {} ==>
              OnAlive(v, x, RequestFor(m, g, x)).replicas == LiveMembers(m, g) - {x}
  {
    hide LiveMembers;
    if x == m.primaries[g] && RequestFor(m, g, x).replicas == {} {
      assert LiveMembers(m', g) - {x} <= LiveMembers(m, g) - {x};
    }
  }

  lemma GroupsAligned(m: Master)
    requires GroupsOk(m)
    ensures m.primaries.Keys == m.groups.Keys
  {
  }

  lemma OneGroup(m: Master, g: nat, x: nat)
    requires GroupsOk(m) && IsMember(m, g, x)
    ensures forall h :: IsMember(m, h, x) ==> h == g
  {
  }

  ghost predicate Run(s: System, events: seq<Event>)
    decreases |events|
  {
    events == [] || (Possible(s, events[0]) && Run(Next(s, events[0]), events[1..]))
  }

  function AfterRun(s: System, events: seq<Event>): System
    requires Run(s, events)
    decreases |events|
  {
    if events == [] then s else AfterRun(Next(s, events[0]), events[1..])
  }

  /** Failover knowledge, over every run of heartbeats (answered, late or lost), turn-offs, turn-ons and restarts. */
  lemma {:induction false} NodesStayInformed(s: System, events: seq<Event>)
    requires GroupsOk(s.master) && Informed(s) && Run(s, events)
    ensures Informed(AfterRun(s, events)) && GroupsOk(AfterRun(s, events).master)
    decreases |events|
  {
    hide Informed; hide GroupsOk; hide Next; hide Possible;
    if events == [] {
    } else {
      NextInformed(s, events[0]);
      NextKeepsGroups(s, events[0]);
      NodesStayInformed(Next(s, events[0]), events[1..]);
    }
  }

  /** When every node starts afresh there is nothing to be informed of. */
  lemma AllStartingIsInformed(s: System)
    requires forall x :: x in s.nodes ==> s.nodes[x].startup
    ensures Informed(s)
  {
  }

  /** No node counts itself or a stranger among its replicas. */
  ghost predicate ReplicasArePeers(s: System) {
    forall g, x :: IsMember(s.master, g, x) && x in s.nodes ==> s.nodes[x].replicas <= s.master.groups[g] - {x}
  }

  lemma NextKeepsPeers(s: System, e: Event)
    requires GroupsOk(s.master) && ReplicasArePeers(s) && Possible(s, e)
    ensures ReplicasArePeers(Next(s, e))
  {
    hide GroupsOk; hide AfterRound; hide AfterTurnOff; hide AfterTurnOn;
    var s' := Next(s, e);
    NextKeepsGroups(s, e);
    GroupsAligned(s.master);
    forall g, x | IsMember(s'.master, g, x) && x in s'.nodes ensures s'.nodes[x].replicas <= s'.master.groups[g] - {x} {
      OneGroup(s.master, g, x);
      assert IsMember(s.master, g, x) && x in s.nodes;
    }
  }

  lemma {:induction false} ReplicasStayPeers(s: System, events: seq<Event>)
    requires GroupsOk(s.master) && ReplicasArePeers(s) && Run(s, events)
    ensures ReplicasArePeers(AfterRun(s, events))
    decreases |events|
  {
    hide ReplicasArePeers; hide GroupsOk; hide Next; hide Possible;
    if events == [] {
    } else {
      NextKeepsPeers(s, events[0]);
      NextKeepsGroups(s, events[0]);
      ReplicasStayPeers(Next(s, events[0]), events[1..]);
    }
  }

  // ---- The recorded primary -------------------------------------------------------------------------

  predicate PrimaryLives(m: Master, group: nat) {
    group in m.groups && group in m.primaries && m.primaries[group] in LiveMembers(m, group)
  }

  /** A step from a live primary leads to a live primary exactly when it leaves the group a live member. */
  lemma PrimaryLivesIff(s: System, e: Event, g: nat)
    requires GroupsOk(s.master) && Possible(s, e) && PrimaryLives(s.master, g)
    ensures g in Next(s, e).master.groups
    ensures PrimaryLives(Next(s, e).master, g) <==> LiveMembers(Next(s, e).master, g) != {}
  {
    var m' := Next(s, e).master;
    if PrimaryLives(m', g) {
      assert m'.primaries[g] in LiveMembers(m', g);
    }
  }

  /** The group has a live member after every step of the run. */
  ghost predicate AlwaysLive(s: System, g: nat, events: seq<Event>)
    requires Run(s, events) && g in s.master.groups
    decreases |events|
  {
    LiveMembers(s.master, g) != {}
    && (events == [] ||
        (g in Next(s, events[0]).master.groups && AlwaysLive(Next(s, events[0]), g, events[1..])))
  }

  ghost predicate PrimaryAlwaysLives(s: System, g: nat, events: seq<Event>)
    requires Run(s, events)
    decreases |events|
  {
    PrimaryLives(s.master, g)
    && (events == [] || PrimaryAlwaysLives(Next(s, events[0]), g, events[1..]))
  }

  /** Over a run from a live primary, the recorded primary is alive throughout exactly when the group never loses all
      its members. */
  lemma {:induction false} PrimaryAlwaysLivesIff(s: System, g: nat, events: seq<Event>)
    requires GroupsOk(s.master) && PrimaryLives(s.master, g) && Run(s, events)
    ensures PrimaryAlwaysLives(s, g, events) <==> AlwaysLive(s, g, events)
    decreases |events|
  {
    hide GroupsOk; hide Next; hide Possible; hide PrimaryLives; hide LiveMembers;
    PrimaryIsMember(s.master, g);
    if events == [] {
    } else {
      NextKeepsGroups(s, events[0]);
      PrimaryLivesIff(s, events[0], g);
      if PrimaryLives(Next(s, events[0]).master, g) {
        PrimaryAlwaysLivesIff(Next(s, events[0]), g, events[1..]);
      } else {
        DeadThroughout(Next(s, events[0]), g, events[1..]);
      }
    }
  }

  lemma PrimaryIsMember(m: Master, g: nat)
    requires PrimaryLives(m, g)
    ensures g in m.groups && LiveMembers(m, g) != {}
  {
  }

  lemma DeadThroughout(s: System, g: nat, events: seq<Event>)
    requires Run(s, events) && g in s.master.groups && LiveMembers(s.master, g) == {}
    ensures !AlwaysLive(s, g, events)
  {
  }

  /** Once all members have been dead, a member other than the recorded primary coming back leaves the group with a dead
      primary: no step but the primary's own return or another turn-off changes it. */
  lemma ReturnDoesNotElect(s: System, e: Event, g: nat)
    requires GroupsOk(s.master) && Possible(s, e) && g in s.master.groups && s.master.primaries[g] in s.master.dead
    requires e.Heartbeat? && e.group == g && e.server != s.master.primaries[g]
    ensures Next(s, e).master.primaries[g] == s.master.primaries[g]
    ensures s.master.primaries[g] in Next(s, e).master.dead
  {
  }
}
