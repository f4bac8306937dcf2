/** What the master of kvstore/master.cpp holds and says, told from the events alone: who is dead, who is turned off, who
    is primary, who is flagged, and so what every heartbeat carries. */
module FailoverHistory {
  import opened Options
  import opened Failover

  // ---- What an event is to a server -----------------------------------------------------------------

  predicate Round(e: Event, x: nat) {
    e.Heartbeat? && e.server == x
  }

  predicate AnsweredRound(e: Event, x: nat) {
    Round(e, x) && e.outcome == Answered
  }

  predicate IsTurnOff(e: Event, x: nat) {
    e.TurnOff? && e.server == x
  }

  predicate IsTurnOn(e: Event, x: nat) {
    e.TurnOn? && e.server == x
  }

  /** The server has answered a first time. That round is only taken for its start. */
  ghost predicate Started(s: System, events: seq<Event>, x: nat) {
    x !in s.master.init || exists i :: 0 <= i < |events| && AnsweredRound(events[i], x)
  }

  /** A turn-off, or an unanswered round of a started server. */
  ghost predicate Downs(s: System, events: seq<Event>, i: nat, x: nat)
    requires i < |events|
  {
    IsTurnOff(events[i], x)
    || (Round(events[i], x) && events[i].outcome != Answered && Started(s, events[..i], x))
  }

  ghost predicate Ups(s: System, events: seq<Event>, i: nat, x: nat)
    requires i < |events|
  {
    AnsweredRound(events[i], x) && Started(s, events[..i], x)
  }

  /** The last of the server's rounds since its start and of its turn-offs was an unanswered round or a turn-off. */
  ghost predicate DownSince(s: System, events: seq<Event>, x: nat) {
    (exists i :: 0 <= i < |events| && Downs(s, events, i, x) && forall j :: i < j < |events| ==> !Ups(s, events, j, x))
    || (x in s.master.dead && forall j :: 0 <= j < |events| ==> !Ups(s, events, j, x))
  }

  /** The last of the server's turn-offs and turn-ons was a turn-off. */
  ghost predicate OffSince(s: System, events: seq<Event>, x: nat) {
    (exists i :: 0 <= i < |events| && IsTurnOff(events[i], x) && forall j :: i < j < |events| ==> !IsTurnOn(events[j], x))
    || (x in s.master.adminDown && forall j :: 0 <= j < |events| ==> !IsTurnOn(events[j], x))
  }

  // ---- One event more -------------------------------------------------------------------------------

  lemma StartedMore(s: System, events: seq<Event>, e: Event, x: nat)
    ensures Started(s, events + [e], x) <==> Started(s, events, x) || AnsweredRound(e, x)
  {
    var more := events + [e];
    assert more[|events|] == e;
    if Started(s, events, x) && x in s.master.init {
      var i :| 0 <= i < |events| && AnsweredRound(events[i], x);
      assert AnsweredRound(more[i], x);
    }
  }

  lemma SameBefore(s: System, events: seq<Event>, e: Event, x: nat)
    ensures forall i :: 0 <= i < |events| ==>
              (events + [e])[i] == events[i] && (events + [e])[..i] == events[..i]
              && (Downs(s, events + [e], i, x) <==> Downs(s, events, i, x))
              && (Ups(s, events + [e], i, x) <==> Ups(s, events, i, x))
    ensures (events + [e])[|events|] == e && (events + [e])[..|events|] == events
  {
    forall i | 0 <= i < |events| ensures (events + [e])[..i] == events[..i] {
    }
  }

  lemma DownMore(s: System, events: seq<Event>, e: Event, x: nat)
    ensures DownSince(s, events + [e], x)
            <==> IsTurnOff(e, x)
                 || (if Round(e, x) && Started(s, events, x) then e.outcome != Answered else DownSince(s, events, x))
  {
    hide Started;
    var more, n := events + [e], |events|;
    SameBefore(s, events, e, x);
    if Downs(s, more, n, x) {
      assert DownSince(s, more, x);
    } else if DownSince(s, events, x) && !Ups(s, more, n, x) {
      if i :| 0 <= i < n && Downs(s, events, i, x) && forall j :: i < j < n ==> !Ups(s, events, j, x) {
        assert Downs(s, more, i, x);
        assert forall j :: i < j < |more| ==> !Ups(s, more, j, x);
      }
    }
  }

  lemma OffMore(s: System, events: seq<Event>, e: Event, x: nat)
    ensures OffSince(s, events + [e], x) <==> IsTurnOff(e, x) || (OffSince(s, events, x) && !IsTurnOn(e, x))
  {
    var more, n := events + [e], |events|;
    assert more[n] == e && forall i :: 0 <= i < n ==> more[i] == events[i];
    if IsTurnOff(e, x) {
      assert IsTurnOff(more[n], x);
    } else if OffSince(s, events, x) && !IsTurnOn(e, x) {
      if i :| 0 <= i < n && IsTurnOff(events[i], x) && forall j :: i < j < n ==> !IsTurnOn(events[j], x) {
        assert IsTurnOff(more[i], x);
      }
    }
  }

  // ---- Who is primary and who is flagged ------------------------------------------------------------

  /** Some other member of the group is not dead. */
  ghost predicate OthersLeft(s: System, events: seq<Event>, g: nat, x: nat)
    requires g in s.master.groups
  {
    exists y :: y in s.master.groups[g] && y != x && !DownSince(s, events, y)
  }

  /** The event takes the group's primary down: a turn-off, or the first unanswered round of a started server. */
  ghost predicate TakesDown(s: System, events: seq<Event>, e: Event, g: nat, x: nat) {
    (e.TurnOff? && e.group == g && e.server == x)
    || (e.Heartbeat? && e.group == g && e.server == x && e.outcome != Answered
        && Started(s, events, x) && !DownSince(s, events, x))
  }

  /** The primary: the one at the start, until it is taken down while another member is left. */
  ghost function PrimaryBy(s: System, events: seq<Event>, g: nat): nat
    requires g in s.master.groups && g in s.master.primaries
    decreases |events|
  {
    if events == [] then s.master.primaries[g]
    else
      var before, e := events[..|events| - 1], events[|events| - 1];
      var p := PrimaryBy(s, before, g);
      if TakesDown(s, before, e, g, p) && OthersLeft(s, before, g, p) then e.heir else p
  }

  /** What the whole group is to be told of: an administrator's call, the return of a member, a change of primary. */
  ghost predicate TellsGroup(s: System, events: seq<Event>, e: Event, g: nat)
    requires g in s.master.groups && g in s.master.primaries
  {
    ((e.TurnOff? || e.TurnOn?) && e.group == g)
    || (e.Heartbeat? && e.group == g
        && if e.outcome == Answered then Started(s, events, e.server) && DownSince(s, events, e.server)
           else TakesDown(s, events, e, g, PrimaryBy(s, events, g)) && OthersLeft(s, events, g, e.server))
  }

  /** The flag: up with whatever its group is to be told of and with a round that was not answered in time, down with an
      answered one. */
  ghost predicate FlaggedBy(s: System, events: seq<Event>, g: nat, x: nat)
    requires g in s.master.groups && g in s.master.primaries
    decreases |events|
  {
    if events == [] then x in s.master.changed
    else
      var before, e := events[..|events| - 1], events[|events| - 1];
      TellsGroup(s, before, e, g) || (if Round(e, x) then e.outcome != Answered else FlaggedBy(s, before, g, x))
  }

  // ---- The master keeps to it -----------------------------------------------------------------------

  lemma {:induction false} RunMore(s: System, events: seq<Event>, e: Event)
    ensures Run(s, events + [e]) <==> Run(s, events) && Possible(AfterRun(s, events), e)
    ensures Run(s, events + [e]) ==> AfterRun(s, events + [e]) == Next(AfterRun(s, events), e)
    decreases |events|
  {
    hide Possible; hide Next;
    if events == [] {
      assert [] + [e] == [e] && [e][0] == e && [e][1..] == [];
    } else {
      assert (events + [e])[0] == events[0] && (events + [e])[1..] == events[1..] + [e];
      if Possible(s, events[0]) { RunMore(Next(s, events[0]), events[1..], e); }
    }
  }

  /** The master's sets are what the events say, for the members of its groups. */
  ghost predicate Told(s: System, events: seq<Event>, m: Master) {
    && m.groups == s.master.groups && m.primaries.Keys == m.groups.Keys == s.master.primaries.Keys
    && (forall g, x :: g in m.groups && x in m.groups[g] ==>
          && (x in m.init <==> !Started(s, events, x))
          && (x in m.dead <==> DownSince(s, events, x))
          && (x in m.adminDown <==> OffSince(s, events, x))
          && (x in m.changed <==> FlaggedBy(s, events, g, x)))
    && (forall g :: g in m.groups ==> m.primaries[g] == PrimaryBy(s, events, g))
  }

  lemma {:induction false} EventsTell(s: System, events: seq<Event>)
    requires GroupsOk(s.master) && Run(s, events)
    ensures Told(s, events, AfterRun(s, events).master) && GroupsOk(AfterRun(s, events).master)
    decreases |events|
  {
    hide GroupsOk; hide Next; hide Possible; hide Told;
    if events == [] {
      assert Told(s, [], s.master) by { NothingTold(s); }
    } else {
      var before, e := events[..|events| - 1], events[|events| - 1];
      assert before + [e] == events;
      RunMore(s, before, e);
      EventsTell(s, before);
      NextKeepsGroups(AfterRun(s, before), e);
      OneMoreTold(s, before, AfterRun(s, before), e);
    }
  }

  lemma NothingTold(s: System)
    requires GroupsOk(s.master)
    ensures Told(s, [], s.master)
  {
  }

  lemma OneMoreTold(s: System, events: seq<Event>, now: System, e: Event)
    requires GroupsOk(now.master) && Possible(now, e) && Told(s, events, now.master)
    ensures Told(s, events + [e], Next(now, e).master)
  {
    hide GroupsOk; hide Next; hide Possible; hide FlaggedBy; hide PrimaryBy; hide DownSince; hide OffSince; hide Started;
    var m, m' := now.master, Next(now, e).master;
    NextKeepsGroups(now, e);
    KeysKept(m');
    forall g, x | g in m.groups && x in m.groups[g]
      ensures x in m'.init <==> !Started(s, events + [e], x)
      ensures x in m'.dead <==> DownSince(s, events + [e], x)
      ensures x in m'.adminDown <==> OffSince(s, events + [e], x)
      ensures x in m'.changed <==> FlaggedBy(s, events + [e], g, x)
    {
      SetsAfter(s, events, now, e, g, x);
      FlagAfter(s, events, now, e, g, x);
    }
    forall g | g in m.groups ensures m'.primaries[g] == PrimaryBy(s, events + [e], g) {
      PrimaryAfter(s, events, now, e, g);
    }
  }

  lemma KeysKept(m: Master)
    requires GroupsOk(m)
    ensures m.primaries.Keys == m.groups.Keys
  {
  }

  lemma SetsAfter(s: System, events: seq<Event>, now: System, e: Event, g: nat, x: nat)
    requires GroupsOk(now.master) && Possible(now, e) && Told(s, events, now.master)
    requires g in now.master.groups && x in now.master.groups[g]
    ensures var m' := Next(now, e).master;
            && (x in m'.init <==> !Started(s, events + [e], x))
            && (x in m'.dead <==> DownSince(s, events + [e], x))
            && (x in m'.adminDown <==> OffSince(s, events + [e], x))
  {
    StartedMore(s, events, e, x);
    DownMore(s, events, e, x);
    OffMore(s, events, e, x);
    hide Started; hide DownSince; hide OffSince; hide FlaggedBy; hide PrimaryBy; hide GroupsOk;
  }

  lemma OthersLeftIs(s: System, events: seq<Event>, m: Master, g: nat, x: nat)
    requires Told(s, events, m) && g in m.groups
    ensures OthersLeft(s, events, g, x) <==> LiveMembers(m, g) - {x} != {}
  {
    hide Started; hide DownSince; hide OffSince; hide FlaggedBy; hide PrimaryBy;
    if OthersLeft(s, events, g, x) {
      var y :| y in s.master.groups[g] && y != x && !DownSince(s, events, y);
      assert y in LiveMembers(m, g) - {x};
    }
    if LiveMembers(m, g) - {x} != {} {
      var y :| y in LiveMembers(m, g) - {x};
      assert y in s.master.groups[g] && !DownSince(s, events, y);
    }
  }

  /** When the recorded primary changes. */
  lemma PrimaryMoves(now: System, e: Event, g: nat)
    requires GroupsOk(now.master) && Possible(now, e) && g in now.master.groups
    ensures var m, p := now.master, now.master.primaries[g];
            var down := (e.TurnOff? && e.group == g && e.server == p)
                        || (e.Heartbeat? && e.group == g && e.server == p && e.outcome != Answered
                            && p !in m.init && p !in m.dead);
            && g in Next(now, e).master.primaries
            && Next(now, e).master.primaries[g] == if down && LiveMembers(m, g) - {p} != {} then e.heir else p
  {
  }

  /** When a member is flagged. */
  lemma FlagMoves(now: System, e: Event, g: nat, x: nat)
    requires GroupsOk(now.master) && Possible(now, e) && IsMember(now.master, g, x)
    ensures var m, p := now.master, now.master.primaries[g];
            var group := ((e.TurnOff? || e.TurnOn?) && e.group == g)
                         || (e.Heartbeat? && e.group == g && e.server !in m.init
                             && if e.outcome == Answered then e.server in m.dead
                                else e.server == p && p !in m.dead && LiveMembers(m, g) - {p} != {});
            x in Next(now, e).master.changed
            <==> group || (if Round(e, x) then e.outcome != Answered else x in m.changed)
  {
    OneGroup(now.master, g, x);
  }

  lemma PrimaryAfter(s: System, events: seq<Event>, now: System, e: Event, g: nat)
    requires GroupsOk(now.master) && Possible(now, e) && Told(s, events, now.master) && g in now.master.groups
    ensures g in Next(now, e).master.primaries && Next(now, e).master.primaries[g] == PrimaryBy(s, events + [e], g)
  {
    hide Started; hide DownSince; hide OffSince; hide FlaggedBy; hide OthersLeft; hide Next; hide Possible;
    var m := now.master;
    var p := m.primaries[g];
    assert (events + [e])[..|events|] == events && (events + [e])[|events|] == e;
    assert p in m.groups[g];
    OthersLeftIs(s, events, m, g, p);
    PrimaryMoves(now, e, g);
  }

  lemma FlagAfter(s: System, events: seq<Event>, now: System, e: Event, g: nat, x: nat)
    requires GroupsOk(now.master) && Possible(now, e) && Told(s, events, now.master)
    requires g in now.master.groups && x in now.master.groups[g]
    ensures x in Next(now, e).master.changed <==> FlaggedBy(s, events + [e], g, x)
  {
    hide Started; hide DownSince; hide OffSince; hide PrimaryBy; hide OthersLeft; hide Next;
    var m := now.master;
    assert (events + [e])[..|events|] == events && (events + [e])[|events|] == e;
    assert m.primaries[g] in m.groups[g];
    OthersLeftIs(s, events, m, g, m.primaries[g]);
    FlagMoves(now, e, g, x);
  }

  // ---- Main results ---------------------------------------------------------------------------------

  ghost predicate Member(s: System, g: nat, x: nat) {
    g in s.master.groups && x in s.master.groups[g]
  }

  /** Over every run, a server is in the dead set if and only if the last of its rounds since its start and of its turn-offs
      was an unanswered round or a turn-off; its heartbeats are suspended if and only if the last of its turn-offs and
      turn-ons was a turn-off; and it is still awaited if and only if it has never answered. */
  lemma DeadIff(s: System, events: seq<Event>, g: nat, x: nat)
    requires GroupsOk(s.master) && Run(s, events) && Member(s, g, x)
    ensures var m := AfterRun(s, events).master;
            && (x in m.dead <==> DownSince(s, events, x))
            && (x in m.adminDown <==> OffSince(s, events, x))
            && (x in m.init <==> !Started(s, events, x))
  {
    hide DownSince; hide OffSince; hide Started; hide PrimaryBy; hide FlaggedBy; hide AfterRun; hide Run;
    EventsTell(s, events);
  }

  lemma GroupsStand(s: System, events: seq<Event>)
    requires GroupsOk(s.master) && Run(s, events)
    ensures var m := AfterRun(s, events).master; m.groups == s.master.groups && m.primaries.Keys == s.master.groups.Keys
  {
    hide DownSince; hide OffSince; hide Started; hide PrimaryBy; hide FlaggedBy; hide AfterRun; hide Run;
    EventsTell(s, events);
  }

  /** `recover` for a server that is down, `updated` for one that is flagged, the primary, and as replicas exactly the other
      members that are not down. */
  ghost predicate Says(s: System, events: seq<Event>, g: nat, x: nat, r: Request)
    requires g in s.master.groups && g in s.master.primaries
  {
    var p := PrimaryBy(s, events, g);
    && (r.recover <==> DownSince(s, events, x))
    && (r.updated <==> FlaggedBy(s, events, g, x))
    && r.primary == p
    && r.replicas == (set y | y in s.master.groups[g] && y != p && !DownSince(s, events, y))
  }

  lemma RequestAfter(s: System, events: seq<Event>, m: Master, g: nat, x: nat)
    requires Told(s, events, m) && GroupsOk(m) && Member(s, g, x) && g in m.groups && g in m.primaries && g in s.master.primaries
    ensures Says(s, events, g, x, RequestFor(m, g, x))
    ensures RequestFor(m, g, x).replicas != {} <==> OthersLeft(s, events, g, PrimaryBy(s, events, g))
  {
    hide DownSince; hide OffSince; hide Started; hide PrimaryBy; hide FlaggedBy; hide OthersLeft;
    OthersLeftIs(s, events, m, g, m.primaries[g]);
  }

  /** What the heartbeat after a run carries is told by the events. */
  lemma RequestTells(s: System, events: seq<Event>, g: nat, x: nat)
    requires GroupsOk(s.master) && Run(s, events) && Member(s, g, x)
    ensures var m := AfterRun(s, events).master;
            && g in m.groups && g in m.primaries && g in s.master.primaries
            && Says(s, events, g, x, RequestFor(m, g, x))
  {
    hide Says; hide DownSince; hide OffSince; hide Started; hide PrimaryBy; hide FlaggedBy; hide AfterRun; hide Run;
    EventsTell(s, events);
    RequestAfter(s, events, AfterRun(s, events).master, g, x);
  }

  lemma {:induction false} NodesStand(s: System, events: seq<Event>)
    requires Run(s, events)
    ensures AfterRun(s, events).nodes.Keys == s.nodes.Keys
    decreases |events|
  {
    hide AfterRound; hide AfterTurnOff; hide AfterTurnOn; hide OnAlive;
    if events == [] {
    } else {
      NodesStand(Next(s, events[0]), events[1..]);
    }
  }

  /** A heartbeat of a member can take place again after its turn-on, and cannot between its turn-off and its turn-on. */
  lemma HeartbeatPossibleIff(s: System, events: seq<Event>, g: nat, x: nat, outcome: Outcome)
    requires GroupsOk(s.master) && Run(s, events) && Member(s, g, x) && x in s.nodes
    ensures (exists heir :: Possible(AfterRun(s, events), Heartbeat(g, x, outcome, heir))) <==> !OffSince(s, events, x)
  {
    hide DownSince; hide OffSince; hide Started; hide PrimaryBy; hide FlaggedBy; hide AfterRun; hide Run; hide GroupsOk;
    DeadIff(s, events, g, x);
    GroupsStand(s, events);
    NodesStand(s, events);
    var now := AfterRun(s, events);
    var left := LiveMembers(now.master, g) - {x};
    if !OffSince(s, events, x) {
      var heir := 0;
      if left != {} { heir :| heir in left; }
      assert Possible(now, Heartbeat(g, x, outcome, heir));
    }
  }

  // ---- What the nodes make of it --------------------------------------------------------------------

  predicate IsRestart(e: Event, x: nat) {
    e.Restart? && e.server == x
  }

  /** A round that reached the server, whether or not its answer came in time. */
  predicate Reached(e: Event, x: nat) {
    Round(e, x) && e.outcome != Lost
  }

  /** No round has reached the node since its last start. */
  ghost predicate StartsUp(s: System, events: seq<Event>, x: nat)
    requires x in s.nodes
  {
    (exists i :: 0 <= i < |events| && IsRestart(events[i], x) && forall j :: i < j < |events| ==> !Reached(events[j], x))
    || (s.nodes[x].startup && forall j :: 0 <= j < |events| ==> !Reached(events[j], x))
  }

  /** The last round that reached the node since its start named it as primary. */
  ghost predicate ServesAsPrimary(s: System, events: seq<Event>, g: nat, x: nat)
    requires g in s.master.groups && g in s.master.primaries && x in s.nodes
  {
    (exists i :: 0 <= i < |events| && Reached(events[i], x) && PrimaryBy(s, events[..i], g) == x
                 && forall j :: i < j < |events| ==> !Reached(events[j], x) && !IsRestart(events[j], x))
    || (s.nodes[x].isPrimary && forall j :: 0 <= j < |events| ==> !Reached(events[j], x) && !IsRestart(events[j], x))
  }

  /** The round tells the node of its group: the first one since its start, and one sent while it is flagged. */
  ghost predicate Tells(s: System, events: seq<Event>, e: Event, g: nat, x: nat)
    requires g in s.master.groups && g in s.master.primaries && x in s.nodes
  {
    Reached(e, x) && (StartsUp(s, events, x) || FlaggedBy(s, events, g, x))
  }

  /** The replicas: those that the primary was last told of, the other members that were not down. */
  ghost function ReplicasBy(s: System, events: seq<Event>, g: nat, x: nat): set<nat>
    requires g in s.master.groups && g in s.master.primaries && x in s.nodes
    decreases |events|
  {
    if events == [] then s.nodes[x].replicas
    else
      var before, e := events[..|events| - 1], events[|events| - 1];
      if IsRestart(e, x) then {}
      else if Tells(s, before, e, g, x) && PrimaryBy(s, before, g) == x && OthersLeft(s, before, g, x)
      then set y | y in s.master.groups[g] && y != x && !DownSince(s, before, y)
      else ReplicasBy(s, before, g, x)
  }

  /** The primary that the node was last told of as one that others lead, or as one without replicas. */
  ghost function ClientBy(s: System, events: seq<Event>, g: nat, x: nat): Option<nat>
    requires g in s.master.groups && g in s.master.primaries && x in s.nodes
    decreases |events|
  {
    if events == [] then s.nodes[x].clientTo
    else
      var before, e := events[..|events| - 1], events[|events| - 1];
      if IsRestart(e, x) then None
      else if Tells(s, before, e, g, x) && !(PrimaryBy(s, before, g) == x && OthersLeft(s, before, g, x))
      then Some(PrimaryBy(s, before, g))
      else ClientBy(s, before, g, x)
  }

  lemma StartsUpMore(s: System, events: seq<Event>, e: Event, x: nat)
    requires x in s.nodes
    ensures StartsUp(s, events + [e], x) <==> IsRestart(e, x) || (StartsUp(s, events, x) && !Reached(e, x))
  {
    var more, n := events + [e], |events|;
    assert more[n] == e && forall i :: 0 <= i < n ==> more[i] == events[i];
    if IsRestart(e, x) {
      assert IsRestart(more[n], x);
    } else if StartsUp(s, events, x) && !Reached(e, x) {
      if i :| 0 <= i < n && IsRestart(events[i], x) && forall j :: i < j < n ==> !Reached(events[j], x) {
        assert IsRestart(more[i], x);
      }
    }
  }

  lemma ServesMore(s: System, events: seq<Event>, e: Event, g: nat, x: nat)
    requires g in s.master.groups && g in s.master.primaries && x in s.nodes
    ensures ServesAsPrimary(s, events + [e], g, x)
            <==> if Reached(e, x) then PrimaryBy(s, events, g) == x
                 else ServesAsPrimary(s, events, g, x) && !IsRestart(e, x)
  {
    hide PrimaryBy;
    var more, n := events + [e], |events|;
    assert more[n] == e && more[..n] == events;
    assert forall i :: 0 <= i < n ==> more[i] == events[i] && more[..i] == events[..i];
    if Reached(e, x) {
    } else if ServesAsPrimary(s, events, g, x) && !IsRestart(e, x) {
      if i :| 0 <= i < n && Reached(events[i], x) && PrimaryBy(s, events[..i], g) == x
              && forall j :: i < j < n ==> !Reached(events[j], x) && !IsRestart(events[j], x) {
        assert Reached(more[i], x) && PrimaryBy(s, more[..i], g) == x;
      }
    }
  }

  /** A node is what the events say it has been told. */
  ghost predicate NodeTold(s: System, events: seq<Event>, g: nat, x: nat, v: NodeView)
    requires g in s.master.groups && g in s.master.primaries && x in s.nodes
  {
    && (v.startup <==> StartsUp(s, events, x))
    && (v.isPrimary <==> ServesAsPrimary(s, events, g, x))
    && v.clientTo == ClientBy(s, events, g, x)
    && v.replicas == ReplicasBy(s, events, g, x)
  }

  /** Over every run a node takes itself for the primary, awaits its first round, and forwards and replicates as the rounds
      that reached it have told it to. */
  lemma {:induction false} NodesTell(s: System, events: seq<Event>, g: nat, x: nat)
    requires GroupsOk(s.master) && Run(s, events) && Member(s, g, x) && x in s.nodes
    ensures g in s.master.primaries && x in AfterRun(s, events).nodes
    ensures NodeTold(s, events, g, x, AfterRun(s, events).nodes[x])
    decreases |events|
  {
    hide GroupsOk; hide Next; hide Possible; hide Told; hide NodeTold;
    KeysKept(s.master);
    if events == [] {
      assert NodeTold(s, [], g, x, s.nodes[x]) by { NothingToldNode(s, g, x); }
    } else {
      var before, e := events[..|events| - 1], events[|events| - 1];
      assert before + [e] == events;
      RunMore(s, before, e);
      EventsTell(s, before);
      NodesTell(s, before, g, x);
      OneMoreToldNode(s, before, AfterRun(s, before), e, g, x);
    }
  }

  lemma NothingToldNode(s: System, g: nat, x: nat)
    requires g in s.master.groups && g in s.master.primaries && x in s.nodes
    ensures NodeTold(s, [], g, x, s.nodes[x])
  {
  }

  lemma OneMoreToldNode(s: System, events: seq<Event>, now: System, e: Event, g: nat, x: nat)
    requires GroupsOk(now.master) && Possible(now, e) && Told(s, events, now.master)
    requires Member(s, g, x) && g in s.master.primaries && x in s.nodes && x in now.nodes
    requires NodeTold(s, events, g, x, now.nodes[x])
    ensures x in Next(now, e).nodes && NodeTold(s, events + [e], g, x, Next(now, e).nodes[x])
  {
    hide Next; hide Possible; hide OnAlive; hide NodeTold; hide Told; hide Reached; hide RequestFor; hide DownSince;
    ToldGroups(s, events, now.master, g, x);
    NodeAfter(now, e, g, x);
    if Reached(e, x) {
      ReachedIsRound(e, x);
      ToldByRound(s, events, now.master, e, g, x, now.nodes[x]);
    } else {
      NotTold(s, events, e, g, x, now.nodes[x]);
    }
  }

  lemma ToldGroups(s: System, events: seq<Event>, m: Master, g: nat, x: nat)
    requires GroupsOk(m) && Told(s, events, m) && Member(s, g, x)
    ensures g in m.groups && g in m.primaries && x in m.groups[g]
  {
    hide DownSince; hide OffSince; hide Started; hide PrimaryBy; hide FlaggedBy;
  }

  lemma NodeAfter(now: System, e: Event, g: nat, x: nat)
    requires GroupsOk(now.master) && Possible(now, e) && x in now.nodes && IsMember(now.master, g, x)
    ensures x in Next(now, e).nodes
    ensures Next(now, e).nodes[x]
            == if IsRestart(e, x) then NodeView(true, false, None, {})
               else if Reached(e, x) then OnAlive(now.nodes[x], x, RequestFor(now.master, g, x)) else now.nodes[x]
  {
    hide OnAlive; hide RequestFor; hide AfterRound; hide AfterTurnOff; hide AfterTurnOn;
    OneGroup(now.master, g, x);
  }

  /** A round that does not reach the node leaves it as it is; a restart empties it. */
  lemma NotTold(s: System, events: seq<Event>, e: Event, g: nat, x: nat, v: NodeView)
    requires Member(s, g, x) && g in s.master.primaries && x in s.nodes && !Reached(e, x) && NodeTold(s, events, g, x, v)
    ensures NodeTold(s, events + [e], g, x, if IsRestart(e, x) then NodeView(true, false, None, {}) else v)
  {
    hide Reached; hide PrimaryBy; hide FlaggedBy; hide OthersLeft; hide StartsUp; hide ServesAsPrimary; hide DownSince;
    StartsUpMore(s, events, e, x);
    ServesMore(s, events, e, g, x);
    assert (events + [e])[..|events|] == events && (events + [e])[|events|] == e;
  }

  lemma ToldByRound(s: System, events: seq<Event>, m: Master, e: Event, g: nat, x: nat, v: NodeView)
    requires Told(s, events, m) && GroupsOk(m) && Member(s, g, x) && g in m.groups && g in m.primaries
    requires g in s.master.primaries && x in s.nodes && Reached(e, x) && NodeTold(s, events, g, x, v)
    ensures NodeTold(s, events + [e], g, x, OnAlive(v, x, RequestFor(m, g, x)))
  {
    hide Reached; hide PrimaryBy; hide FlaggedBy; hide OthersLeft; hide StartsUp; hide ServesAsPrimary; hide DownSince;
    hide GroupsOk;
    StartsUpMore(s, events, e, x);
    ServesMore(s, events, e, g, x);
    assert !IsRestart(e, x) by { ReachedIsRound(e, x); }
    assert (events + [e])[..|events|] == events && (events + [e])[|events|] == e;
    RequestAfter(s, events, m, g, x);
    hide RequestFor; hide Told;
  }

  lemma ReachedIsRound(e: Event, x: nat)
    requires Reached(e, x)
    ensures !IsRestart(e, x)
  {
  }
}
