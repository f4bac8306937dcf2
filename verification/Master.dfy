/** The master as the source has it (kvstore/master.cpp): its maps and sets as fields, its heartbeat rounds, admin
    calls and router as methods, proved against modules Failover and Routing. */
module MasterImplementation {
  import opened Numbers
  import opened Options
  import opened Routing
  import Failover

  /** The members of a group when `n` servers are configured in order. */
  function Configured(group: nat, n: nat): set<nat> {
    set x: nat | x < n && x / GROUP_SIZE == group
  }

  predicate Started(group: nat, n: nat) {
    group * GROUP_SIZE < n
  }

  /** What the configuration file says: server `i` has the `i`-th address, and group `g` the servers from
      `g * GROUP_SIZE` on, the first of which is its primary. */
  ghost predicate LaidOut(servers: map<nat, string>, groups: map<nat, set<nat>>, primaries: map<nat, nat>,
                          addresses: seq<string>) {
    && (forall i: nat :: i in servers <==> i < |addresses|)
    && (forall i: nat :: i in servers ==> servers[i] == addresses[i])
    && (forall g: nat :: g in groups <==> Started(g, |addresses|))
    && (forall g: nat :: g in groups ==> groups[g] == Configured(g, |addresses|))
    && primaries.Keys == groups.Keys
    && (forall g: nat :: g in primaries ==> primaries[g] == g * GROUP_SIZE)
  }

  lemma NothingLaidOut()
    ensures LaidOut(map[], map[], map[], [])
  {
  }

  lemma OneMore(servers: map<nat, string>, groups: map<nat, set<nat>>, primaries: map<nat, nat>, addresses: seq<string>,
                address: string, groupId: nat, count: nat)
    requires LaidOut(servers, groups, primaries, addresses)
    requires count < GROUP_SIZE && |addresses| == groupId * GROUP_SIZE + count
    ensures var serverId := |addresses|;
            LaidOut(servers[serverId := address],
                    groups[groupId := (if groupId in groups then groups[groupId] else {}) + {serverId}],
                    if count == 0 then primaries[groupId := serverId] else primaries,
                    addresses + [address])
  {
    hide Configured;
    ConfiguredMore(|addresses|, groupId, count);
    hide Started;
    StartedMore(|addresses|, groupId, count);
  }

  class Master {
    var servers: map<nat, string>
    var groups: map<nat, set<nat>>
    var primaries: map<nat, nat>
    var userToGroup: map<string, nat>
    var groupCnt: nat
    var rrCounter: map<nat, nat>
    var deadServers: set<nat>
    var initServers: set<nat>
    var adminDown: set<nat>
    var changedGroup: map<nat, bool>

    constructor ()
      ensures servers == map[] && groups == map[] && userToGroup == map[] && groupCnt == 0 && rrCounter == map[]
      ensures State() == Failover.Master(map[], map[], {}, {}, {}, {})
    {
      servers, groups, primaries, userToGroup, groupCnt, rrCounter := map[], map[], map[], map[], 0, map[];
      deadServers, initServers, adminDown, changedGroup := {}, {}, {}, map[];
    }

    function Flagged(): set<nat>
      reads this`changedGroup
    {
      set x | x in changedGroup && changedGroup[x]
    }

    function State(): Failover.Master
      reads this
    {
      Failover.Master(groups, primaries, deadServers, initServers, adminDown, Flagged())
    }

    function Users(): Directory
      reads this`userToGroup, this`groupCnt
    {
      Directory(userToGroup, groupCnt)
    }

    function Counter(group: nat): nat
      reads this`rrCounter
    {
      if group in rrCounter then rrCounter[group] else 0
    }

    /** `configure`: servers in groups of `GROUP_SIZE`, in the order of the file, the first of each group its primary.
        */
    method Configure(addresses: seq<string>)
      requires servers == map[] && groups == map[] && primaries == map[] && initServers == {}
      modifies this`servers, this`groups, this`primaries, this`initServers
      ensures LaidOut(servers, groups, primaries, addresses) && initServers == servers.Keys
    {
      hide LaidOut;
      var serverId: nat, groupId: nat, count: nat := 0, 0, 0;
      NothingLaidOut();
      assert addresses[..0] == [];
      while serverId < |addresses|
        invariant serverId <= |addresses| && count < GROUP_SIZE && serverId == groupId * GROUP_SIZE + count
        invariant LaidOut(servers, groups, primaries, addresses[..serverId]) && initServers == servers.Keys
      {
        OneMore(servers, groups, primaries, addresses[..serverId], addresses[serverId], groupId, count);
        assert addresses[..serverId + 1] == addresses[..serverId] + [addresses[serverId]];
        servers := servers[serverId := addresses[serverId]];
        groups := groups[groupId := (if groupId in groups then groups[groupId] else {}) + {serverId}];
        if count == 0 {
          primaries := primaries[groupId := serverId];
        }
        count := count + 1;
        if count == GROUP_SIZE {
          groupId := groupId + 1;
          count := 0;
        }
        initServers := initServers + {serverId};
        serverId := serverId + 1;
      }
      assert addresses[..|addresses|] == addresses;
    }

    /** The search for a live server, from the group's counter on. */
    method Probe(groupId: nat) returns (found: bool, serverId: nat)
      modifies this`rrCounter
      ensures rrCounter == old(rrCounter)[groupId := Skip(old(Counter(groupId)), groupId, deadServers, GROUP_SIZE)]
      ensures serverId == ServerAt(rrCounter[groupId], groupId) && found == (serverId !in deadServers)
    {
      hide ServerAt; hide Skip;
      var start := Counter(groupId);
      rrCounter := rrCounter[groupId := start];
      serverId := ServerAt(start, groupId);
      found := false;
      var i := 0;
      while i < GROUP_SIZE
        invariant 0 <= i <= GROUP_SIZE && !found
        invariant rrCounter == old(rrCounter)[groupId := start + i] && serverId == ServerAt(start + i, groupId)
        invariant forall c: nat :: start <= c < start + i ==> !LiveAt(c, groupId, deadServers)
      {
        if serverId !in deadServers {
          found := true;
          SkipIs(start, groupId, deadServers, GROUP_SIZE, i);
          return;
        }
        rrCounter := rrCounter[groupId := rrCounter[groupId] + 1];
        serverId := ServerAt(rrCounter[groupId], groupId);
        i := i + 1;
      }
      SkipIs(start, groupId, deadServers, GROUP_SIZE, GROUP_SIZE);
      ServerAgain(start, groupId);
      assert !LiveAt(start, groupId, deadServers);
    }

    /** `Which`. An address is looked up with `servers[server_id]`, which makes an empty one for an id that is not
        configured. */
    method Which(user: string) returns (found: bool, address: string)
      modifies this`userToGroup, this`groupCnt, this`rrCounter, this`servers
      ensures Users() == Assign(old(Users()), user)
      ensures user in userToGroup
      ensures var group := userToGroup[user];
              var c := Choose(old(Counter(group)), group, deadServers);
              && found == c.found && rrCounter == old(rrCounter)[group := c.counter]
              && (found ==> address == if c.server in old(servers) then old(servers[c.server]) else "")
      ensures forall i :: i in old(servers) ==> i in servers && servers[i] == old(servers[i])
    {
      hide Skip;
      if user !in userToGroup {
        userToGroup := userToGroup[user := groupCnt % GROUP_SIZE];
        groupCnt := groupCnt + 1;
      }
      var groupId := userToGroup[user];
      var serverId;
      found, serverId := Probe(groupId);
      if serverId !in servers {
        servers := servers[serverId := ""];
      }
      address := servers[serverId];
      if found {
        rrCounter := rrCounter[groupId := (rrCounter[groupId] + 1) % GROUP_SIZE];
      }
    }

    method FlagGroup(members: set<nat>)
      modifies this`changedGroup
      ensures Flagged() == old(Flagged()) + members
    {
      var todo := members;
      while todo != {}
        invariant todo <= members && Flagged() == old(Flagged()) + (members - todo)
        decreases todo
      {
        var y :| y in todo;
        ghost var before := Flagged();
        changedGroup := changedGroup[y := true];
        assert Flagged() == before + {y};
        todo := todo - {y};
      }
    }

    /** The search for another primary: the first member met that is not dead. */
    method Elect(group: nat) returns (found: bool, heir: nat)
      requires group in groups
      modifies this`primaries
      ensures found == (groups[group] - deadServers != {})
      ensures found ==> heir in groups[group] - deadServers
      ensures primaries == if found then old(primaries)[group := heir] else old(primaries)
    {
      var todo := groups[group];
      found, heir := false, 0;
      while todo != {}
        invariant todo <= groups[group] && groups[group] - todo <= deadServers && !found
        invariant primaries == old(primaries)
        decreases todo
      {
        var x :| x in todo;
        if x !in deadServers {
          assert x in groups[group] - deadServers;
          primaries := primaries[group := x];
          found, heir := true, x;
          return;
        }
        todo := todo - {x};
      }
    }

    /** A turn of the loop in `heartbeat`, given whether `Alive` would be answered in time: nothing happens while an
        administrator keeps the server down. */
    method Heartbeat(group: nat, server: nat, alive: bool) returns (request: Option<Failover.Request>, ghost heir: nat)
      requires group in groups && group in primaries && server in groups[group]
      modifies this`primaries, this`deadServers, this`initServers, this`changedGroup
      ensures Failover.HeirOk(old(State()), group, server, heir)
      ensures request == if server in adminDown then None else Some(Failover.RequestFor(old(State()), group, server))
      ensures State() == if server in adminDown then old(State())
                         else Failover.AfterRound(old(State()), group, server, alive, heir)
    {
      heir := AnyHeir(group, server);
      if server in adminDown {
        return None, heir;
      }
      request := Some(Failover.Request(server in deadServers, server in changedGroup && changedGroup[server],
                                       primaries[group], (groups[group] - deadServers) - {primaries[group]}));
      changedGroup := changedGroup[server := !alive];
      assert Flagged() == if alive then old(Flagged()) - {server} else old(Flagged()) + {server};
      if server in initServers {
        if alive {
          initServers := initServers - {server};
        }
        return;
      }
      if server !in deadServers && !alive {
        deadServers := deadServers + {server};
        assert groups[group] - deadServers == groups[group] - old(deadServers) - {server};
        if server == primaries[group] {
          var found, x := Elect(group);
          if found {
            heir := x;
            FlagGroup(groups[group]);
          }
        }
      } else if server in deadServers && alive {
        deadServers := deadServers - {server};
        FlagGroup(groups[group]);
      }
    }

    /** Some live member other than `server`, if there is one. */
    ghost method AnyHeir(group: nat, server: nat) returns (heir: nat)
      requires group in groups
      ensures Failover.HeirOk(State(), group, server, heir)
    {
      heir := 0;
      if groups[group] - deadServers - {server} != {} {
        heir :| heir in groups[group] - deadServers - {server};
      }
    }

    method NodeTurnOff(group: nat, server: nat) returns (ghost heir: nat)
      requires group in groups && group in primaries && server in groups[group]
      modifies this`primaries, this`deadServers, this`adminDown, this`changedGroup
      ensures State() == Failover.AfterTurnOff(old(State()), group, server, heir)
      ensures Failover.HeirOk(old(State()), group, server, heir)
    {
      heir := AnyHeir(group, server);
      adminDown := adminDown + {server};
      deadServers := deadServers + {server};
      FlagGroup(groups[group]);
      assert groups[group] - deadServers == groups[group] - old(deadServers) - {server};
      if server == primaries[group] {
        var found, x := Elect(group);
        if found {
          heir := x;
          assert Flagged() + groups[group] == Flagged();
        }
      }
    }

    method NodeTurnOn(group: nat, server: nat)
      requires group in groups && server in groups[group]
      modifies this`adminDown, this`changedGroup
      ensures State() == Failover.AfterTurnOn(old(State()), group, server)
    {
      adminDown := adminDown - {server};
      FlagGroup(groups[group]);
    }
  }

  lemma ConfiguredMore(serverId: nat, groupId: nat, count: nat)
    requires count < GROUP_SIZE && serverId == groupId * GROUP_SIZE + count
    ensures Configured(groupId, serverId + 1) == Configured(groupId, serverId) + {serverId}
    ensures forall g: nat :: g != groupId ==> Configured(g, serverId + 1) == Configured(g, serverId)
    ensures count == 0 ==> Configured(groupId, serverId) == {}
  {
    DivModIs(groupId, count, GROUP_SIZE);
    forall x: nat | x / GROUP_SIZE == groupId ensures x >= groupId * GROUP_SIZE {
      assert x == x / GROUP_SIZE * GROUP_SIZE + x % GROUP_SIZE;
    }
  }

  lemma StartedMore(serverId: nat, groupId: nat, count: nat)
    requires count < GROUP_SIZE && serverId == groupId * GROUP_SIZE + count
    ensures Started(groupId, serverId) <==> count > 0
    ensures forall g: nat :: Started(g, serverId + 1) <==> Started(g, serverId) || g == groupId
  {
    forall g: nat | g != groupId ensures Started(g, serverId + 1) <==> Started(g, serverId) {
      if g < groupId {
        MulAtLeast(g, groupId, GROUP_SIZE);
      } else {
        MulAtLeast(groupId, g, GROUP_SIZE);
      }
    }
  }

  lemma InGroupIff(server: nat, group: nat)
    ensures InGroup(server, group) <==> server / GROUP_SIZE == group
  {
    if InGroup(server, group) {
      DivModIs(group, server - group * GROUP_SIZE, GROUP_SIZE);
    } else {
      assert server == server / GROUP_SIZE * GROUP_SIZE + server % GROUP_SIZE;
    }
  }

  lemma ConfiguredIs(group: nat, n: nat)
    ensures forall x: nat :: x in Configured(group, n) <==> x < n && InGroup(x, group)
  {
    forall x: nat ensures x in Configured(group, n) <==> x < n && InGroup(x, group) {
      InGroupIff(x, group);
    }
  }

  /** With `n` servers configured, a router's choice has an address exactly when its group is full, or is the last one
      and a configured member of it is live from the counter on. The source spreads users over `GROUP_SIZE` groups
      and looks through `GROUP_SIZE` members of each, however many there are. */
  lemma ChoiceIsConfiguredIff(counter: nat, group: nat, dead: set<nat>, n: nat)
    requires Choose(counter, group, dead).found && forall x :: x in dead ==> x < n
    ensures Choose(counter, group, dead).server < n <==>
              || group < n / GROUP_SIZE
              || (group == n / GROUP_SIZE
                  && exists p: nat :: counter % GROUP_SIZE <= p < n % GROUP_SIZE && LiveAt(p, group, dead))
  {
    hide Choose; hide LiveAt;
    var full := n / GROUP_SIZE;
    assert n == full * GROUP_SIZE + n % GROUP_SIZE;
    ChooseFailsIff(counter, group, dead);
    assert InGroup(Choose(counter, group, dead).server, group);
    if group < full {
      MulAtLeast(group, full, GROUP_SIZE);
    } else if group > full {
      MulAtLeast(full, group, GROUP_SIZE);
    } else {
      DivModIs(0, counter % GROUP_SIZE, GROUP_SIZE);
      ChooseReduced(counter, group, dead);
      ChoiceInLastGroupIff(counter % GROUP_SIZE, group, dead, n);
    }
  }

  lemma ChoiceInLastGroupIff(start: nat, group: nat, dead: set<nat>, n: nat)
    requires start < GROUP_SIZE && group == n / GROUP_SIZE && forall x :: x in dead ==> x < n
    ensures Choose(start, group, dead).server < n <==> exists p: nat :: start <= p < n % GROUP_SIZE && LiveAt(p, group, dead)
  {
    hide Skip;
    var rest := n % GROUP_SIZE;
    assert n == group * GROUP_SIZE + rest;
    DivModIs(0, start, GROUP_SIZE);
    DivModIs(0, rest, GROUP_SIZE);
    if start >= rest {
      SkipIs(start, group, dead, GROUP_SIZE, 0);
    } else {
      assert LiveAt(start + (rest - start), group, dead);
      var first := FirstLive(start, group, dead, rest - start);
      DivModIs(0, start + first, GROUP_SIZE);
      SkipIs(start, group, dead, GROUP_SIZE, first);
      if start + first < rest {
        assert LiveAt(start + first, group, dead);
      }
    }
  }

  lemma FirstOfGroup(group: nat, n: nat)
    requires group * GROUP_SIZE < n
    ensures group * GROUP_SIZE in Configured(group, n)
  {
    DivModIs(group, 0, GROUP_SIZE);
  }

  /** The groups of a configuration file are fit for failover; a full one is what the router takes it to be. */
  lemma LaidOutIsFit(servers: map<nat, string>, groups: map<nat, set<nat>>, primaries: map<nat, nat>, addresses: seq<string>)
    requires LaidOut(servers, groups, primaries, addresses)
    ensures Failover.GroupsOk(Failover.Master(groups, primaries, {}, servers.Keys, {}, {}))
    ensures forall g: nat :: (g + 1) * GROUP_SIZE <= |addresses| ==> g in groups && groups[g] == Members(g)
  {
    forall g | g in groups ensures primaries[g] in groups[g] {
      FirstOfGroup(g, |addresses|);
    }
    forall g, h | g in groups && h in groups && g != h ensures groups[g] !! groups[h] {
    }
    forall g: nat | (g + 1) * GROUP_SIZE <= |addresses| ensures g in groups && groups[g] == Members(g) {
      assert (g + 1) * GROUP_SIZE == g * GROUP_SIZE + GROUP_SIZE;
      ConfiguredIs(g, |addresses|);
    }
  }
}
