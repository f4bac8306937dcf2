/** The router of kvstore/master.cpp:182-211: which group a user belongs to, and which live member of it answers
    next. */
module Routing {
  import opened Numbers

  /** 3 (kvstore/master.cpp:54). The source uses it both as the size of a group and as the number of groups. */
  const GROUP_SIZE: Positive

  function ServerAt(counter: nat, group: nat): nat {
    counter % GROUP_SIZE + group * GROUP_SIZE
  }

  predicate LiveAt(counter: nat, group: nat, dead: set<nat>) {
    ServerAt(counter, group) !in dead
  }

  predicate InGroup(server: nat, group: nat) {
    group * GROUP_SIZE <= server < group * GROUP_SIZE + GROUP_SIZE
  }

  function Members(group: nat): set<nat> {
    set x: nat | x < group * GROUP_SIZE + GROUP_SIZE && InGroup(x, group)
  }

  function Live(group: nat, dead: set<nat>): set<nat> {
    Members(group) - dead
  }

  /** The counter after skipping dead servers, at most `tries` of them. */
  function Skip(counter: nat, group: nat, dead: set<nat>, tries: nat): nat
    decreases tries
  {
    if tries == 0 || LiveAt(counter, group, dead) then counter else Skip(counter + 1, group, dead, tries - 1)
  }

  /** The server that answers, if any, and the counter after the call. */
  datatype Choice = Choice(found: bool, server: nat, counter: nat)

  function Choose(counter: nat, group: nat, dead: set<nat>): Choice {
    var c := Skip(counter, group, dead, GROUP_SIZE);
    if LiveAt(c, group, dead) then Choice(true, ServerAt(c, group), (c + 1) % GROUP_SIZE)
    else Choice(false, ServerAt(c, group), c)
  }

  // ---- The turn -------------------------------------------------------------------------------------

  lemma ServerIsMember(counter: nat, group: nat)
    ensures ServerAt(counter, group) in Members(group)
  {
  }

  /** Every member comes up within a turn. */
  lemma Reaches(counter: nat, group: nat, x: nat) returns (i: nat)
    requires x in Members(group)
    ensures i < GROUP_SIZE && ServerAt(counter + i, group) == x
  {
    var q, r, t := counter / GROUP_SIZE, counter % GROUP_SIZE, x - group * GROUP_SIZE;
    assert counter == q * GROUP_SIZE + r;
    if t >= r {
      i := t - r;
      DivModIs(q, t, GROUP_SIZE);
    } else {
      i := t + GROUP_SIZE - r;
      assert (q + 1) * GROUP_SIZE == q * GROUP_SIZE + GROUP_SIZE;
      DivModIs(q + 1, t, GROUP_SIZE);
    }
  }

  /** And only once. */
  lemma OnceATurn(counter: nat, group: nat, i: nat, j: nat)
    requires i < j < i + GROUP_SIZE
    ensures ServerAt(counter + i, group) != ServerAt(counter + j, group)
  {
    var a, b := (counter + i) / GROUP_SIZE, (counter + j) / GROUP_SIZE;
    assert counter + i == a * GROUP_SIZE + (counter + i) % GROUP_SIZE;
    assert counter + j == b * GROUP_SIZE + (counter + j) % GROUP_SIZE;
    if a < b { MulAtLeast(a, b, GROUP_SIZE); }
    if b < a { MulAtLeast(b, a, GROUP_SIZE); }
  }

  lemma ModAdd(c: nat)
    ensures (c + GROUP_SIZE) % GROUP_SIZE == c % GROUP_SIZE
  {
    var q, r := c / GROUP_SIZE, c % GROUP_SIZE;
    assert c == q * GROUP_SIZE + r;
    assert (q + 1) * GROUP_SIZE == q * GROUP_SIZE + GROUP_SIZE;
    DivModIs(q + 1, r, GROUP_SIZE);
  }

  lemma ServerAgain(counter: nat, group: nat)
    ensures ServerAt(counter + GROUP_SIZE, group) == ServerAt(counter, group)
  {
    ModAdd(counter);
  }

  lemma ModNext(c: nat)
    ensures (c + 1) % GROUP_SIZE == if c % GROUP_SIZE + 1 == GROUP_SIZE then 0 else c % GROUP_SIZE + 1
    ensures (c + 1) / GROUP_SIZE == c / GROUP_SIZE + if c % GROUP_SIZE + 1 == GROUP_SIZE then 1 else 0
  {
    var q, r := c / GROUP_SIZE, c % GROUP_SIZE;
    assert c == q * GROUP_SIZE + r;
    if r + 1 == GROUP_SIZE {
      assert (q + 1) * GROUP_SIZE == q * GROUP_SIZE + GROUP_SIZE;
      DivModIs(q + 1, 0, GROUP_SIZE);
    } else {
      DivModIs(q, r + 1, GROUP_SIZE);
    }
  }

  // ---- The search -----------------------------------------------------------------------------------

  /** The search stops at the first live server, if the tries last until then. */
  lemma {:induction false} SkipIs(counter: nat, group: nat, dead: set<nat>, tries: nat, i: nat)
    requires i <= tries && forall c: nat :: counter <= c < counter + i ==> !LiveAt(c, group, dead)
    requires i == tries || LiveAt(counter + i, group, dead)
    ensures Skip(counter, group, dead, tries) == counter + i
    decreases i
  {
    hide LiveAt;
    if i == 0 {
    } else {
      SkipIs(counter + 1, group, dead, tries - 1, i - 1);
    }
  }

  lemma {:induction false} FirstLive(counter: nat, group: nat, dead: set<nat>, i: nat) returns (first: nat)
    requires LiveAt(counter + i, group, dead)
    ensures first <= i && LiveAt(counter + first, group, dead)
    ensures forall c: nat :: counter <= c < counter + first ==> !LiveAt(c, group, dead)
    decreases i
  {
    hide LiveAt;
    if LiveAt(counter, group, dead) {
      first := 0;
    } else {
      var later := FirstLive(counter + 1, group, dead, i - 1);
      first := later + 1;
    }
  }

  /** A whole turn of tries looks at every member. */
  lemma SkipFindsLive(counter: nat, group: nat, dead: set<nat>)
    ensures LiveAt(Skip(counter, group, dead, GROUP_SIZE), group, dead) <==> Live(group, dead) != {}
  {
    if Live(group, dead) != {} {
      var x :| x in Live(group, dead);
      var i := Reaches(counter, group, x);
      var first := FirstLive(counter, group, dead, i);
      SkipIs(counter, group, dead, GROUP_SIZE, first);
    } else {
      ServerIsMember(Skip(counter, group, dead, GROUP_SIZE), group);
      assert forall x :: x in Members(group) ==> x !in Live(group, dead) ;
    }
  }

  /** `Which` fails exactly when every member of the group is dead, and answers with a live member otherwise. */
  lemma ChooseFailsIff(counter: nat, group: nat, dead: set<nat>)
    ensures var c := Choose(counter, group, dead);
            (!c.found <==> Members(group) <= dead) && (c.found ==> c.server in Live(group, dead))
  {
    hide Skip; hide Members; hide ServerAt;
    SkipFindsLive(counter, group, dead);
    ServerIsMember(Skip(counter, group, dead, GROUP_SIZE), group);
    if Live(group, dead) == {} {
      assert forall x :: x in Members(group) ==> x in dead by {
        forall x | x in Members(group) ensures x in dead { assert x !in Live(group, dead); }
      }
    }
  }

  /** One call, whatever has died or come back since the last: the first live member from the counter on answers and the
      counter goes to the place after it; if there is none, the counter has gone once around. */
  lemma ChoiceIsNext(counter: nat, group: nat, dead: set<nat>) returns (i: nat)
    ensures var c := Choose(counter, group, dead);
            && (forall j: nat :: counter <= j < counter + i ==> ServerAt(j, group) in dead)
            && (c.found ==> i < GROUP_SIZE && c.server == ServerAt(counter + i, group) && c.server !in dead
                            && c.counter == (counter + i + 1) % GROUP_SIZE)
            && (!c.found ==> i == GROUP_SIZE && c.counter % GROUP_SIZE == counter % GROUP_SIZE)
  {
    hide Skip; hide Members; hide ServerAt;
    if Live(group, dead) != {} {
      var x :| x in Live(group, dead);
      var last := Reaches(counter, group, x);
      i := FirstLive(counter, group, dead, last);
      SkipIs(counter, group, dead, GROUP_SIZE, i);
    } else {
      i := GROUP_SIZE;
      forall j: nat ensures !LiveAt(j, group, dead) {
        ServerIsMember(j, group);
        assert ServerAt(j, group) !in Live(group, dead);
      }
      SkipIs(counter, group, dead, GROUP_SIZE, GROUP_SIZE);
      ModAdd(counter);
    }
    forall j: nat | counter <= j < counter + i ensures ServerAt(j, group) in dead {
      assert !LiveAt(j, group, dead);
    }
  }

  // ---- Consecutive calls ----------------------------------------------------------------------------

  /** The servers that answer `n` calls in a row. */
  function Answers(counter: nat, group: nat, dead: set<nat>, n: nat): seq<nat>
    decreases n
  {
    if n == 0 then []
    else
      var c := Choose(counter, group, dead);
      [c.server] + Answers(c.counter, group, dead, n - 1)
  }

  lemma {:induction false} SkipReduced(a: nat, b: nat, group: nat, dead: set<nat>, tries: nat)
    requires a % GROUP_SIZE == b % GROUP_SIZE
    ensures Skip(a, group, dead, tries) % GROUP_SIZE == Skip(b, group, dead, tries) % GROUP_SIZE
    decreases tries
  {
    if tries == 0 {
    } else {
      ModNext(a);
      ModNext(b);
      SkipReduced(a + 1, b + 1, group, dead, tries - 1);
    }
  }

  /** The counter matters only up to a full turn. */
  lemma ChooseReduced(counter: nat, group: nat, dead: set<nat>)
    requires Live(group, dead) != {}
    ensures Choose(counter, group, dead) == Choose(counter % GROUP_SIZE, group, dead)
  {
    hide Skip; hide Live;
    var a, b := Skip(counter, group, dead, GROUP_SIZE), Skip(counter % GROUP_SIZE, group, dead, GROUP_SIZE);
    SkipFindsLive(counter, group, dead);
    SkipFindsLive(counter % GROUP_SIZE, group, dead);
    DivModIs(0, counter % GROUP_SIZE, GROUP_SIZE);
    SkipReduced(counter, counter % GROUP_SIZE, group, dead, GROUP_SIZE);
    ModNext(a);
    ModNext(b);
  }

  lemma AnswersReduced(counter: nat, group: nat, dead: set<nat>, n: nat)
    requires Live(group, dead) != {}
    ensures Answers(counter, group, dead, n) == Answers(counter % GROUP_SIZE, group, dead, n)
  {
    ChooseReduced(counter, group, dead);
  }

  lemma NextAnswer(counter: nat, group: nat, dead: set<nat>, n: nat)
    requires Live(group, dead) != {}
    ensures LiveAt(counter, group, dead) ==>
              Answers(counter, group, dead, n + 1) == [ServerAt(counter, group)] + Answers(counter + 1, group, dead, n)
    ensures !LiveAt(counter, group, dead) ==> Answers(counter, group, dead, n) == Answers(counter + 1, group, dead, n)
  {
    if LiveAt(counter, group, dead) {
      hide ServerAt;
      AnswersReduced(counter + 1, group, dead, n);
      assert Choose(counter, group, dead) == Choice(true, ServerAt(counter, group), (counter + 1) % GROUP_SIZE);
    } else {
      DeadIsSkipped(counter, group, dead);
    }
  }

  /** A dead server changes nothing: the search goes on to the next one that is not. */
  lemma DeadIsSkipped(counter: nat, group: nat, dead: set<nat>)
    requires Live(group, dead) != {} && !LiveAt(counter, group, dead)
    ensures Choose(counter, group, dead) == Choose(counter + 1, group, dead)
  {
    var x :| x in Live(group, dead);
    var i := Reaches(counter, group, x);
    var first := FirstLive(counter, group, dead, i);
    hide LiveAt;
    SkipIs(counter, group, dead, GROUP_SIZE, first);
    assert counter + 1 + (first - 1) == counter + first;
    SkipIs(counter + 1, group, dead, GROUP_SIZE, first - 1);
  }

  /** The live servers among the next `n`, in order. */
  function LiveFrom(counter: nat, group: nat, dead: set<nat>, n: nat): seq<nat>
    decreases n
  {
    if n == 0 then []
    else
      (if LiveAt(counter, group, dead) then [ServerAt(counter, group)] else [])
      + LiveFrom(counter + 1, group, dead, n - 1)
  }

  /** Consecutive calls are answered by the live members in turn, from the counter on. */
  lemma {:induction false} AnswersInOrder(counter: nat, group: nat, dead: set<nat>, n: nat)
    requires Live(group, dead) != {}
    ensures Answers(counter, group, dead, |LiveFrom(counter, group, dead, n)|) == LiveFrom(counter, group, dead, n)
    decreases n
  {
    hide Choose; hide LiveAt; hide ServerAt; hide Live;
    if n == 0 {
    } else {
      AnswersInOrder(counter + 1, group, dead, n - 1);
      NextAnswer(counter, group, dead, |LiveFrom(counter + 1, group, dead, n - 1)|);
    }
  }

  lemma {:induction false} LiveFromHas(counter: nat, group: nat, dead: set<nat>, n: nat, i: nat)
    requires i < n && LiveAt(counter + i, group, dead)
    ensures ServerAt(counter + i, group) in LiveFrom(counter, group, dead, n)
    decreases n
  {
    hide LiveAt; hide ServerAt;
    if i == 0 {
    } else {
      assert counter + 1 + (i - 1) == counter + i;
      LiveFromHas(counter + 1, group, dead, n - 1, i - 1);
    }
  }

  lemma {:induction false} LiveFromIs(counter: nat, group: nat, dead: set<nat>, n: nat, s: nat) returns (i: nat)
    requires s in LiveFrom(counter, group, dead, n)
    ensures i < n && ServerAt(counter + i, group) == s && s !in dead
    decreases n
  {
    hide ServerAt;
    if LiveAt(counter, group, dead) && s == ServerAt(counter, group) {
      i := 0;
    } else {
      var j := LiveFromIs(counter + 1, group, dead, n - 1, s);
      i := j + 1;
      assert counter + 1 + j == counter + i;
    }
  }

  predicate Distinct(xs: seq<nat>) {
    forall i, j :: 0 <= i < j < |xs| ==> xs[i] != xs[j]
  }

  lemma {:induction false} LiveFromDistinct(counter: nat, group: nat, dead: set<nat>, n: nat)
    requires n <= GROUP_SIZE
    ensures Distinct(LiveFrom(counter, group, dead, n))
    decreases n
  {
    hide ServerAt;
    if n == 0 {
    } else {
      var rest := LiveFrom(counter + 1, group, dead, n - 1);
      LiveFromDistinct(counter + 1, group, dead, n - 1);
      forall j | 0 <= j < |rest| ensures rest[j] != ServerAt(counter, group) {
        var i := LiveFromIs(counter + 1, group, dead, n - 1, rest[j]);
        assert counter + 0 == counter && counter + 1 + i == counter + (i + 1);
        OnceATurn(counter, group, 0, i + 1);
      }
    }
  }

  lemma {:induction false} DistinctCount(xs: seq<nat>, s: set<nat>)
    requires Distinct(xs)
    requires forall x :: x in xs <==> x in s
    ensures |xs| == |s| && (set x | x in xs) == s
    decreases |xs|
  {
    if xs == [] {
      assert s == {};
    } else {
      assert forall i :: 0 <= i < |xs[1..]| ==> xs[1..][i] == xs[i + 1];
      assert forall x :: x in xs[1..] <==> x in s - {xs[0]};
      DistinctCount(xs[1..], s - {xs[0]});
    }
  }

  /** A turn lists every live member once. */
  lemma LiveFromTurn(counter: nat, group: nat, dead: set<nat>)
    ensures var live := LiveFrom(counter, group, dead, GROUP_SIZE);
            && |live| == |Live(group, dead)|
            && Distinct(live)
            && (set s | s in live) == Live(group, dead)
  {
    hide LiveFrom; hide ServerAt; hide Members;
    var live := LiveFrom(counter, group, dead, GROUP_SIZE);
    LiveFromDistinct(counter, group, dead, GROUP_SIZE);
    forall x ensures x in live <==> x in Live(group, dead) {
      if x in live {
        var i := LiveFromIs(counter, group, dead, GROUP_SIZE, x);
        ServerIsMember(counter + i, group);
      }
      if x in Live(group, dead) {
        var i := Reaches(counter, group, x);
        LiveFromHas(counter, group, dead, GROUP_SIZE, i);
      }
    }
    DistinctCount(live, Live(group, dead));
  }

  /** Round robin: with a fixed set of dead servers, as many consecutive calls as the group has live members are
      answered by each of them exactly once, wherever the counter stands. */
  lemma EachLiveMemberOnce(counter: nat, group: nat, dead: set<nat>)
    requires Live(group, dead) != {}
    ensures var answers := Answers(counter, group, dead, |Live(group, dead)|);
            && |answers| == |Live(group, dead)|
            && Distinct(answers)
            && (set s | s in answers) == Live(group, dead)
  {
    hide Answers; hide LiveFrom; hide Live;
    LiveFromTurn(counter, group, dead);
    AnswersInOrder(counter, group, dead, GROUP_SIZE);
  }

  // ---- Users and groups -----------------------------------------------------------------------------

  /** `user_to_group` and `group_cnt`. */
  datatype Directory = Directory(groupOf: map<string, nat>, count: nat)

  function Assign(d: Directory, user: string): Directory {
    if user in d.groupOf then d else Directory(d.groupOf[user := d.count % GROUP_SIZE], d.count + 1)
  }

  function Population(d: Directory, group: nat): set<string> {
    set u | u in d.groupOf && d.groupOf[u] == group
  }

  /** Every group has had as many users as there were full turns, and those before the counter one more. */
  ghost predicate Even(d: Directory) {
    forall g: nat :: g < GROUP_SIZE ==>
      |Population(d, g)| == d.count / GROUP_SIZE + if g < d.count % GROUP_SIZE then 1 else 0
  }

  function AssignAll(d: Directory, users: seq<string>): Directory
    decreases |users|
  {
    if users == [] then d else AssignAll(Assign(d, users[0]), users[1..])
  }

  lemma AssignKeepsEven(d: Directory, user: string)
    requires Even(d)
    ensures Even(Assign(d, user))
    ensures forall u :: u in d.groupOf ==> u in Assign(d, user).groupOf && Assign(d, user).groupOf[u] == d.groupOf[u]
  {
    var d' := Assign(d, user);
    ModNext(d.count);
    if user !in d.groupOf {
      forall g: nat | g < GROUP_SIZE
        ensures |Population(d', g)| == d'.count / GROUP_SIZE + if g < d'.count % GROUP_SIZE then 1 else 0
      {
        assert |Population(d, g)| == d.count / GROUP_SIZE + if g < d.count % GROUP_SIZE then 1 else 0;
        if g == d.count % GROUP_SIZE {
          assert Population(d', g) == Population(d, g) + {user};
        } else {
          assert Population(d', g) == Population(d, g);
        }
      }
    }
  }

  /** Over every sequence of calls a user's group never changes and the groups' populations differ by at most one. */
  lemma {:induction false} GroupsStayEven(d: Directory, users: seq<string>)
    requires Even(d)
    ensures var d' := AssignAll(d, users);
            && Even(d')
            && (forall u :: u in d.groupOf ==> u in d'.groupOf && d'.groupOf[u] == d.groupOf[u])
            && (forall g: nat, h: nat :: g < GROUP_SIZE && h < GROUP_SIZE ==>
                  |Population(d', g)| <= |Population(d', h)| + 1)
    decreases |users|
  {
    hide Assign; hide Population;
    if users == [] {
    } else {
      AssignKeepsEven(d, users[0]);
      GroupsStayEven(Assign(d, users[0]), users[1..]);
    }
  }

  lemma NoUsersAreEven()
    ensures Even(Directory(map[], 0))
  {
    DivModIs(0, 0, GROUP_SIZE);
    assert forall g: nat :: Population(Directory(map[], 0), g) == {};
  }
}
