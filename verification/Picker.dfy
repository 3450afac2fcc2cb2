/** internal/loadbalance/picker.go: produce calls go to the leader, consume calls round the followers. */
module Pickers {
  import opened Bytes
  import opened Arithmetic

  /** A sub-connection is only ever compared with others. */
  type SubConn = nat

  /** One ready connection with its is_leader attribute. */
  datatype Ready = Ready(conn: SubConn, isLeader: bool)

  datatype Routes = Routes(leader: Option<SubConn>, followers: seq<SubConn>, current: u64)

  // ----- Build -----

  function LeaderOf(previous: Option<SubConn>, ready: seq<Ready>): Option<SubConn> {
    if ready == [] then previous
    else if ready[|ready| - 1].isLeader then Some(ready[|ready| - 1].conn)
    else LeaderOf(previous, ready[..|ready| - 1])
  }

  function FollowersOf(ready: seq<Ready>): (fs: seq<SubConn>)
    ensures |fs| <= |ready|
  {
    if ready == [] then []
    else FollowersOf(ready[..|ready| - 1])
         + if ready[|ready| - 1].isLeader then [] else [ready[|ready| - 1].conn]
  }

  /** Build over the ready connections, in whatever order the map yields them. */
  function Rebuilt(p: Routes, ready: seq<Ready>): Routes {
    p.(leader := LeaderOf(p.leader, ready), followers := FollowersOf(ready))
  }

  predicate Distinct<T(==)>(s: seq<T>) {
    forall i, j | 0 <= i < j < |s| :: s[i] != s[j]
  }

  /** The connections are the keys of a map. */
  predicate Keyed(ready: seq<Ready>) {
    forall i, j | 0 <= i < j < |ready| :: ready[i].conn != ready[j].conn
  }

  lemma {:induction false} FollowersAre(ready: seq<Ready>, c: SubConn)
    ensures c in FollowersOf(ready) <==> Ready(c, false) in ready
  {
    if ready != [] {
      var front, last := ready[..|ready| - 1], ready[|ready| - 1];
      FollowersAre(front, c);
      assert ready == front + [last];
    }
  }

  lemma {:induction false} FollowersDistinct(ready: seq<Ready>)
    requires Keyed(ready)
    ensures Distinct(FollowersOf(ready))
  {
    if ready != [] {
      var front, last := ready[..|ready| - 1], ready[|ready| - 1];
      FollowersDistinct(front);
      FollowersAre(front, last.conn);
      assert forall i | 0 <= i < |front| :: front[i] == ready[i];
    }
  }

  ghost predicate HasLeader(ready: seq<Ready>) {
    exists i | 0 <= i < |ready| :: ready[i].isLeader
  }

  lemma HasLeaderSnoc(front: seq<Ready>, last: Ready)
    ensures HasLeader(front + [last]) <==> HasLeader(front) || last.isLeader
  {
    var ready := front + [last];
    if HasLeader(front) {
      var i :| 0 <= i < |front| && front[i].isLeader;
      assert ready[i].isLeader;
    }
    if last.isLeader {
      assert ready[|front|].isLeader;
    }
  }

  lemma {:induction false} LeaderIs(previous: Option<SubConn>, ready: seq<Ready>)
    ensures var l := LeaderOf(previous, ready);
            if HasLeader(ready) then l.Some? && Ready(l.value, true) in ready else l == previous
  {
    if ready != [] {
      hide HasLeader;
      var front, last := ready[..|ready| - 1], ready[|ready| - 1];
      assert ready == front + [last];
      HasLeaderSnoc(front, last);
      LeaderIs(previous, front);
      assert last.isLeader ==> last == Ready(last.conn, true);
    }
  }

  lemma LeaderInReady(ready: seq<Ready>)
    ensures HasLeader(ready) <==> LeaderReady(ready)
  {
    if HasLeader(ready) {
      var i :| 0 <= i < |ready| && ready[i].isLeader;
      assert ready[i] == Ready(ready[i].conn, true);
    }
  }

  /** Some ready connection is a leader. */
  ghost predicate LeaderReady(ready: seq<Ready>) {
    exists c: SubConn :: Ready(c, true) in ready
  }

  /** The routed leader is a ready leader. */
  predicate RoutesToLeader(q: Routes, ready: seq<Ready>) {
    q.leader.Some? && Ready(q.leader.value, true) in ready
  }

  /** Followers are exactly the ready non-leaders, so no leader is among them. The routed leader is a ready
      one, whichever of several the map yields last, if and only if there is one; otherwise the previous
      leader is kept, ready or not. */
  lemma BuildRoutes(p: Routes, ready: seq<Ready>)
    requires Keyed(ready)
    ensures var q := Rebuilt(p, ready);
            && Distinct(q.followers)
            && (forall c: SubConn :: c in q.followers <==> Ready(c, false) in ready)
            && (forall c: SubConn :: Ready(c, true) in ready ==> c !in q.followers)
            && (RoutesToLeader(q, ready) <==> LeaderReady(ready))
            && (!LeaderReady(ready) ==> q.leader == p.leader)
  {
    FollowersDistinct(ready);
    LeaderIs(p.leader, ready);
    forall c: SubConn ensures c in FollowersOf(ready) <==> Ready(c, false) in ready {
      FollowersAre(ready, c);
    }
    forall c: SubConn | Ready(c, true) in ready ensures c !in FollowersOf(ready) {
      var i :| 0 <= i < |ready| && ready[i] == Ready(c, true);
      FollowersAre(ready, c);
    }
    LeaderInReady(ready);
  }

  // ----- Pick -----

  /** strings.Contains. */
  predicate Contains(s: string, sub: string) {
    exists i | 0 <= i <= |s| :: sub <= s[i..]
  }

  lemma ContainsPart(a: string, sub: string, b: string)
    ensures Contains(a + sub + b, sub)
  {
    var s := a + sub + b;
    assert s[|a|..] == sub + b;
    assert sub <= s[|a|..];
  }

  /** A string contains exactly those that stand somewhere inside it. */
  lemma ContainsIff(s: string, sub: string)
    ensures Contains(s, sub) <==> exists a: string, b: string :: s == a + sub + b
  {
    if Contains(s, sub) {
      var i :| 0 <= i <= |s| && sub <= s[i..];
      assert s[i..] == sub + s[i + |sub|..];
      assert s == s[..i] + sub + s[i + |sub|..];
    }
    if a: string, b: string :| s == a + sub + b {
      ContainsPart(a, sub, b);
    }
  }

  /** A string without the first letter of another does not contain it. */
  lemma LacksFirst(s: string, sub: string)
    requires sub != [] && sub[0] !in s
    ensures !Contains(s, sub)
  {
  }

  /** nextFollower's index: the counter is a 64-bit word, incremented before use. */
  function Advance(current: u64): u64 {
    (current + 1) % U64
  }

  function Pick(p: Routes, fullMethod: string): (Routes, Option<SubConn>) {
    if Contains(fullMethod, "Produce") || p.followers == [] then (p, p.leader)
    else if Contains(fullMethod, "Consume") then
      var cur := Advance(p.current);
      (p.(current := cur), Some(p.followers[cur % |p.followers|]))
    else (p, None)
  }

  predicate IsConsume(fullMethod: string) {
    !Contains(fullMethod, "Produce") && Contains(fullMethod, "Consume")
  }

  /** How many of the calls are routed round the followers. */
  function Consumes(calls: seq<string>): (m: nat)
    ensures m <= |calls|
  {
    if calls == [] then 0 else (if IsConsume(calls[0]) then 1 else 0) + Consumes(calls[1..])
  }

  /** How many of the consume calls are given connection c. */
  function Chosen(p: Routes, calls: seq<string>, c: SubConn): nat
    decreases |calls|
  {
    if calls == [] then 0
    else
      var (q, conn) := Pick(p, calls[0]);
      (if IsConsume(calls[0]) && conn == Some(c) then 1 else 0) + Chosen(q, calls[1..], c)
  }

  lemma ConsumeNames(a: string, b: string)
    requires 'P' !in a && 'P' !in b
    ensures IsConsume(a + "Consume" + b)
  {
    hide Contains;
    ContainsPart(a, "Consume", b);
    LacksFirst(a + "Consume" + b, "Produce");
  }

  // ----- the service's methods -----

  const SERVICE: string := "/log.v1.Log/"

  /** The four streams and calls of the service that are balanced, by the names they are called by. */
  lemma ServiceMethods()
    ensures Contains(SERVICE + "Produce", "Produce") && Contains(SERVICE + "ProduceStream", "Produce")
    ensures IsConsume(SERVICE + "Consume") && IsConsume(SERVICE + "ConsumeStream")
    ensures !Contains(SERVICE + "GetServers", "Produce") && !Contains(SERVICE + "GetServers", "Consume")
  {
    hide Contains;
    ContainsPart(SERVICE, "Produce", "");
    ContainsPart(SERVICE, "Produce", "Stream");
    ConsumeNames(SERVICE, "");
    ConsumeNames(SERVICE, "Stream");
    LacksFirst(SERVICE + "GetServers", "Produce");
    LacksFirst(SERVICE + "GetServers", "Consume");
    assert SERVICE + "Produce" + "" == SERVICE + "Produce";
    assert SERVICE + "Produce" + "Stream" == SERVICE + "ProduceStream";
    assert SERVICE + "Consume" + "" == SERVICE + "Consume";
    assert SERVICE + "Consume" + "Stream" == SERVICE + "ConsumeStream";
  }

  /** Whatever the routes, the two produce methods get the leader and leave the counter alone; with followers, the two
      consume methods get the one the counter comes to, which moves on by one, and the listing of servers gets none;
      without followers every method gets the leader. */
  lemma ServiceRouted(p: Routes)
    ensures Pick(p, SERVICE + "Produce") == Pick(p, SERVICE + "ProduceStream") == (p, p.leader)
    ensures p.followers == [] ==> forall call: string :: Pick(p, call) == (p, p.leader)
    ensures p.followers != [] ==>
              var next := if p.current == 0xFFFF_FFFF_FFFF_FFFF then 0 else p.current + 1;
              && Pick(p, SERVICE + "Consume") == Pick(p, SERVICE + "ConsumeStream")
              && Pick(p, SERVICE + "Consume") == (p.(current := next), Some(p.followers[next % |p.followers|]))
              && Pick(p, SERVICE + "GetServers") == (p, None)
  {
    hide Contains;
    ServiceMethods();
    assert Advance(p.current) == if p.current == 0xFFFF_FFFF_FFFF_FFFF then 0 else p.current + 1;
  }

  // ----- rotation -----

  /** The residue after r among 0..n-1. */
  function Succ(r: nat, n: nat): nat {
    if r + 1 == n then 0 else r + 1
  }

  lemma ModSucc(x: nat, n: nat)
    requires n > 0
    ensures (x + 1) % n == Succ(x % n, n)
  {
    var q, r := x / n, x % n;
    assert x == q * n + r;
    if r + 1 == n {
      assert x + 1 == (q + 1) * n + 0;
      RemainderUnique(x + 1, q + 1, 0, n);
    } else {
      RemainderUnique(x + 1, q, r + 1, n);
    }
  }

  /** How often residue j comes up in m steps that start after residue r. */
  function Hits(r: nat, n: nat, m: nat, j: nat): nat
    decreases m
  {
    if m == 0 then 0
    else (if Succ(r, n) == j then 1 else 0) + Hits(Succ(r, n), n, m - 1, j)
  }

  /** Steps from r to the next j. */
  function Distance(r: nat, n: nat, j: nat): int {
    if r < j then j - r else j - r + n
  }

  lemma {:induction false} HitsOnce(r: nat, n: nat, m: nat, j: nat)
    requires r < n && j < n && m <= n
    ensures Hits(r, n, m, j) == if Distance(r, n, j) <= m then 1 else 0
    decreases m
  {
    if m > 0 {
      HitsOnce(Succ(r, n), n, m - 1, j);
    }
  }

  function After(r: nat, n: nat, m: nat): nat
    decreases m
  {
    if m == 0 then r else After(Succ(r, n), n, m - 1)
  }

  lemma {:induction false} AfterIs(r: nat, n: nat, m: nat)
    requires r < n && m <= n
    ensures After(r, n, m) == if r + m < n then r + m else r + m - n
    decreases m
  {
    if m > 0 {
      if r + 1 < n {
        AfterIs(r + 1, n, m - 1);
      } else {
        AfterIs(0, n, m - 1);
      }
    }
  }

  lemma {:induction false} HitsSplit(r: nat, n: nat, a: nat, b: nat, j: nat)
    ensures Hits(r, n, a + b, j) == Hits(r, n, a, j) + Hits(After(r, n, a), n, b, j)
    decreases a
  {
    if a > 0 {
      HitsSplit(Succ(r, n), n, a - 1, b, j);
    }
  }

  /** In any m consecutive steps each residue comes up floor(m/n) or ceil(m/n) times. */
  lemma {:induction false} HitsFair(r: nat, n: nat, m: nat, j: nat)
    requires r < n && j < n
    ensures m / n <= Hits(r, n, m, j) <= (m + n - 1) / n
    decreases m
  {
    if m < n {
      HitsOnce(r, n, m, j);
      SmallQuotients(m, n);
    } else {
      HitsSplit(r, n, n, m - n, j);
      HitsOnce(r, n, n, j);
      AfterIs(r, n, n);
      HitsFair(r, n, m - n, j);
      QuotientStep(m, n);
    }
  }

  // ----- routing -----

  /** The routes after a sequence of calls. */
  function AfterCalls(p: Routes, calls: seq<string>): Routes {
    if calls == [] then p else Pick(AfterCalls(p, calls[..|calls| - 1]), calls[|calls| - 1]).0
  }

  lemma {:induction false} CallsKeepRoutes(p: Routes, calls: seq<string>)
    ensures AfterCalls(p, calls).leader == p.leader && AfterCalls(p, calls).followers == p.followers
  {
    hide Contains;
    if calls != [] {
      CallsKeepRoutes(p, calls[..|calls| - 1]);
    }
  }

  /** After a Build and any calls since, a produce call gets a ready leader if and only if the Build saw one.
      With exactly one, produce always gets it, and a consume call gets a ready follower, never the leader,
      unless there is no follower at all. */
  lemma RoutedAfterBuild(p: Routes, ready: seq<Ready>, calls: seq<string>, call: string)
    requires Keyed(ready)
    ensures var q := AfterCalls(Rebuilt(p, ready), calls);
            && (RoutesToLeader(q, ready) <==> LeaderReady(ready))
            && (Contains(call, "Produce") ==>
                  (LeaderReady(ready)
                   <==> Pick(q, call).1.Some? && Ready(Pick(q, call).1.value, true) in ready))
            && (IsConsume(call) && q.followers == [] ==> Pick(q, call).1 == q.leader)
            && (IsConsume(call) && q.followers != [] ==>
                  Pick(q, call).1.Some? && Ready(Pick(q, call).1.value, false) in ready
                  && Ready(Pick(q, call).1.value, true) !in ready)
    ensures forall c: SubConn | OnlyLeader(ready, c) && Contains(call, "Produce") ::
              Pick(AfterCalls(Rebuilt(p, ready), calls), call).1 == Some(c)
  {
    hide Contains, AfterCalls, Rebuilt;
    BuildRoutes(p, ready);
    CallsKeepRoutes(Rebuilt(p, ready), calls);
    var q := AfterCalls(Rebuilt(p, ready), calls);
    if IsConsume(call) && q.followers != [] {
      assert Pick(q, call).1.value in q.followers;
    }
  }

  ghost predicate OnlyLeader(ready: seq<Ready>, c: SubConn) {
    && Ready(c, true) in ready
    && forall d: SubConn :: Ready(d, true) in ready ==> d == c
  }

  /** The failing input: the leader steps down and stays ready as a follower. It is still routed to, so a
      produce call goes to a connection the Build was told is not the leader. */
  lemma StaleLeader(p: Routes, c: SubConn, call: string)
    requires p.leader == Some(c) && Contains(call, "Produce")
    ensures var ready := [Ready(c, false)];
            && Keyed(ready) && !LeaderReady(ready)
            && Rebuilt(p, ready).followers == [c]
            && Pick(Rebuilt(p, ready), call).1 == Some(c)
  {
    hide Contains;
    var ready := [Ready(c, false)];
    assert ready[..0] == [];
    assert LeaderOf(p.leader, ready[..0]) == p.leader;
    assert forall r :: r in ready ==> r == Ready(c, false);
  }

  // ----- the counter over Builds and calls -----

  datatype PickerEvent = Build(ready: seq<Ready>) | Call(fullMethod: string)

  function AfterEvents(p: Routes, events: seq<PickerEvent>): Routes {
    if events == [] then p
    else
      var q := AfterEvents(p, events[..|events| - 1]);
      match events[|events| - 1]
      case Build(ready) => Rebuilt(q, ready)
      case Call(fullMethod) => Pick(q, fullMethod).0
  }

  /** The ready connections the last Build saw, if there was one. */
  function LastBuild(events: seq<PickerEvent>): Option<seq<Ready>> {
    if events == [] then None
    else
      match events[|events| - 1]
      case Build(ready) => Some(ready)
      case Call(_) => LastBuild(events[..|events| - 1])
  }

  /** How many calls have been sent round the followers, given that there were none before the first Build. */
  function Served(events: seq<PickerEvent>): (m: nat)
    ensures m <= |events|
  {
    if events == [] then 0
    else
      var before := events[..|events| - 1];
      Served(before)
      + match events[|events| - 1]
        case Build(_) => 0
        case Call(fullMethod) =>
          if IsConsume(fullMethod) && LastBuild(before).Some? && FollowersOf(LastBuild(before).value) != [] then 1
          else 0
  }

  /** A picker's whole life, from new: its followers are those of the last Build, and its counter is the number of
      calls served by followers so far, in 64 bits. A Build does not restart the rotation. */
  lemma {:induction false} CounterGoesOn(events: seq<PickerEvent>)
    ensures var q := AfterEvents(Routes(None, [], 0), events);
            && q.current == Served(events) % U64
            && q.followers == match LastBuild(events)
                              case None => []
                              case Some(ready) => FollowersOf(ready)
  {
    hide Contains, FollowersOf, LeaderOf;
    if events != [] {
      CounterGoesOn(events[..|events| - 1]);
      NextInWord(Served(events[..|events| - 1]));
    }
  }

  lemma NextInWord(m: nat)
    ensures Advance(m % U64) == (m + 1) % U64
  {
  }

  /** So the call that follows a history gets, if it is a consume call and there are followers, the one at the
      position that number of served calls comes to. */
  lemma NextPick(events: seq<PickerEvent>, call: string)
    requires IsConsume(call) && LastBuild(events).Some? && FollowersOf(LastBuild(events).value) != []
    ensures var fs := FollowersOf(LastBuild(events).value);
            Pick(AfterEvents(Routes(None, [], 0), events), call).1
            == Some(fs[(Served(events) + 1) % U64 % |fs|])
  {
    hide Contains, FollowersOf, AfterEvents, Served, LastBuild;
    CounterGoesOn(events);
    NextInWord(Served(events));
  }

  // ----- fairness of picks -----

  /** Whether the counter can be advanced `steps` times without breaking the rotation: it does not wrap, or
      the wrap goes unnoticed because the number of followers divides 2^64. */
  predicate Unbroken(p: Routes, steps: nat) {
    |p.followers| > 0 && (U64 % |p.followers| == 0 || p.current + steps < U64)
  }

  lemma ZeroRemainder(n: nat)
    requires n > 0
    ensures 0 % n == 0
  {
    RemainderUnique(0, 0, 0, n);
  }

  lemma PickConsume(p: Routes, call: string)
    requires Unbroken(p, 1)
    ensures IsConsume(call) ==>
              && Pick(p, call).0 == p.(current := Advance(p.current))
              && Pick(p, call).1 == Some(p.followers[Succ(p.current % |p.followers|, |p.followers|)])
              && Advance(p.current) % |p.followers| == Succ(p.current % |p.followers|, |p.followers|)
    ensures !IsConsume(call) ==> Pick(p, call).0 == p
  {
    ModSucc(p.current, |p.followers|);
    ZeroRemainder(|p.followers|);
  }

  lemma {:induction false} ChosenIsHits(p: Routes, calls: seq<string>, j: nat)
    requires Distinct(p.followers) && j < |p.followers| && Unbroken(p, Consumes(calls))
    ensures var n := |p.followers|;
            Chosen(p, calls, p.followers[j]) == Hits(p.current % n, n, Consumes(calls), j)
    decreases |calls|
  {
    hide Pick, Contains;
    if calls != [] {
      if IsConsume(calls[0]) {
        PickConsume(p, calls[0]);
        ChosenIsHits(p.(current := Advance(p.current)), calls[1..], j);
      } else {
        OtherCall(p, calls[0]);
        ChosenIsHits(p, calls[1..], j);
      }
    }
  }

  lemma OtherCall(p: Routes, call: string)
    requires !IsConsume(call)
    ensures Pick(p, call).0 == p
  {
  }

  /** Follower j gets floor(m/n) or ceil(m/n) of the m consume calls. */
  predicate Fair(p: Routes, calls: seq<string>, j: nat)
    requires j < |p.followers|
  {
    var m, n := Consumes(calls), |p.followers|;
    m / n <= Chosen(p, calls, p.followers[j]) <= (m + n - 1) / n
  }

  /** Round-robin fairness: in any sequence of calls between two Builds, whatever other calls are mixed in,
      every follower gets its share of the consume calls, as long as these do not wrap the counter or the
      number of followers divides 2^64. */
  lemma RoundRobin(p: Routes, calls: seq<string>, j: nat)
    requires Distinct(p.followers) && j < |p.followers| && Unbroken(p, Consumes(calls))
    ensures Fair(p, calls, j)
  {
    hide Pick, IsConsume, Contains, Hits, Chosen, Consumes;
    ChosenIsHits(p, calls, j);
    HitsFair(p.current % |p.followers|, |p.followers|, Consumes(calls), j);
  }

  // ----- across the wrap -----

  /** Fair over every window of calls, wherever the counter stands. */
  ghost predicate AlwaysFair(n: nat) {
    forall p: Routes, calls: seq<string>, j: nat
      | Distinct(p.followers) && |p.followers| == n && j < n :: Fair(p, calls, j)
  }

  const CONSUME: string := "Consume"

  function Repeated(k: nat): (calls: seq<string>)
    ensures |calls| == k
  {
    if k == 0 then [] else [CONSUME] + Repeated(k - 1)
  }

  lemma ConsumeCall()
    ensures IsConsume(CONSUME)
  {
    hide Contains;
    ConsumeNames("", "");
    assert "" + "Consume" + "" == CONSUME;
  }

  lemma {:induction false} RepeatedConsumes(k: nat)
    ensures Consumes(Repeated(k)) == k
  {
    hide IsConsume;
    if k > 0 {
      ConsumeCall();
      RepeatedConsumes(k - 1);
      assert Repeated(k)[1..] == Repeated(k - 1);
    }
  }

  lemma ChosenStep(p: Routes, k: nat, j: nat, at: nat)
    requires j < |p.followers| && Distinct(p.followers) && at == Advance(p.current) % |p.followers|
    ensures Chosen(p, Repeated(k + 1), p.followers[j])
            == (if at == j then 1 else 0)
               + Chosen(p.(current := Advance(p.current)), Repeated(k), p.followers[j])
  {
    ConsumeCall();
    hide Contains;
    assert Repeated(k + 1)[1..] == Repeated(k);
  }

  lemma WrapResidue(n: nat)
    requires n > 0 && U64 % n != 0
    ensures (U64 - 1) % n + 2 <= n
  {
    ModSucc(U64 - 1, n);
  }

  lemma AfterWrap(z: Routes, j: nat)
    requires j < |z.followers| && j < U64 && Distinct(z.followers) && z.current == 0
    ensures Chosen(z, Repeated(j), z.followers[j]) == if j == 0 then 0 else 1
  {
    hide Chosen, Repeated, Hits, IsConsume;
    ZeroRemainder(|z.followers|);
    RepeatedConsumes(j);
    ChosenIsHits(z, Repeated(j), j);
    HitsOnce(0, |z.followers|, j, j);
  }

  /** Counting the picks of follower j over j + 2 calls that straddle the wrap. */
  lemma PickedTwice(p: Routes, j: nat)
    requires j < |p.followers| && j == (U64 - 1) % |p.followers|
    requires Distinct(p.followers) && p.current == U64 - 2
    ensures Chosen(p, Repeated(j + 2), p.followers[j]) == 2
  {
    hide Chosen, Repeated;
    ZeroRemainder(|p.followers|);
    RemainderAtMost(U64 - 1, |p.followers|);
    ChosenStep(p, j + 1, j, j);
    ChosenStep(p.(current := U64 - 1), j, j, 0);
    AfterWrap(p.(current := 0), j);
  }

  /** The unfair window when n does not divide 2^64: the follower picked last before the wrap comes round
      again before a whole turn has passed. */
  lemma UnfairWindow(n: nat, p: Routes) returns (calls: seq<string>, j: nat)
    requires n > 0 && U64 % n != 0
    requires Distinct(p.followers) && |p.followers| == n && p.current == U64 - 2
    ensures j < n && !Fair(p, calls, j)
  {
    hide Chosen, Repeated, Consumes;
    WrapResidue(n);
    j := (U64 - 1) % n;
    calls := Repeated(j + 2);
    RepeatedConsumes(j + 2);
    PickedTwice(p, j);
    OneTurn(j + 2, n);
  }

  lemma OneTurn(m: nat, n: nat)
    requires 0 < m <= n
    ensures (m + n - 1) / n == 1
  {
    if m < n {
      SmallQuotients(m, n);
    } else {
      DividesStep(n - 1, n);
      SmallQuotients(n - 1, n);
    }
  }

  /** Fairness over every window, wraps included, holds if and only if the number of followers divides
      2^64. */
  lemma FairAcrossWraps(n: nat)
    requires n > 0
    ensures AlwaysFair(n) <==> U64 % n == 0
  {
    hide Fair;
    if U64 % n == 0 {
      forall p: Routes, calls: seq<string>, j: nat
        | Distinct(p.followers) && |p.followers| == n && j < n
        ensures Fair(p, calls, j)
      {
        RoundRobin(p, calls, j);
      }
    } else {
      var p := Routes(None, seq(n, i requires 0 <= i < n => i), U64 - 2);
      var calls, j := UnfairWindow(n, p);
    }
  }

  /** The failing input: with three followers the same one is picked twice running at the wrap. */
  lemma ThreeFollowersRepeat(p: Routes)
    requires |p.followers| == 3 && p.current == U64 - 2
    ensures var (q, first) := Pick(p, CONSUME);
            first == Pick(q, CONSUME).1 == Some(p.followers[0])
  {
    ConsumeCall();
    hide Contains;
    assert (U64 - 1) % 3 == 0;
  }

  // ----- the picker -----

  class Picker {
    var leader: Option<SubConn>
    var followers: seq<SubConn>
    var current: u64

    ghost function Value(): Routes
      reads this
    {
      Routes(leader, followers, current)
    }

    constructor ()
      ensures Value() == Routes(None, [], 0)
    {
      leader, followers, current := None, [], 0;
    }

    method Build(ready: seq<Ready>)
      modifies this
      ensures Value() == Rebuilt(old(Value()), ready)
    {
      var fs: seq<SubConn>, i := [], 0;
      while i < |ready|
        invariant i <= |ready| && fs == FollowersOf(ready[..i])
        invariant leader == LeaderOf(old(leader), ready[..i])
        invariant followers == old(followers) && current == old(current)
      {
        assert ready[..i + 1][..i] == ready[..i];
        if ready[i].isLeader {
          leader := Some(ready[i].conn);
        } else {
          fs := fs + [ready[i].conn];
        }
        i := i + 1;
      }
      assert ready[..i] == ready;
      followers := fs;
    }

    /** None stands for the no-connection-available error. */
    method PickFor(fullMethod: string) returns (conn: Option<SubConn>)
      modifies this`current
      ensures (Value(), conn) == Pick(old(Value()), fullMethod)
    {
      conn := None;
      if Contains(fullMethod, "Produce") || |followers| == 0 {
        conn := leader;
      } else if Contains(fullMethod, "Consume") {
        current := Advance(current);
        conn := Some(followers[current % |followers|]);
      }
    }
  }
}
