/** The calls that nothing overlaps, as schedules of the ban protocol's steps. */
module BanRuns {
  import opened Common
  import P = BanProtocol
  import B = BannedCache

  /** The protocol's state between calls, and the world of the whole calls. */
  ghost predicate Matches(w: B.World, s: P.State) {
    && w.users == s.users && w.clock == s.clock && s.calls == map[]
    && (forall u: nat :: B.Canonical(u) in w.entries <==> u in s.cache)
    && (forall u | u in s.cache && B.Canonical(u) in w.entries ::
          w.entries[B.Canonical(u)] == B.Entry(s.cache[u].banned, s.cache[u].expiresAt))
  }

  /** The protocol steps of one operation, taken back to back by call 0. */
  function Schedule(w: B.World, op: B.Op): seq<P.Step> {
    match op
    case Wait(elapsed) => [P.Tick(elapsed)]
    case SetBanned(id, flag, readOk, writeOk) =>
      if readOk then WriteSteps(id, flag, writeOk) else []
    case Check(Some(Canonical(u)), readOk, delay) =>
      if B.Live(w.entries, B.Canonical(u), w.clock) then [P.Request(0, u)]
      else MissSteps(u, readOk, delay)
    case Check(_, _, _) => []
  }

  function WriteSteps(u: nat, flag: bool, writeOk: bool): seq<P.Step> {
    [P.SetBanned(0, u, flag)] + ([if writeOk then P.Proceed(0) else P.Fail(0)] + [P.Proceed(0)])
  }

  function MissSteps(u: nat, readOk: bool, delay: nat): seq<P.Step> {
    ([P.Request(0, u)] + [if readOk then P.Proceed(0) else P.Fail(0)]) + ([P.Tick(delay)] + [P.Proceed(0)])
  }

  lemma RunOne(s: P.State, a: P.Step)
    ensures P.Run(s, [a]) == P.Apply(s, a)
  {
    assert [a][1..] == [];
  }

  lemma RunTwo(s: P.State, a: P.Step, b: P.Step)
    ensures P.Run(s, [a] + [b]) == P.Apply(P.Apply(s, a), b)
  {
    P.RunConcat(0, s, [a], [b]);
    RunOne(s, a);
    RunOne(P.Apply(s, a), b);
  }

  /** The state after a miss and the database's answer, before the store. */
  function AfterRead(s: P.State, u: nat, readOk: bool): P.State {
    var banned := !readOk || B.Flag(s.users, u);
    s.(calls := map[0 := P.Store(u, banned, s.clock)], cache := s.cache - {u},
    clearances := if banned then s.clearances else s.clearances + {(u, s.clock)})
  }

  lemma QueryAnswered(s: P.State, u: nat, readOk: bool)
    requires s.calls == map[0 := P.Query(u)] && u !in s.cache
    ensures P.Apply(s, if readOk then P.Proceed(0) else P.Fail(0)) == AfterRead(s, u, readOk)
  {
    assert s.cache - {u} == s.cache;
  }

  lemma MissReads(s: P.State, u: nat, readOk: bool)
    requires s.calls == map[] && !P.Hit(s, u)
    ensures P.Run(s, [P.Request(0, u)] + [if readOk then P.Proceed(0) else P.Fail(0)]) == AfterRead(s, u, readOk)
  {
    var t := s.(calls := map[0 := P.Query(u)], cache := s.cache - {u});
    assert P.Apply(s, P.Request(0, u)) == t;
    assert t.cache - {u} == t.cache;
    QueryAnswered(t, u, readOk);
    RunTwo(s, P.Request(0, u), if readOk then P.Proceed(0) else P.Fail(0));
  }

  lemma Stores(s: P.State, u: nat, banned: bool, readAt: int)
    requires s.calls == map[0 := P.Store(u, banned, readAt)]
    ensures
      var t := P.Apply(s, P.Proceed(0));
      && t.users == s.users && t.calls == map[] && t.clock == s.clock
      && t.cache == s.cache[u := P.Entry(banned, s.clock + P.TTL, readAt)]
      && t.admitted == s.admitted + if banned then [] else [P.Admission(u, s.clock, readAt)]
  {
    assert s.calls - {0} == map[];
    assert s.admitted + [] == s.admitted;
  }

  /** A miss, from the consultation of the cache to the store. */
  lemma MissEffect(s: P.State, u: nat, readOk: bool, delay: nat)
    requires s.calls == map[] && !P.Hit(s, u)
    ensures
      var t := P.Run(s, MissSteps(u, readOk, delay));
      var banned := !readOk || B.Flag(s.users, u);
      && t.users == s.users && t.calls == map[] && t.clock == s.clock + delay
      && t.cache == (s.cache - {u})[u := P.Entry(banned, s.clock + delay + P.TTL, s.clock)]
      && t.admitted == s.admitted + if banned then [] else [P.Admission(u, s.clock + delay, s.clock)]
  {
    var read := [P.Request(0, u)] + [if readOk then P.Proceed(0) else P.Fail(0)];
    var s1 := AfterRead(s, u, readOk);
    var s2 := s1.(clock := s.clock + delay);
    MissReads(s, u, readOk);
    P.RunConcat(0, s, read, [P.Tick(delay)] + [P.Proceed(0)]);
    RunTwo(s1, P.Tick(delay), P.Proceed(0));
    assert P.Apply(s1, P.Tick(delay)) == s2;
    Stores(s2, u, !readOk || B.Flag(s.users, u), s.clock);
  }

  lemma FlagWritten(s: P.State, u: nat, flag: bool)
    requires s.calls == map[0 := P.WriteFlag(u, flag)] && u in s.users
    ensures
      var t := P.Apply(s, P.Proceed(0));
      && t.users == s.users[u := flag] && t.calls == map[0 := P.EvictEntry(u)]
      && t.cache == s.cache && t.clock == s.clock && t.admitted == s.admitted
  {
  }

  lemma EntryEvicted(s: P.State, u: nat)
    requires s.calls == map[0 := P.EvictEntry(u)]
    ensures P.Apply(s, P.Proceed(0)) == s.(calls := map[], cache := s.cache - {u})
  {
    assert s.calls - {0} == map[];
  }

  lemma WriteFails(s: P.State, u: nat, flag: bool)
    requires s.calls == map[0 := P.WriteFlag(u, flag)]
    ensures P.Apply(s, P.Fail(0)) == s.(calls := map[])
  {
    assert s.calls - {0} == map[];
  }

  /** A ban or unban, from the read of the user to the eviction. */
  lemma WriteEffect(s: P.State, u: nat, flag: bool, writeOk: bool)
    requires s.calls == map[]
    ensures
      var t := P.Run(s, WriteSteps(u, flag, writeOk));
      var done := u in s.users && writeOk;
      && t.users == (if done then s.users[u := flag] else s.users)
      && t.cache == (if done then s.cache - {u} else s.cache)
      && t.calls == map[] && t.clock == s.clock && t.admitted == s.admitted
  {
    var second := if writeOk then P.Proceed(0) else P.Fail(0);
    var s1 := P.Apply(s, P.SetBanned(0, u, flag));
    P.RunConcat(0, s, [P.SetBanned(0, u, flag)], [second] + [P.Proceed(0)]);
    RunOne(s, P.SetBanned(0, u, flag));
    RunTwo(s1, second, P.Proceed(0));
    if u in s.users {
      assert s1 == s.(calls := map[0 := P.WriteFlag(u, flag)]);
      if writeOk {
        FlagWritten(s1, u, flag);
        EntryEvicted(P.Apply(s1, second), u);
      } else {
        WriteFails(s1, u, flag);
      }
    }
  }

  /** A request that the protocol admits is one that the middleware admits, and the other way round. */
  predicate SameDecision(w: B.World, op: B.Op, s: P.State, t: P.State) {
    if op.Check? && op.claims.Some? && op.claims.value.Canonical? && B.Decide(w, op) == B.Admitted
    then |t.admitted| == |s.admitted| + 1 && t.admitted[|s.admitted|].user == op.claims.value.id
    else t.admitted == s.admitted
  }

  lemma CheckIsInterleaving(w: B.World, op: B.Op, s: P.State)
    requires Matches(w, s) && op.Check? && op.claims.Some? && op.claims.value.Canonical?
    ensures Matches(B.Step(w, op), P.Run(s, Schedule(w, op)))
    ensures SameDecision(w, op, s, P.Run(s, Schedule(w, op)))
  {
    var u := op.claims.value.id;
    assert P.Hit(s, u) <==> B.Live(w.entries, B.Canonical(u), w.clock);
    if P.Hit(s, u) {
      RunOne(s, P.Request(0, u));
    } else {
      MissEffect(s, u, op.readOk, op.delay);
    }
  }

  /** A call that nothing overlaps does what its steps do in the interleaved protocol, and decides as
      they do. */
  lemma SerialIsInterleaving(w: B.World, op: B.Op, s: P.State)
    requires Matches(w, s) && B.SpelledCanonically(op)
    ensures Matches(B.Step(w, op), P.Run(s, Schedule(w, op)))
    ensures SameDecision(w, op, s, P.Run(s, Schedule(w, op)))
  {
    match op
    case Wait(elapsed) => RunOne(s, P.Tick(elapsed));
    case SetBanned(id, flag, readOk, writeOk) =>
      if readOk { WriteEffect(s, id, flag, writeOk); }
    case Check(Some(Canonical(_)), _, _) => CheckIsInterleaving(w, op, s);
    case Check(_, _, _) =>
  }

  function Schedules(w: B.World, ops: seq<B.Op>): seq<P.Step>
    decreases |ops|
  {
    if ops == [] then [] else Schedule(w, ops[0]) + Schedules(B.Step(w, ops[0]), ops[1..])
  }

  /** A run of calls without overlap is a run of the protocol, so its bound on staleness holds there. */
  lemma {:induction false} SerialRunIsInterleaving(w: B.World, ops: seq<B.Op>, s: P.State)
    requires Matches(w, s) && B.AllCanonical(ops)
    ensures Matches(B.Run(w, ops), P.Run(s, Schedules(w, ops)))
    decreases |ops|
  {
    if ops != [] {
      assert B.SpelledCanonically(ops[0]);
      SerialIsInterleaving(w, ops[0], s);
      SerialRunIsInterleaving(B.Step(w, ops[0]), ops[1..], P.Run(s, Schedule(w, ops[0])));
      P.RunConcat(0, s, Schedule(w, ops[0]), Schedules(B.Step(w, ops[0]), ops[1..]));
    }
  }
}
