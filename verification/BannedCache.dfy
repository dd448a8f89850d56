/** The cache object, the middleware in front of it and the admin calls that evict from it, each
    run to completion before the next begins. */
module BannedCache {
  import opened Common
  import BanProtocol

  const TTL := BanProtocol.TTL

  /** The text of a token's subject. uuid.Parse accepts several spellings of one id; tokens are
      issued with the canonical one, and evictions use the canonical one. */
  datatype Subject = Canonical(id: nat) | Variant(id: nat, spelling: nat) | Malformed(text: string)

  datatype Entry = Entry(banned: bool, expiresAt: int)

  datatype Decision = Admitted | Forbidden | Unauthorized

  type Users = map<nat, bool>

  /** What a database query says about the user; a missing row is as good as a ban. */
  function Flag(users: Users, id: nat): bool { id in users ==> users[id] }

  /** The check without a cache. */
  function Uncached(users: Users, claims: Option<Subject>): Decision {
    match claims
    case None => Admitted
    case Some(Malformed(_)) => Unauthorized
    case Some(s) => if Flag(users, s.id) then Forbidden else Admitted
  }

  predicate Live(entries: map<Subject, Entry>, s: Subject, now: int) {
    s in entries && now <= entries[s].expiresAt
  }

  class Cache {
    var entries: map<Subject, Entry>

    constructor ()
      ensures entries == map[]
    {
      entries := map[];
    }

    method IsBanned(user: Subject, now: int) returns (banned: bool, ok: bool)
      modifies this
      ensures ok <==> Live(old(entries), user, now)
      ensures banned <==> ok && old(entries)[user].banned
      ensures entries == if ok then old(entries) else old(entries) - {user}
    {
      if user !in entries || now > entries[user].expiresAt {
        entries := entries - {user};
        return false, false;
      }
      return entries[user].banned, true;
    }

    method Set(user: Subject, banned: bool, now: int)
      modifies this
      ensures entries == old(entries)[user := Entry(banned, now + TTL)]
    {
      entries := entries[user := Entry(banned, now + TTL)];
    }

    method Evict(user: Subject)
      modifies this
      ensures entries == old(entries) - {user}
    {
      entries := entries - {user};
    }
  }

  // ----- Specification -----

  datatype World = World(users: Users, entries: map<Subject, Entry>, clock: int)

  datatype Op =
    // A request; `readOk` says whether the database answers, `delay` how long it takes.
    | Check(claims: Option<Subject>, readOk: bool, delay: nat)
    | SetBanned(id: nat, flag: bool, readOk: bool, writeOk: bool)
    | Wait(elapsed: nat)

  function Step(w: World, op: Op): World {
    match op
    case Wait(elapsed) => w.(clock := w.clock + elapsed)
    case SetBanned(id, flag, readOk, writeOk) =>
      if id in w.users && readOk && writeOk
      then w.(users := w.users[id := flag], entries := w.entries - {Canonical(id)}) else w
    case Check(None, _, _) => w
    case Check(Some(s), readOk, delay) =>
      if Live(w.entries, s, w.clock) then w
      else if s.Malformed? then w.(entries := w.entries - {s})
      else
        var banned := !readOk || Flag(w.users, s.id);
        w.(entries := w.entries[s := Entry(banned, w.clock + delay + TTL)], clock := w.clock + delay)
  }

  function Decide(w: World, op: Op): Decision
    requires op.Check?
  {
    match op.claims
    case None => Admitted
    case Some(s) =>
      if Live(w.entries, s, w.clock) then (if w.entries[s].banned then Forbidden else Admitted)
      else if s.Malformed? then Unauthorized
      else if !op.readOk || Flag(w.users, s.id) then Forbidden else Admitted
  }

  class Service {
    const cache: Cache
    var users: Users
    var clock: int

    constructor (users: Users, clock: int)
      ensures fresh(cache) && Abs() == World(users, map[], clock)
    {
      cache := new Cache();
      this.users, this.clock := users, clock;
    }

    ghost function Abs(): World
      reads this, cache
    {
      World(users, cache.entries, clock)
    }

    /** The middleware. A failed query counts as a ban and is cached like one. */
    method BannedCheck(claims: Option<Subject>, readOk: bool, delay: nat) returns (d: Decision)
      modifies this`clock, cache
      ensures Abs() == Step(old(Abs()), Check(claims, readOk, delay))
      ensures d == Decide(old(Abs()), Check(claims, readOk, delay))
      ensures claims.None? ==> d == Admitted
      ensures claims.Some? && Live(old(cache.entries), claims.value, old(clock)) ==>
        && d == (if old(cache.entries)[claims.value].banned then Forbidden else Admitted)
        && cache.entries == old(cache.entries) && clock == old(clock)
      ensures claims.Some? && !Live(old(cache.entries), claims.value, old(clock)) ==>
        var s := claims.value;
        if s.Malformed? then d == Unauthorized && cache.entries == old(cache.entries) - {s}
        else
          && d == (if readOk && s.id in users && !users[s.id] then Admitted else Forbidden)
          && clock == old(clock) + delay
          && cache.entries == old(cache.entries)[s := Entry(d == Forbidden, clock + TTL)]
    {
      if claims.None? { return Admitted; }
      var user := claims.value;
      var banned, ok := cache.IsBanned(user, clock);
      if ok {
        return if banned then Forbidden else Admitted;
      }
      if user.Malformed? { return Unauthorized; }
      var row := readOk && user.id in users;
      clock := clock + delay;
      if !row || users[user.id] {
        cache.Set(user, true, clock);
        return Forbidden;
      }
      cache.Set(user, false, clock);
      return Admitted;
    }

    /** BanUser (`flag` true) and UnbanUser; the result says whether the flag was written. */
    method SetUserBanned(id: nat, flag: bool, readOk: bool, writeOk: bool) returns (done: bool)
      modifies this`users, cache
      ensures Abs() == Step(old(Abs()), SetBanned(id, flag, readOk, writeOk))
      ensures done <==> id in old(users) && readOk && writeOk
      ensures users == if done then old(users)[id := flag] else old(users)
      ensures cache.entries == if done then old(cache.entries) - {Canonical(id)} else old(cache.entries)
    {
      if id !in users || !readOk { return false; }
      if !writeOk { return false; }
      users := users[id := flag];
      cache.Evict(Canonical(id));
      return true;
    }
  }

  // ----- Whole runs -----

  function Run(w: World, ops: seq<Op>): World
    decreases |ops|
  {
    if ops == [] then w else Run(Step(w, ops[0]), ops[1..])
  }

  /** Every entry repeats the database. */
  predicate Repeats(w: World) {
    forall s | s in w.entries :: !s.Malformed? && w.entries[s].banned == Flag(w.users, s.id)
  }

  predicate VariantCached(w: World, id: nat) { exists s | s in w.entries :: s.Variant? && s.id == id }

  /** The operations after which the cache still repeats the database: a check fails to be one only
      by a failing read for a user in good standing; a ban or unban only by changing the flag under
      an entry that its eviction misses. */
  predicate Harmless(w: World, op: Op) {
    match op
    case Wait(_) => true
    case SetBanned(id, flag, readOk, writeOk) =>
      (id in w.users && readOk && writeOk && w.users[id] != flag) ==> !VariantCached(w, id)
    case Check(None, _, _) => true
    case Check(Some(s), readOk, _) => Live(w.entries, s, w.clock) || s.Malformed? || readOk || Flag(w.users, s.id)
  }

  /** From a cache that repeats the database, the next one does so exactly if the operation is
      harmless. */
  lemma StepRepeatsExactly(w: World, op: Op)
    requires Repeats(w)
    ensures Repeats(Step(w, op)) <==> Harmless(w, op)
  {
    var t := Step(w, op);
    match op
    case Wait(_) =>
    case SetBanned(id, flag, readOk, writeOk) =>
      if !Harmless(w, op) {
        var s :| s in w.entries && s.Variant? && s.id == id;
        assert s in t.entries;
      }
    case Check(None, _, _) =>
    case Check(Some(s), _, _) =>
      if !Harmless(w, op) { assert s in t.entries; }
  }

  /** And a check is then decided as it would be without a cache exactly if it is harmless. */
  lemma DecidesExactly(w: World, op: Op)
    requires Repeats(w) && op.Check?
    ensures Decide(w, op) == Uncached(w.users, op.claims) <==> Harmless(w, op)
  {
  }

  predicate HarmlessThroughout(w: World, ops: seq<Op>)
    decreases |ops|
  {
    ops != [] ==> Harmless(w, ops[0]) && HarmlessThroughout(Step(w, ops[0]), ops[1..])
  }

  predicate RepeatsThroughout(w: World, ops: seq<Op>)
    decreases |ops|
  {
    Repeats(w) && (ops != [] ==> RepeatsThroughout(Step(w, ops[0]), ops[1..]))
  }

  /** Every request of the run is decided as it would be without a cache. */
  predicate DecidesThroughout(w: World, ops: seq<Op>)
    decreases |ops|
  {
    ops != [] ==>
      && (ops[0].Check? ==> Decide(w, ops[0]) == Uncached(w.users, ops[0].claims))
      && DecidesThroughout(Step(w, ops[0]), ops[1..])
  }

  /** The cache repeats the database all through a run if and only if each operation is harmless. */
  lemma {:induction false} RunRepeatsExactly(w: World, ops: seq<Op>)
    requires Repeats(w)
    ensures RepeatsThroughout(w, ops) <==> HarmlessThroughout(w, ops)
    decreases |ops|
  {
    if ops != [] {
      StepRepeatsExactly(w, ops[0]);
      if Harmless(w, ops[0]) { RunRepeatsExactly(Step(w, ops[0]), ops[1..]); }
    }
  }

  predicate SpelledCanonically(op: Op) {
    op.Check? && op.claims.Some? ==> !op.claims.value.Variant?
  }

  predicate AllCanonical(ops: seq<Op>) { forall i | 0 <= i < |ops| :: SpelledCanonically(ops[i]) }

  predicate NoVariants(w: World) { forall s | s in w.entries :: !s.Variant? }

  lemma CanonicalStep(w: World, op: Op)
    requires NoVariants(w) && SpelledCanonically(op)
    ensures NoVariants(Step(w, op)) && (!op.Check? ==> Harmless(w, op))
  {
  }

  /** Refinement, exactly: with the subjects that tokens are issued with, the middleware decides
      every request of a run as a check without a cache would, if and only if no read fails for a
      user in good standing without a live entry. */
  lemma {:induction false} RunRefinesExactly(w: World, ops: seq<Op>)
    requires Repeats(w) && NoVariants(w) && AllCanonical(ops)
    ensures DecidesThroughout(w, ops) <==> HarmlessThroughout(w, ops)
    decreases |ops|
  {
    if ops != [] {
      CanonicalStep(w, ops[0]);
      StepRepeatsExactly(w, ops[0]);
      if ops[0].Check? { DecidesExactly(w, ops[0]); }
      if Harmless(w, ops[0]) { RunRefinesExactly(Step(w, ops[0]), ops[1..]); }
    }
  }

  predicate ReadsSucceed(op: Op) { op.Check? ==> op.readOk }

  /** In particular, when reads succeed and subjects are canonical: every entry agrees with the
      database after every run, and every request is decided as without a cache. */
  lemma {:induction false} CacheRefinesQuery(w: World, ops: seq<Op>, op: Op)
    requires Repeats(w) && NoVariants(w) && AllCanonical(ops)
    requires forall i | 0 <= i < |ops| :: ReadsSucceed(ops[i])
    requires op.Check? && ReadsSucceed(op)
    ensures Repeats(Run(w, ops))
    ensures Decide(Run(w, ops), op) == Uncached(Run(w, ops).users, op.claims)
    decreases |ops|
  {
    if ops == [] {
      DecidesExactly(w, op);
    } else {
      CanonicalStep(w, ops[0]);
      StepRepeatsExactly(w, ops[0]);
      CacheRefinesQuery(Step(w, ops[0]), ops[1..], op);
    }
  }

  // ----- Failing reads -----

  /** An entry that admits has the database behind it. */
  predicate AdmitsOnlyCleared(w: World) {
    forall s | s in w.entries :: s.Canonical? && (!w.entries[s].banned ==> !Flag(w.users, s.id))
  }

  lemma StepAdmitsOnlyCleared(w: World, op: Op)
    requires SpelledCanonically(op) && AdmitsOnlyCleared(w)
    ensures AdmitsOnlyCleared(Step(w, op))
  {
  }

  /** Database failures can only refuse: whatever reads fail, an admitted request is one that a
      check without a cache would admit. */
  lemma {:induction false} FailuresNeverAdmit(w: World, ops: seq<Op>, op: Op)
    requires AdmitsOnlyCleared(w) && AllCanonical(ops)
    requires op.Check? && SpelledCanonically(op)
    requires Decide(Run(w, ops), op) == Admitted
    ensures Uncached(Run(w, ops).users, op.claims) == Admitted
    decreases |ops|
  {
    if ops != [] {
      StepAdmitsOnlyCleared(w, ops[0]);
      FailuresNeverAdmit(Step(w, ops[0]), ops[1..], op);
    }
  }

  /** The operation evicts that subject's entry, if it gets as far. */
  predicate Evicts(op: Op, s: Subject) { op.SetBanned? && op.readOk && op.writeOk && s == Canonical(op.id) }

  lemma ClockAdvances(w: World, op: Op)
    ensures w.clock <= Step(w, op).clock
  {
  }

  lemma {:induction false} RunClockAdvances(w: World, ops: seq<Op>)
    ensures w.clock <= Run(w, ops).clock
    decreases |ops|
  {
    if ops != [] {
      ClockAdvances(w, ops[0]);
      RunClockAdvances(Step(w, ops[0]), ops[1..]);
    }
  }

  /** An entry outlasts every operation before it expires, but for an eviction of its own subject. */
  lemma {:induction false} EntryLasts(w: World, ops: seq<Op>, s: Subject)
    requires Live(w.entries, s, w.clock) && Run(w, ops).clock <= w.entries[s].expiresAt
    requires forall i | 0 <= i < |ops| :: !Evicts(ops[i], s)
    ensures s in Run(w, ops).entries && Run(w, ops).entries[s] == w.entries[s]
    decreases |ops|
  {
    if ops != [] {
      RunClockAdvances(Step(w, ops[0]), ops[1..]);
      assert !Evicts(ops[0], s);
      EntryLasts(Step(w, ops[0]), ops[1..], s);
    }
  }

  /** The user is in good standing and, once the time is past, no live entry says otherwise. */
  predicate ClearAfter(w: World, id: nat, time: int) {
    && id in w.users && !w.users[id]
    && (w.clock > time && Live(w.entries, Canonical(id), w.clock) ==> !w.entries[Canonical(id)].banned)
  }

  lemma ClearStep(w: World, op: Op, id: nat, time: int)
    requires ClearAfter(w, id, time) && !Evicts(op, Canonical(id)) && ReadsSucceed(op)
    requires Canonical(id) in w.entries && w.entries[Canonical(id)].banned ==>
               w.entries[Canonical(id)].expiresAt <= time
    ensures ClearAfter(Step(w, op), id, time)
    ensures var t := Step(w, op);
      Canonical(id) in t.entries && t.entries[Canonical(id)].banned ==> t.entries[Canonical(id)].expiresAt <= time
  {
  }

  lemma {:induction false} ClearRun(w: World, ops: seq<Op>, id: nat, time: int)
    requires ClearAfter(w, id, time)
    requires Canonical(id) in w.entries && w.entries[Canonical(id)].banned ==>
               w.entries[Canonical(id)].expiresAt <= time
    requires forall i | 0 <= i < |ops| :: !Evicts(ops[i], Canonical(id)) && ReadsSucceed(ops[i])
    ensures ClearAfter(Run(w, ops), id, time)
    decreases |ops|
  {
    if ops != [] {
      assert !Evicts(ops[0], Canonical(id)) && ReadsSucceed(ops[0]);
      ClearStep(w, ops[0], id, time);
      ClearRun(Step(w, ops[0]), ops[1..], id, time);
    }
  }

  /** One failed read shuts a user in good standing out. Whatever happens next, as long as no ban or
      unban of that user evicts the entry and no other read fails, the user is refused exactly until
      the TTL has passed. */
  lemma FailedReadLastsOneTtl(w: World, id: nat, delay: nat, ops: seq<Op>, next: nat)
    requires id in w.users && !w.users[id] && !Live(w.entries, Canonical(id), w.clock)
    requires forall i | 0 <= i < |ops| :: !Evicts(ops[i], Canonical(id)) && ReadsSucceed(ops[i])
    ensures
      var t := Run(Step(w, Check(Some(Canonical(id)), false, delay)), ops);
      Decide(t, Check(Some(Canonical(id)), true, next))
      == if t.clock <= w.clock + delay + TTL then Forbidden else Admitted
  {
    var u := Step(w, Check(Some(Canonical(id)), false, delay));
    var t := Run(u, ops);
    if t.clock <= w.clock + delay + TTL {
      EntryLasts(u, ops, Canonical(id));
    } else {
      ClearRun(u, ops, id, w.clock + delay + TTL);
    }
  }

  /** A ban or unban that succeeds ends that at once: the next check that can read decides by the
      flag just written. */
  lemma EvictionEndsRefusal(w: World, id: nat, flag: bool, next: nat)
    requires id in w.users
    ensures Decide(Step(w, SetBanned(id, flag, true, true)), Check(Some(Canonical(id)), true, next))
         == if flag then Forbidden else Admitted
  {
  }

  /** Why the results above ask for canonical subjects: the entry of any other spelling would decide
      its requests until it expired, whatever bans and unbans came in between. */
  lemma VariantOutlivesEviction(w: World, ops: seq<Op>, s: Subject, readOk: bool, next: nat)
    requires s.Variant? && Live(w.entries, s, w.clock) && Run(w, ops).clock <= w.entries[s].expiresAt
    ensures Decide(Run(w, ops), Check(Some(s), readOk, next)) == if w.entries[s].banned then Forbidden else Admitted
  {
    EntryLasts(w, ops, s);
  }
}
