/** The ban cache under arbitrary interleaving: middleware calls and admin calls advance one
    database or cache operation at a time, and the clock moves freely between them. Users are
    named by their canonical ids, which key both the cache and its evictions. */
module BanProtocol {
  import opened Common

  type User = nat

  // Nanoseconds.
  const TTL := 60_000_000_000

  /** `readAt` is history: when the database was read for this entry. */
  datatype Entry = Entry(banned: bool, expiresAt: int, readAt: int)

  datatype Call =
    | Query(user: User)
    | Store(user: User, banned: bool, readAt: int)
    | WriteFlag(user: User, flag: bool)
    | EvictEntry(user: User)

  datatype Admission = Admission(user: User, at: int, readAt: int)

  /** `clearances` (database reads that found the user not banned), `admitted` and `bannedSince` are
      history: no step consults them. */
  datatype State = State(
    clock: int,
    users: map<User, bool>,
    cache: map<User, Entry>,
    calls: map<nat, Call>,
    clearances: set<(User, int)>,
    admitted: seq<Admission>,
    bannedSince: map<User, int>)

  function Start(clock: int, users: map<User, bool>): State {
    State(clock, users, map[], map[], {}, [], map u | u in users :: clock)
  }

  datatype Step =
    | Tick(elapsed: nat)
    | Register(user: User)
    // The middleware consults the cache.
    | Request(c: nat, user: User)
    // An admin call has found the user and will write the flag, then evict.
    | SetBanned(c: nat, user: User, flag: bool)
    | Proceed(c: nat)
    // The database operation of the call fails.
    | Fail(c: nat)

  function End(s: State, c: nat): State { s.(calls := s.calls - {c}) }

  function Begin(s: State, c: nat, call: Call): State { s.(calls := s.calls[c := call]) }

  function Admit(s: State, u: User, readAt: int): State {
    s.(admitted := s.admitted + [Admission(u, s.clock, readAt)])
  }

  predicate Hit(s: State, u: User) { u in s.cache && s.clock <= s.cache[u].expiresAt }

  predicate Banned(s: State, u: User) { u in s.users && s.users[u] }

  function Advance(s: State, c: nat): State
    requires c in s.calls
  {
    match s.calls[c]
    case Query(u) =>
      if u in s.users && !s.users[u]
      then Begin(s, c, Store(u, false, s.clock)).(clearances := s.clearances + {(u, s.clock)})
      else Begin(s, c, Store(u, true, s.clock))
    case Store(u, banned, readAt) =>
      var t := End(s, c).(cache := s.cache[u := Entry(banned, s.clock + TTL, readAt)]);
      if banned then t else Admit(t, u, readAt)
    case WriteFlag(u, flag) =>
      var t := Begin(s, c, EvictEntry(u));
      if u !in s.users then t
      else if flag && !s.users[u] then t.(users := s.users[u := true], bannedSince := s.bannedSince[u := s.clock])
      else t.(users := s.users[u := flag])
    case EvictEntry(u) => End(s, c).(cache := s.cache - {u})
  }

  function Apply(s: State, step: Step): State {
    match step
    case Tick(elapsed) => s.(clock := s.clock + elapsed)
    case Register(u) => if u in s.users then s else s.(users := s.users[u := false])
    case Request(c, u) =>
      if c in s.calls then s
      else if Hit(s, u) then (if s.cache[u].banned then s else Admit(s, u, s.cache[u].readAt))
      else Begin(s, c, Query(u)).(cache := s.cache - {u})
    case SetBanned(c, u, flag) =>
      if c !in s.calls && u in s.users then Begin(s, c, WriteFlag(u, flag)) else s
    case Proceed(c) => if c in s.calls then Advance(s, c) else s
    case Fail(c) =>
      if c !in s.calls || s.calls[c].Store? || s.calls[c].EvictEntry? then s
      else if s.calls[c].Query? then Begin(s, c, Store(s.calls[c].user, true, s.clock))
      else End(s, c)
  }

  function Run(s: State, steps: seq<Step>): State
    decreases |steps|
  {
    if steps == [] then s else Run(Apply(s, steps[0]), steps[1..])
  }

  /** The step does not store a database reading older than `lag`. */
  predicate Timely(lag: nat, s: State, step: Step) {
    step.Proceed? && step.c in s.calls && s.calls[step.c].Store? ==>
      s.clock <= s.calls[step.c].readAt + lag
  }

  predicate TimelyThroughout(lag: nat, s: State, steps: seq<Step>)
    decreases |steps|
  {
    steps != [] ==> Timely(lag, s, steps[0]) && TimelyThroughout(lag, Apply(s, steps[0]), steps[1..])
  }

  predicate BannedThroughout(s: State, steps: seq<Step>, u: User)
    decreases |steps|
  {
    Banned(s, u) && (steps != [] ==> BannedThroughout(Apply(s, steps[0]), steps[1..], u))
  }

  // ----- The invariant -----

  predicate ReadOk(s: State, r: (User, int)) {
    && r.1 <= s.clock
    && (Banned(s, r.0) ==> r.0 in s.bannedSince && r.1 <= s.bannedSince[r.0])
  }

  predicate SinceOk(s: State, u: User) {
    Banned(s, u) ==> u in s.bannedSince && s.bannedSince[u] <= s.clock
  }

  predicate EntryOk(lag: nat, s: State, u: User)
    requires u in s.cache
  {
    var e := s.cache[u];
    !e.banned ==> (u, e.readAt) in s.clearances && e.expiresAt <= e.readAt + lag + TTL
  }

  predicate CallOk(s: State, call: Call) {
    call.Store? && !call.banned ==> (call.user, call.readAt) in s.clearances
  }

  /** The admission rests on a database read that found the user not banned, and not long ago. */
  predicate AdmissionOk(lag: nat, s: State, a: Admission) {
    (a.user, a.readAt) in s.clearances && a.readAt <= a.at <= a.readAt + TTL + lag && a.at <= s.clock
  }

  predicate Inv(lag: nat, s: State) {
    && (forall r | r in s.clearances :: ReadOk(s, r))
    && (forall u | u in s.cache :: EntryOk(lag, s, u))
    && (forall c | c in s.calls :: CallOk(s, s.calls[c]))
    && (forall i | 0 <= i < |s.admitted| :: AdmissionOk(lag, s, s.admitted[i]))
    && (forall u | u in s.users :: SinceOk(s, u))
  }

  /** A user who is banned after a step was banned before it, since the same time, or has just
      been banned. */
  lemma BannedAfterStep(s: State, step: Step, u: User)
    requires Banned(Apply(s, step), u)
    ensures
      var t := Apply(s, step);
      || (Banned(s, u) && (u in s.bannedSince ==> u in t.bannedSince && t.bannedSince[u] == s.bannedSince[u]))
      || (u in t.bannedSince && t.bannedSince[u] == s.clock == t.clock && t.clearances == s.clearances)
  {
  }

  lemma SinceStaysOk(s: State, step: Step, u: User)
    requires SinceOk(s, u)
    ensures SinceOk(Apply(s, step), u)
  {
    if Banned(Apply(s, step), u) { BannedAfterStep(s, step, u); }
  }

  lemma NewClearance(s: State, step: Step, r: (User, int))
    requires r in Apply(s, step).clearances && r !in s.clearances
    ensures !Banned(Apply(s, step), r.0) && r.1 == s.clock == Apply(s, step).clock
    ensures r.0 in s.users && !s.users[r.0]
  {
  }

  lemma ClockAdvances(s: State, step: Step)
    ensures s.clock <= Apply(s, step).clock
  {
  }

  lemma ReadStaysOk(lag: nat, s: State, step: Step, r: (User, int))
    requires Inv(lag, s) && r in Apply(s, step).clearances
    ensures ReadOk(Apply(s, step), r)
  {
    ClockAdvances(s, step);
    if r !in s.clearances {
      NewClearance(s, step, r);
    } else {
      assert ReadOk(s, r);
      if Banned(Apply(s, step), r.0) { BannedAfterStep(s, step, r.0); }
    }
  }

  /** A step leaves each other call as it is; its own call it ends or moves on. */
  lemma OneCallMoves(s: State, step: Step, c: nat)
    requires c in Apply(s, step).calls && (c in s.calls ==> Apply(s, step).calls[c] != s.calls[c])
    ensures
      var t, now := Apply(s, step), Apply(s, step).calls[c];
      now.Store? && !now.banned ==>
        && now.readAt == s.clock && t.clearances == s.clearances + {(now.user, s.clock)}
        && now.user in s.users && !s.users[now.user]
  {
    if step.Proceed? && step.c in s.calls {
      match s.calls[step.c]
      case Query(_) =>
      case Store(_, _, _) =>
      case WriteFlag(_, _) =>
      case EvictEntry(_) =>
    }
  }

  lemma CallStaysOk(s: State, step: Step, c: nat)
    requires c in s.calls ==> CallOk(s, s.calls[c])
    requires c in Apply(s, step).calls
    ensures CallOk(Apply(s, step), Apply(s, step).calls[c])
  {
    ClearancesGrow(s, step);
    if c !in s.calls || Apply(s, step).calls[c] != s.calls[c] { OneCallMoves(s, step, c); }
  }

  lemma ClearancesGrow(s: State, step: Step)
    ensures s.clearances <= Apply(s, step).clearances
  {
  }

  lemma EntryStaysOk(lag: nat, s: State, step: Step, u: User)
    requires Inv(lag, s) && Timely(lag, s, step) && u in Apply(s, step).cache
    ensures EntryOk(lag, Apply(s, step), u)
  {
    if u in s.cache { assert EntryOk(lag, s, u); }
    if step.Proceed? && step.c in s.calls { assert CallOk(s, s.calls[step.c]); }
  }

  lemma HitAdmissionOk(lag: nat, s: State, step: Step)
    requires Inv(lag, s) && step.Request? && |Apply(s, step).admitted| > |s.admitted|
    ensures AdmissionOk(lag, Apply(s, step), Apply(s, step).admitted[|s.admitted|])
  {
    assert EntryOk(lag, s, step.user);
    assert ReadOk(s, (step.user, s.cache[step.user].readAt));
  }

  lemma StoreAdmissionOk(lag: nat, s: State, c: nat)
    requires Inv(lag, s) && c in s.calls && Timely(lag, s, Proceed(c)) && |Advance(s, c).admitted| > |s.admitted|
    ensures AdmissionOk(lag, Advance(s, c), Advance(s, c).admitted[|s.admitted|])
  {
    var call := s.calls[c];
    assert CallOk(s, call);
    assert ReadOk(s, (call.user, call.readAt));
  }

  lemma NewAdmission(s: State, step: Step)
    ensures s.admitted <= Apply(s, step).admitted && |Apply(s, step).admitted| <= |s.admitted| + 1
    ensures |Apply(s, step).admitted| > |s.admitted| ==> step.Request? || (step.Proceed? && step.c in s.calls)
  {
  }

  lemma AdmissionStaysOk(lag: nat, s: State, step: Step, i: nat)
    requires Inv(lag, s) && Timely(lag, s, step) && i < |Apply(s, step).admitted|
    ensures AdmissionOk(lag, Apply(s, step), Apply(s, step).admitted[i])
  {
    NewAdmission(s, step);
    if i < |s.admitted| {
      assert AdmissionOk(lag, s, s.admitted[i]);
      ClearancesGrow(s, step);
      ClockAdvances(s, step);
    } else if step.Request? {
      HitAdmissionOk(lag, s, step);
    } else {
      StoreAdmissionOk(lag, s, step.c);
    }
  }

  lemma ApplyKeepsInv(lag: nat, s: State, step: Step)
    requires Inv(lag, s) && Timely(lag, s, step)
    ensures Inv(lag, Apply(s, step))
  {
    var t := Apply(s, step);
    forall r | r in t.clearances ensures ReadOk(t, r) { ReadStaysOk(lag, s, step, r); }
    forall u | u in t.cache ensures EntryOk(lag, t, u) { EntryStaysOk(lag, s, step, u); }
    forall c | c in t.calls ensures CallOk(t, t.calls[c]) {
      assert c in s.calls ==> CallOk(s, s.calls[c]);
      CallStaysOk(s, step, c);
    }
    forall u | u in t.users ensures SinceOk(t, u) {
      assert u in s.users ==> SinceOk(s, u);
      SinceStaysOk(s, step, u);
    }
    forall i | 0 <= i < |t.admitted| ensures AdmissionOk(lag, t, t.admitted[i]) {
      AdmissionStaysOk(lag, s, step, i);
    }
  }

  lemma {:induction false} RunKeepsInv(lag: nat, s: State, steps: seq<Step>)
    requires Inv(lag, s) && TimelyThroughout(lag, s, steps)
    ensures Inv(lag, Run(s, steps))
    decreases |steps|
  {
    if steps != [] {
      ApplyKeepsInv(lag, s, steps[0]);
      RunKeepsInv(lag, Apply(s, steps[0]), steps[1..]);
    }
  }

  // ----- Main results -----

  /** Under every interleaving, a request admitted at time t rests on a database read, at some
      time in [t - TTL - lag, t], that found its user not banned. */
  lemma BoundedStaleness(lag: nat, clock: int, users: map<User, bool>, steps: seq<Step>, i: nat)
    requires TimelyThroughout(lag, Start(clock, users), steps)
    requires i < |Run(Start(clock, users), steps).admitted|
    ensures
      var s := Run(Start(clock, users), steps);
      var a := s.admitted[i];
      (a.user, a.readAt) in s.clearances && a.at - TTL - lag <= a.readAt <= a.at
  {
    RunKeepsInv(lag, Start(clock, users), steps);
    assert AdmissionOk(lag, Run(Start(clock, users), steps), Run(Start(clock, users), steps).admitted[i]);
  }

  lemma {:induction false} BanIsRemembered(s: State, steps: seq<Step>, u: User)
    requires BannedThroughout(s, steps, u) && u in s.bannedSince
    ensures
      var t := Run(s, steps);
      Banned(t, u) && u in t.bannedSince && t.bannedSince[u] == s.bannedSince[u]
    decreases |steps|
  {
    if steps != [] { BanIsRemembered(Apply(s, steps[0]), steps[1..], u); }
  }

  /** Once a ban is in the database and is not undone, no request of that user is admitted more
      than TTL + lag later. */
  lemma BanTakesHold(lag: nat, clock: int, users: map<User, bool>, before: seq<Step>, after: seq<Step>, u: User, i: nat)
    requires TimelyThroughout(lag, Start(clock, users), before)
    requires
      var s := Run(Start(clock, users), before);
      && TimelyThroughout(lag, s, after) && BannedThroughout(s, after, u)
      && i < |Run(s, after).admitted| && Run(s, after).admitted[i].user == u
    ensures
      var s := Run(Start(clock, users), before);
      Run(s, after).admitted[i].at <= s.clock + 60 * 1_000_000_000 + lag
  {
    var s := Run(Start(clock, users), before);
    var t := Run(s, after);
    RunKeepsInv(lag, Start(clock, users), before);
    RunKeepsInv(lag, s, after);
    assert SinceOk(s, u);
    BanIsRemembered(s, after, u);
    var a := t.admitted[i];
    assert AdmissionOk(lag, t, a);
    assert ReadOk(t, (a.user, a.readAt));
  }

  /** One step of each of the three recursions over a run. */
  lemma Unfold(lag: nat, u: User, s: State, step: Step, rest: seq<Step>)
    ensures
      var t := Apply(s, step);
      && Run(s, [step] + rest) == Run(t, rest)
      && TimelyThroughout(lag, s, [step] + rest) == (Timely(lag, s, step) && TimelyThroughout(lag, t, rest))
      && BannedThroughout(s, [step] + rest, u) == (Banned(s, u) && BannedThroughout(t, rest, u))
  {
    assert ([step] + rest)[1..] == rest;
  }

  function BanSteps(u: User): seq<Step> {
    [Proceed(0)] + ([SetBanned(1, u, true)] + ([Proceed(1)] + ([Proceed(1)] + [])))
  }

  /** A request reads the database, and then a ban runs to its end. */
  function OvertakenRead(u: User): seq<Step> { [Request(0, u)] + BanSteps(u) }

  /** From the start, a ban, eviction included, can slip in between a middleware call's database read
      and its store. */
  lemma BanOvertakesRead(lag: nat, clock: int, u: User)
    ensures
      var s, t := Start(clock, map[u := false]), Run(Start(clock, map[u := false]), OvertakenRead(u));
      && TimelyThroughout(lag, s, OvertakenRead(u))
      && Banned(t, u) && t.clock == clock && t.cache == map[] && t.admitted == []
      && t.calls == map[0 := Store(u, false, clock)]
  {
    var s0 := Start(clock, map[u := false]);
    var s := Apply(s0, Request(0, u));
    var s1 := Apply(s, Proceed(0));
    var s2 := Apply(s1, SetBanned(1, u, true));
    var s3 := Apply(s2, Proceed(1));
    var s4 := Apply(s3, Proceed(1));
    Unfold(lag, u, s0, Request(0, u), BanSteps(u));
    Unfold(lag, u, s, Proceed(0), [SetBanned(1, u, true)] + ([Proceed(1)] + ([Proceed(1)] + [])));
    Unfold(lag, u, s1, SetBanned(1, u, true), [Proceed(1)] + ([Proceed(1)] + []));
    Unfold(lag, u, s2, Proceed(1), [Proceed(1)] + []);
    Unfold(lag, u, s3, Proceed(1), []);
    assert s1.calls == map[0 := Store(u, false, clock)];
    assert s3.calls == s1.calls[1 := EvictEntry(u)];
    assert s4.calls == s1.calls;
  }

  lemma {:induction false} RunConcat(lag: nat, s: State, a: seq<Step>, b: seq<Step>)
    ensures Run(s, a + b) == Run(Run(s, a), b)
    ensures TimelyThroughout(lag, s, a + b) <==> TimelyThroughout(lag, s, a) && TimelyThroughout(lag, Run(s, a), b)
    decreases |a|
  {
    if a == [] {
      assert a + b == b;
    } else {
      assert (a + b)[1..] == a[1..] + b;
      RunConcat(lag, Apply(s, a[0]), a[1..], b);
    }
  }

  lemma StoreAdmits(s: State, u: User, readAt: int)
    requires s.calls == map[0 := Store(u, false, readAt)]
    ensures Apply(s, Proceed(0))
         == Admit(s, u, readAt).(calls := map[], cache := s.cache[u := Entry(false, s.clock + TTL, readAt)])
  {
    assert s.calls - {0} == map[];
  }

  function HitSteps(u: User): seq<Step> { [Tick(TTL)] + ([Request(1, u)] + []) }

  /** A fresh entry admits for a whole TTL. */
  lemma HitAtExpiry(lag: nat, s: State, u: User, readAt: int)
    requires Banned(s, u) && s.calls == map[] && u in s.cache
    requires s.cache[u] == Entry(false, s.clock + TTL, readAt)
    ensures TimelyThroughout(lag, s, HitSteps(u)) && BannedThroughout(s, HitSteps(u), u)
    ensures Run(s, HitSteps(u)).admitted == s.admitted + [Admission(u, s.clock + TTL, readAt)]
  {
    var s1 := s.(clock := s.clock + TTL);
    Unfold(lag, u, s, Tick(TTL), [Request(1, u)] + []);
    Unfold(lag, u, s1, Request(1, u), []);
    assert Apply(s1, Request(1, u)) == Admit(s1, u, readAt);
  }

  function StoreSteps(u: User): seq<Step> { [Proceed(0)] + HitSteps(u) }

  lemma StoreThenHit(lag: nat, s: State, u: User, readAt: int)
    requires Banned(s, u) && s.cache == map[] && s.admitted == []
    requires s.calls == map[0 := Store(u, false, readAt)] && s.clock == readAt + lag
    ensures TimelyThroughout(lag, s, StoreSteps(u)) && BannedThroughout(s, StoreSteps(u), u)
    ensures Run(s, StoreSteps(u)).admitted
         == [Admission(u, readAt + lag, readAt)] + [Admission(u, readAt + lag + TTL, readAt)]
  {
    var t := Admit(s, u, readAt).(calls := map[], cache := map[u := Entry(false, s.clock + TTL, readAt)]);
    StoreAdmits(s, u, readAt);
    Unfold(lag, u, s, Proceed(0), HitSteps(u));
    HitAtExpiry(lag, t, u, readAt);
  }

  lemma TickFirst(lag: nat, u: User, s: State, rest: seq<Step>)
    ensures
      var t := s.(clock := s.clock + lag);
      && Run(s, [Tick(lag)] + rest) == Run(t, rest)
      && TimelyThroughout(lag, s, [Tick(lag)] + rest) == TimelyThroughout(lag, t, rest)
      && BannedThroughout(s, [Tick(lag)] + rest, u) == (Banned(s, u) && BannedThroughout(t, rest, u))
  {
    Unfold(lag, u, s, Tick(lag), rest);
  }

  function LateSteps(lag: nat, u: User): seq<Step> { [Tick(lag)] + StoreSteps(u) }

  lemma LateStoreAdmits(lag: nat, s: State, u: User)
    requires Banned(s, u) && s.cache == map[] && s.admitted == []
    requires s.calls == map[0 := Store(u, false, s.clock)]
    ensures TimelyThroughout(lag, s, LateSteps(lag, u)) && BannedThroughout(s, LateSteps(lag, u), u)
    ensures Run(s, LateSteps(lag, u)).admitted
         == [Admission(u, s.clock + lag, s.clock)] + [Admission(u, s.clock + lag + TTL, s.clock)]
  {
    TickFirst(lag, u, s, StoreSteps(u));
    StoreThenHit(lag, s.(clock := s.clock + lag), u, s.clock);
  }

  /** The bound is attained, for every lag, by a run from the start: a call that read just before the
      ban and stores at the end of its lag lets another request in TTL + lag after the ban was
      written and its entry evicted. */
  lemma StalenessBoundIsAttained(lag: nat, clock: int, u: User)
    ensures
      var s := Start(clock, map[u := false]);
      var t := Run(s, OvertakenRead(u));
      && TimelyThroughout(lag, s, OvertakenRead(u) + LateSteps(lag, u))
      && t.clock == clock && BannedThroughout(t, LateSteps(lag, u), u)
      && Run(s, OvertakenRead(u) + LateSteps(lag, u)).admitted
      == [Admission(u, clock + lag, clock)] + [Admission(u, clock + lag + 60 * 1_000_000_000, clock)]
  {
    var s := Start(clock, map[u := false]);
    BanOvertakesRead(lag, clock, u);
    LateStoreAdmits(lag, Run(s, OvertakenRead(u)), u);
    RunConcat(lag, s, OvertakenRead(u), LateSteps(lag, u));
  }

  /** A middleware call that read `not banned` and has not yet stored it. */
  predicate StaleStore(call: Call, u: User) { call.Store? && call.user == u && !call.banned }

  predicate SomeStaleStore(s: State, u: User) { exists c | c in s.calls :: StaleStore(s.calls[c], u) }

  /** Nothing in the cache lets the user in; so it is right after an eviction. */
  predicate Evicted(s: State, u: User) { u in s.cache ==> s.cache[u].banned }

  predicate AdmitsAgain(s: State, steps: seq<Step>, u: User) {
    var t := Run(s, steps);
    BannedThroughout(s, steps, u) && exists i | |s.admitted| <= i < |t.admitted| :: t.admitted[i].user == u
  }

  lemma LockedStepAdmitsNone(s: State, step: Step, u: User)
    requires Banned(s, u) && Evicted(s, u) && !SomeStaleStore(s, u)
    ensures |Apply(s, step).admitted| <= |s.admitted| + 1
    ensures |s.admitted| < |Apply(s, step).admitted| ==> Apply(s, step).admitted[|s.admitted|].user != u
    ensures Evicted(Apply(s, step), u)
  {
    if step.Proceed? && step.c in s.calls { assert !StaleStore(s.calls[step.c], u); }
  }

  lemma LockedStepStaysLocked(s: State, step: Step, u: User)
    requires Banned(s, u) && !SomeStaleStore(s, u)
    ensures !SomeStaleStore(Apply(s, step), u)
  {
    var t := Apply(s, step);
    forall c | c in t.calls ensures !StaleStore(t.calls[c], u) {
      if c in s.calls { assert !StaleStore(s.calls[c], u); }
      if c !in s.calls || t.calls[c] != s.calls[c] { OneCallMoves(s, step, c); }
    }
  }

  lemma {:induction false} LockedRunAdmitsNone(s: State, steps: seq<Step>, u: User)
    requires BannedThroughout(s, steps, u) && Evicted(s, u) && !SomeStaleStore(s, u)
    ensures !AdmitsAgain(s, steps, u)
    decreases |steps|
  {
    if steps != [] {
      var t := Apply(s, steps[0]);
      NewAdmission(s, steps[0]);
      LockedStepAdmitsNone(s, steps[0], u);
      LockedStepStaysLocked(s, steps[0], u);
      LockedRunAdmitsNone(t, steps[1..], u);
      forall i | |s.admitted| <= i < |Run(s, steps).admitted| ensures Run(s, steps).admitted[i].user != u {
        RunAdmittedGrows(t, steps[1..]);
        if i < |t.admitted| { assert Run(s, steps).admitted[i] == t.admitted[i]; }
      }
    }
  }

  lemma {:induction false} RunAdmittedGrows(s: State, steps: seq<Step>)
    ensures s.admitted <= Run(s, steps).admitted
    decreases |steps|
  {
    if steps != [] {
      NewAdmission(s, steps[0]);
      RunAdmittedGrows(Apply(s, steps[0]), steps[1..]);
    }
  }

  /** A ban that has been written and evicted is effective at once exactly when no middleware
      call still holds an earlier `not banned` reading for that user. */
  lemma EvictionIsPromptExactly(s: State, u: User)
    requires Banned(s, u) && Evicted(s, u)
    ensures (exists steps :: AdmitsAgain(s, steps, u)) <==> SomeStaleStore(s, u)
  {
    if SomeStaleStore(s, u) {
      var c :| c in s.calls && StaleStore(s.calls[c], u);
      var t := Apply(s, Proceed(c));
      assert Run(s, [Proceed(c)]) == t;
      assert t.admitted[|s.admitted|].user == u;
      assert BannedThroughout(s, [Proceed(c)], u);
      assert AdmitsAgain(s, [Proceed(c)], u);
    } else {
      forall steps ensures !AdmitsAgain(s, steps, u) {
        if BannedThroughout(s, steps, u) { LockedRunAdmitsNone(s, steps, u); }
      }
    }
  }
}
