/** The fixed-window rate limiter. Times and the window are nanoseconds. */
module RateLimiter {
  import opened Common

  const SECOND := 1_000_000_000

  datatype Window = Window(count: int, end: int)

  type Entries = map<string, Window>

  datatype Config = Config(max: int, window: nat)

  datatype Request = Request(key: string, time: int)

  // ----- Specification of one call -----

  predicate Opens(es: Entries, r: Request) { r.key !in es || r.time > es[r.key].end }

  predicate Allows(c: Config, es: Entries, r: Request) { Opens(es, r) || es[r.key].count < c.max }

  function Next(c: Config, es: Entries, r: Request): Entries {
    if Opens(es, r) then es[r.key := Window(1, r.time + c.window)]
    else if es[r.key].count < c.max then es[r.key := es[r.key].(count := es[r.key].count + 1)]
    else es
  }

  /** The header value sent with a refusal: whole seconds, rounded down. */
  function RetryAfter(window: nat): nat { window / SECOND }

  class Limiter {
    const max: int
    const window: nat
    var entries: Entries

    constructor (max: int, window: nat)
      ensures this.max == max && this.window == window && entries == map[]
    {
      this.max, this.window, entries := max, window, map[];
    }

    method Allow(key: string, now: int) returns (ok: bool)
      modifies this
      ensures ok == Allows(Config(max, window), old(entries), Request(key, now))
      ensures entries == Next(Config(max, window), old(entries), Request(key, now))
    {
      if key !in entries || now > entries[key].end {
        entries := entries[key := Window(1, now + window)];
        return true;
      }
      if entries[key].count >= max { return false; }
      entries := entries[key := entries[key].(count := entries[key].count + 1)];
      return true;
    }

    /** PerIP and PerUser: a user's own id is the key when there is one. */
    method Limit(address: string, user: Option<string>, now: int) returns (retryAfter: Option<nat>)
      modifies this
      ensures
        var r := Request(if user.Some? then user.value else address, now);
        && entries == Next(Config(max, window), old(entries), r)
        && retryAfter == if Allows(Config(max, window), old(entries), r) then None else Some(RetryAfter(window))
      ensures retryAfter.Some? ==> retryAfter.value * SECOND <= window < (retryAfter.value + 1) * SECOND
    {
      var key := address;
      if user.Some? { key := user.value; }
      var ok := Allow(key, now);
      return if ok then None else Some(window / SECOND);
    }
  }

  // ----- Runs -----

  function State(c: Config, rs: seq<Request>): Entries
    decreases |rs|
  {
    if rs == [] then map[] else Next(c, State(c, rs[..|rs| - 1]), rs[|rs| - 1])
  }

  /** The last request of a non-empty run is granted. */
  predicate LastGranted(c: Config, rs: seq<Request>)
    requires rs != []
  {
    Allows(c, State(c, rs[..|rs| - 1]), rs[|rs| - 1])
  }

  /** Grants to `key` at times in [lo, hi]. */
  function Grants(c: Config, rs: seq<Request>, key: string, lo: int, hi: int): nat
    decreases |rs|
  {
    if rs == [] then 0
    else
      var r := rs[|rs| - 1];
      Grants(c, rs[..|rs| - 1], key, lo, hi)
      + if r.key == key && lo <= r.time <= hi && LastGranted(c, rs) then 1 else 0
  }

  /** The clock never goes back. */
  predicate Monotone(rs: seq<Request>) { forall i, j | 0 <= i < j < |rs| :: rs[i].time <= rs[j].time }

  function Budget(c: Config): nat { Max(1, c.max) }

  // ----- The sliding bound -----

  /** The most that windows opened before the current one can have granted since `d` before its
      start; window starts are at least `window + 1` apart, and an oldest window that straddles
      the edge has lost its opening grant. */
  function Earlier(c: Config, d: nat): (e: nat)
  {
    if d == 0 then 0
    else if d <= c.window then Budget(c) - 1
    else Budget(c) + Earlier(c, d - (c.window + 1))
  }

  lemma {:induction false} EarlierMonotone(c: Config, d: nat, e: nat)
    requires d <= e
    ensures Earlier(c, d) <= Earlier(c, e)
    decreases d
  {
    if d > c.window { EarlierMonotone(c, d - (c.window + 1), e - (c.window + 1)); }
  }

  /** The accounting for one key. While its window began before `lo`, only that window's later
      grants count; once it began inside, earlier windows add what Earlier allows. */
  predicate Accounted(c: Config, rs: seq<Request>, key: string, lo: int, hi: int) {
    var es, g := State(c, rs), Grants(c, rs, key, lo, hi);
    if key !in es then g == 0
    else
      var w := es[key];
      var start := w.end - c.window;
      && 1 <= w.count <= Budget(c)
      && start <= rs[|rs| - 1].time
      && (start < lo ==> g <= w.count - 1 && (w.end < lo ==> g == 0))
      && (start >= lo ==> g <= w.count + Earlier(c, start - lo))
  }

  lemma {:induction false} PrefixIsAccounted(c: Config, rs: seq<Request>, key: string, lo: int, hi: int)
    requires Monotone(rs) && (rs != [] ==> rs[|rs| - 1].time <= hi)
    ensures key in State(c, rs) ==> rs != []
    ensures Accounted(c, rs, key, lo, hi)
    decreases |rs|
  {
    if rs != [] {
      var init, r := rs[..|rs| - 1], rs[|rs| - 1];
      PrefixIsAccounted(c, init, key, lo, hi);
      if r.key == key && key in State(c, init) && Opens(State(c, init), r) {
        var start := State(c, init)[key].end - c.window;
        if start >= lo {
          EarlierMonotone(c, start - lo, r.time - lo - (c.window + 1));
        }
      }
    }
  }

  /** Sharp form. In any closed interval of length d the grants to one key are at most
      Budget + Earlier(d). */
  lemma {:induction false} SlidingBound(c: Config, rs: seq<Request>, key: string, lo: int, hi: int)
    requires Monotone(rs) && lo <= hi
    ensures Grants(c, rs, key, lo, hi) <= Budget(c) + Earlier(c, hi - lo)
    decreases |rs|
  {
    if rs != [] {
      if rs[|rs| - 1].time > hi {
        SlidingBound(c, rs[..|rs| - 1], key, lo, hi);
      } else {
        PrefixIsAccounted(c, rs, key, lo, hi);
        if key in State(c, rs) {
          var start := State(c, rs)[key].end - c.window;
          if start >= lo { EarlierMonotone(c, start - lo, hi - lo); }
        }
      }
    }
  }

  /** a / b rounded up. */
  function CeilDiv(a: nat, b: nat): (n: nat)
    requires b > 0
    ensures n * b >= a && (n > 0 ==> (n - 1) * b < a)
  {
    if a == 0 then 0
    else if a <= b then 1
    else
      var m := CeilDiv(a - b, b);
      assert (m + 1) * b == m * b + b && m > 0 && (m - 1) * b + b == m * b;
      m + 1
  }

  lemma {:induction false} CeilDivMonotone(a: nat, b: nat, n: nat)
    requires a <= b && n > 0
    ensures CeilDiv(a, n) <= CeilDiv(b, n)
    decreases a
  {
    if a > n { CeilDivMonotone(a - n, b - n, n); }
  }

  lemma {:induction false} EarlierWithinCeiling(c: Config, d: nat)
    requires c.window > 0
    ensures Earlier(c, d) <= Budget(c) * CeilDiv(d, c.window)
    decreases d
  {
    if d > c.window {
      var e := d - (c.window + 1);
      EarlierWithinCeiling(c, e);
      CeilDivMonotone(e, d - c.window, c.window);
      Times(Budget(c), CeilDiv(e, c.window), CeilDiv(d, c.window));
    }
  }

  lemma Times(b: nat, m: nat, n: nat)
    requires m < n
    ensures b * m + b <= b * n
  {
    var k := n - m - 1;
    assert b * n == b * (m + 1 + k) == b * m + b + b * k;
  }

  /** In any closed interval of length d at most Budget * (ceil(d / window) + 1) grants, and in one
      that is one window long at most 2 * Budget - 1. */
  lemma SlidingWindowBound(c: Config, rs: seq<Request>, key: string, lo: int, hi: int)
    requires Monotone(rs) && lo <= hi && c.window > 0
    ensures Grants(c, rs, key, lo, hi) <= Budget(c) * (CeilDiv(hi - lo, c.window) + 1)
    ensures hi - lo == c.window ==> Grants(c, rs, key, lo, hi) <= 2 * Budget(c) - 1
  {
    SlidingBound(c, rs, key, lo, hi);
    EarlierWithinCeiling(c, hi - lo);
    assert Budget(c) * (CeilDiv(hi - lo, c.window) + 1) == Budget(c) * CeilDiv(hi - lo, c.window) + Budget(c);
  }

  lemma Snoc(c: Config, rs: seq<Request>, r: Request, key: string, lo: int, hi: int)
    ensures State(c, rs + [r]) == Next(c, State(c, rs), r)
    ensures Grants(c, rs + [r], key, lo, hi) == Grants(c, rs, key, lo, hi)
      + if r.key == key && lo <= r.time <= hi && Allows(c, State(c, rs), r) then 1 else 0
  {
    assert (rs + [r])[..|rs|] == rs;
  }

  /** The run `rs` followed by `n` requests like `r`. */
  function Volley(rs: seq<Request>, r: Request, n: nat): seq<Request> {
    if n == 0 then rs else Volley(rs, r, n - 1) + [r]
  }

  predicate HasWindow(c: Config, rs: seq<Request>, key: string, w: Window) {
    key in State(c, rs) && State(c, rs)[key] == w
  }

  function Inside(time: int, lo: int, hi: int, n: nat): nat { if lo <= time <= hi then n else 0 }

  lemma {:induction false} VolleyBegins(rs: seq<Request>, r: Request, n: nat)
    requires n > 0
    ensures Volley(rs, r, n) == Volley(rs + [r], r, n - 1)
    decreases n
  {
    if n > 1 { VolleyBegins(rs, r, n - 1); }
  }

  lemma OneMoreGrant(c: Config, rs: seq<Request>, r: Request, w: Window, lo: int, hi: int)
    requires HasWindow(c, rs, r.key, w) && r.time <= w.end && w.count < c.max
    ensures HasWindow(c, rs + [r], r.key, w.(count := w.count + 1))
    ensures Grants(c, rs + [r], r.key, lo, hi) == Grants(c, rs, r.key, lo, hi) + Inside(r.time, lo, hi, 1)
  {
    Snoc(c, rs, r, r.key, lo, hi);
  }

  /** A volley within the rest of the budget of an open window is granted in full. */
  lemma {:induction false} VolleyContinues(c: Config, rs: seq<Request>, r: Request, w: Window, n: nat, lo: int, hi: int)
    requires HasWindow(c, rs, r.key, w) && r.time <= w.end && (n > 0 ==> w.count + n <= c.max)
    ensures HasWindow(c, Volley(rs, r, n), r.key, w.(count := w.count + n))
    ensures Grants(c, Volley(rs, r, n), r.key, lo, hi) == Grants(c, rs, r.key, lo, hi) + Inside(r.time, lo, hi, n)
    decreases n
  {
    if n > 0 {
      VolleyContinues(c, rs, r, w, n - 1, lo, hi);
      OneMoreGrant(c, Volley(rs, r, n - 1), r, w.(count := w.count + (n - 1)), lo, hi);
    }
  }

  /** So is one within the budget that opens a window. */
  lemma VolleyOpens(c: Config, rs: seq<Request>, r: Request, n: nat, lo: int, hi: int)
    requires 1 <= n <= Budget(c) && Opens(State(c, rs), r)
    ensures HasWindow(c, Volley(rs, r, n), r.key, Window(n, r.time + c.window))
    ensures Grants(c, Volley(rs, r, n), r.key, lo, hi) == Grants(c, rs, r.key, lo, hi) + Inside(r.time, lo, hi, n)
  {
    Snoc(c, rs, r, r.key, lo, hi);
    VolleyContinues(c, rs + [r], r, Window(1, r.time + c.window), n - 1, lo, hi);
    VolleyBegins(rs, r, n);
  }

  predicate AllBefore(rs: seq<Request>, time: int) { forall i | 0 <= i < |rs| :: rs[i].time <= time }

  lemma {:induction false} VolleyIsMonotone(rs: seq<Request>, r: Request, n: nat)
    requires Monotone(rs) && AllBefore(rs, r.time)
    ensures Monotone(Volley(rs, r, n)) && AllBefore(Volley(rs, r, n), r.time)
    decreases n
  {
    if n > 0 { VolleyIsMonotone(rs, r, n - 1); }
  }

  /** An oldest window that straddles the edge of [hi - d, hi] spends the rest of its budget just
      inside. */
  function Straddling(c: Config, key: string, d: nat, hi: int): seq<Request> {
    Volley([Request(key, hi - c.window - 1)], Request(key, hi - d), Budget(c) - 1)
  }

  /** The densest run for the interval [hi - d, hi]: a whole budget at `hi` and at each window start
      that fits before it, and what is left of a window that straddles the edge. */
  function Densest(c: Config, key: string, d: nat, hi: int): seq<Request>
    decreases d
  {
    Volley(Denser(c, key, d, hi), Request(key, hi), Budget(c))
  }

  /** What comes before the window that opens at `hi`. */
  function Denser(c: Config, key: string, d: nat, hi: int): seq<Request>
    decreases d, 0
  {
    if d == 0 then []
    else if d <= c.window then Straddling(c, key, d, hi)
    else Densest(c, key, d - (c.window + 1), hi - (c.window + 1))
  }

  lemma {:induction false} DensestIsMonotone(c: Config, key: string, d: nat, hi: int)
    ensures Monotone(Densest(c, key, d, hi)) && AllBefore(Densest(c, key, d, hi), hi)
    decreases d
  {
    if 0 < d <= c.window {
      VolleyIsMonotone([Request(key, hi - c.window - 1)], Request(key, hi - d), Budget(c) - 1);
    } else if d > c.window {
      DensestIsMonotone(c, key, d - (c.window + 1), hi - (c.window + 1));
    }
    VolleyIsMonotone(Denser(c, key, d, hi), Request(key, hi), Budget(c));
  }

  lemma {:induction false} GrantsUpTo(c: Config, rs: seq<Request>, key: string, lo: int, h: int, hi: int)
    requires AllBefore(rs, h) && h <= hi
    ensures Grants(c, rs, key, lo, hi) == Grants(c, rs, key, lo, h)
    decreases |rs|
  {
    if rs != [] { GrantsUpTo(c, rs[..|rs| - 1], key, lo, h, hi); }
  }

  lemma StraddlingGrants(c: Config, key: string, d: nat, hi: int)
    requires 0 < d <= c.window
    ensures HasWindow(c, Straddling(c, key, d, hi), key, Window(Budget(c), hi - 1))
    ensures Grants(c, Straddling(c, key, d, hi), key, hi - d, hi) == Budget(c) - 1
  {
    var first := Request(key, hi - c.window - 1);
    Snoc(c, [], first, key, hi - d, hi);
    assert [] + [first] == [first];
    VolleyContinues(c, [first], Request(key, hi - d), Window(1, hi - 1), Budget(c) - 1, hi - d, hi);
  }

  /** After `rs` a request at `hi` opens a window, and [lo, hi] has seen `n` grants. */
  predicate Reaches(c: Config, rs: seq<Request>, key: string, lo: int, hi: int, n: int) {
    Opens(State(c, rs), Request(key, hi)) && Grants(c, rs, key, lo, hi) == n
  }

  lemma BudgetOnTop(c: Config, rs: seq<Request>, key: string, lo: int, hi: int, n: int)
    requires lo <= hi && Reaches(c, rs, key, lo, hi, n)
    ensures HasWindow(c, Volley(rs, Request(key, hi), Budget(c)), key, Window(Budget(c), hi + c.window))
    ensures Grants(c, Volley(rs, Request(key, hi), Budget(c)), key, lo, hi) == Budget(c) + n
  {
    VolleyOpens(c, rs, Request(key, hi), Budget(c), lo, hi);
  }

  /** A run whose last window opened at `h`, seen when that window is just over. */
  lemma WindowOver(c: Config, rs: seq<Request>, key: string, lo: int, h: int, hi: int, n: int)
    requires HasWindow(c, rs, key, Window(Budget(c), h + c.window)) && Grants(c, rs, key, lo, h) == n
    requires AllBefore(rs, h) && hi == h + c.window + 1
    ensures Reaches(c, rs, key, lo, hi, n)
  {
    GrantsUpTo(c, rs, key, lo, h, hi);
  }

  lemma StraddlingReaches(c: Config, key: string, d: nat, hi: int)
    requires 0 < d <= c.window
    ensures Reaches(c, Straddling(c, key, d, hi), key, hi - d, hi, Budget(c) - 1)
  {
    StraddlingGrants(c, key, d, hi);
  }

  lemma NothingReaches(c: Config, key: string, hi: int)
    ensures Reaches(c, [], key, hi, hi, 0)
  {
  }

  lemma {:induction false} DenserReaches(c: Config, key: string, d: nat, hi: int)
    ensures Reaches(c, Denser(c, key, d, hi), key, hi - d, hi, Earlier(c, d))
    decreases d, 0
  {
    if d == 0 {
      NothingReaches(c, key, hi);
    } else if d <= c.window {
      StraddlingReaches(c, key, d, hi);
    } else {
      var e, h := d - (c.window + 1), hi - (c.window + 1);
      DensestGrants(c, key, e, h);
      DensestIsMonotone(c, key, e, h);
      WindowOver(c, Densest(c, key, e, h), key, h - e, h, hi, Budget(c) + Earlier(c, e));
    }
  }

  lemma {:induction false} DensestGrants(c: Config, key: string, d: nat, hi: int)
    ensures HasWindow(c, Densest(c, key, d, hi), key, Window(Budget(c), hi + c.window))
    ensures Grants(c, Densest(c, key, d, hi), key, hi - d, hi) == Budget(c) + Earlier(c, d)
    decreases d, 1
  {
    DenserReaches(c, key, d, hi);
    BudgetOnTop(c, Denser(c, key, d, hi), key, hi - d, hi, Earlier(c, d));
  }

  /** The sharp bound is attained, for every limit, window and interval. */
  lemma SlidingBoundIsAttained(c: Config, key: string, d: nat, hi: int)
    ensures Monotone(Densest(c, key, d, hi))
    ensures Grants(c, Densest(c, key, d, hi), key, hi - d, hi) == Budget(c) + Earlier(c, d)
  {
    DensestIsMonotone(c, key, d, hi);
    DensestGrants(c, key, d, hi);
  }

  // ----- Denials -----

  /** The entry of a key is the history of its current window. */
  lemma {:induction false} CountIsHistory(c: Config, rs: seq<Request>, key: string, hi: int)
    requires Monotone(rs) && key in State(c, rs) && rs[|rs| - 1].time <= hi
    ensures
      var w := State(c, rs)[key];
      && w.end - c.window <= rs[|rs| - 1].time
      && 1 <= w.count == Grants(c, rs, key, w.end - c.window, hi)
    decreases |rs|
  {
    var init, r := rs[..|rs| - 1], rs[|rs| - 1];
    if r.key == key && Opens(State(c, init), r) {
      PrefixIsAccounted(c, init, key, r.time, hi);
    } else {
      CountIsHistory(c, init, key, hi);
    }
  }

  lemma {:induction false} GrantsWiden(c: Config, rs: seq<Request>, key: string, lo: int, lo': int, hi: int)
    requires lo' <= lo
    ensures Grants(c, rs, key, lo, hi) <= Grants(c, rs, key, lo', hi)
    decreases |rs|
  {
    if rs != [] { GrantsWiden(c, rs[..|rs| - 1], key, lo, lo', hi); }
  }

  /** The last request of the run was refused because its window's budget is spent. */
  lemma RefusalMeansSpent(c: Config, rs: seq<Request>)
    requires rs != [] && !LastGranted(c, rs)
    ensures
      var es, r := State(c, rs[..|rs| - 1]), rs[|rs| - 1];
      && r.key in es && |rs| > 1 && HasWindow(c, rs[..|rs| - 1], r.key, es[r.key])
      && r.time <= es[r.key].end && es[r.key].count >= c.max
  {
  }

  lemma GrantsAddUp(c: Config, rs: seq<Request>, key: string, lo: int, hi: int)
    requires rs != []
    ensures Grants(c, rs, key, lo, hi) >= Grants(c, rs[..|rs| - 1], key, lo, hi)
  {
  }

  lemma SpentMeansBudget(c: Config, rs: seq<Request>, r: Request, w: Window)
    requires Monotone(rs) && rs != [] && rs[|rs| - 1].time <= r.time
    requires HasWindow(c, rs, r.key, w) && r.time <= w.end && w.count >= c.max
    ensures Grants(c, rs, r.key, r.time - c.window, r.time) >= Budget(c)
  {
    CountIsHistory(c, rs, r.key, r.time);
    GrantsWiden(c, rs, r.key, w.end - c.window, r.time - c.window, r.time);
  }

  /** A refusal at time t means that the whole budget was granted to that key in [t - window, t]. */
  lemma NoUnfairDenial(c: Config, rs: seq<Request>)
    requires Monotone(rs) && rs != [] && !LastGranted(c, rs)
    ensures
      var r := rs[|rs| - 1];
      Grants(c, rs, r.key, r.time - c.window, r.time) >= Budget(c)
  {
    var init, r := rs[..|rs| - 1], rs[|rs| - 1];
    RefusalMeansSpent(c, rs);
    SpentMeansBudget(c, init, r, State(c, init)[r.key]);
    GrantsAddUp(c, rs, r.key, r.time - c.window, r.time);
  }

  // ----- Isolation -----

  function Own(rs: seq<Request>, key: string): seq<Request>
    decreases |rs|
  {
    if rs == [] then []
    else if rs[|rs| - 1].key == key then Own(rs[..|rs| - 1], key) + [rs[|rs| - 1]]
    else Own(rs[..|rs| - 1], key)
  }

  /** The answers that the requests of `key` received, in order. */
  function Answers(c: Config, rs: seq<Request>, key: string): seq<bool>
    decreases |rs|
  {
    if rs == [] then []
    else if rs[|rs| - 1].key == key then Answers(c, rs[..|rs| - 1], key) + [LastGranted(c, rs)]
    else Answers(c, rs[..|rs| - 1], key)
  }

  predicate SameEntry(a: Entries, b: Entries, key: string) {
    (key in a <==> key in b) && (key in a ==> a[key] == b[key])
  }

  /** What one key is answered does not depend on any other key's requests. */
  lemma {:induction false} KeysAreIsolated(c: Config, rs: seq<Request>, key: string)
    ensures SameEntry(State(c, rs), State(c, Own(rs, key)), key)
    ensures Answers(c, rs, key) == Answers(c, Own(rs, key), key)
    decreases |rs|
  {
    if rs != [] {
      var init, r := rs[..|rs| - 1], rs[|rs| - 1];
      KeysAreIsolated(c, init, key);
      if r.key == key {
        var own := Own(rs, key);
        assert own[..|own| - 1] == Own(init, key);
      }
    }
  }

  // ----- Retry-After -----

  lemma {:induction false} OthersLeaveEntry(c: Config, rs: seq<Request>, others: seq<Request>, key: string)
    requires forall i | 0 <= i < |others| :: others[i].key != key
    ensures SameEntry(State(c, rs + others), State(c, rs), key)
    decreases |others|
  {
    if others == [] {
      assert rs + others == rs;
    } else {
      var init := others[..|others| - 1];
      assert (rs + others)[..|rs + others| - 1] == rs + init;
      OthersLeaveEntry(c, rs, init, key);
    }
  }

  /** A request was just refused, other clients send `others`, and the refused one retries. */
  predicate RetryGranted(c: Config, rs: seq<Request>, others: seq<Request>, time: int)
    requires rs != []
  {
    LastGranted(c, rs + others + [Request(rs[|rs| - 1].key, time)])
  }

  /** A client that was refused, sends nothing else, and retries strictly after the announced
      number of seconds is granted, if the window is a whole number of seconds. */
  lemma RetryAfterIsHonoured(c: Config, rs: seq<Request>, others: seq<Request>, time: int)
    requires Monotone(rs) && rs != [] && !LastGranted(c, rs) && c.window % SECOND == 0
    requires forall i | 0 <= i < |others| :: others[i].key != rs[|rs| - 1].key
    requires time > rs[|rs| - 1].time + RetryAfter(c.window) * SECOND
    ensures RetryGranted(c, rs, others, time)
  {
    var key := rs[|rs| - 1].key;
    var all := rs + others + [Request(key, time)];
    assert all[..|all| - 1] == rs + others;
    OthersLeaveEntry(c, rs, others, key);
    CountIsHistory(c, rs, key, rs[|rs| - 1].time);
  }

  lemma SpentRefuses(c: Config, rs: seq<Request>, r: Request, w: Window)
    requires HasWindow(c, rs, r.key, w) && r.time <= w.end && w.count >= c.max
    ensures !LastGranted(c, rs + [r]) && HasWindow(c, rs + [r], r.key, w)
  {
    Snoc(c, rs, r, r.key, 0, 0);
    assert (rs + [r])[..|rs|] == rs;
  }

  /** Whatever the limit and the window, a retry up to one window after a refusal can be refused. */
  lemma RetryWithinWindowCanFail(c: Config, key: string, time: int, wait: nat)
    requires wait <= c.window
    ensures
      var rs := Volley([], Request(key, time), Budget(c)) + [Request(key, time)];
      Monotone(rs) && !LastGranted(c, rs) && !RetryGranted(c, rs, [], time + wait)
  {
    var r, retry := Request(key, time), Request(key, time + wait);
    var spent, w := Volley([], r, Budget(c)), Window(Budget(c), time + c.window);
    VolleyOpens(c, [], r, Budget(c), 0, 0);
    VolleyIsMonotone([], r, Budget(c));
    SpentRefuses(c, spent, r, w);
    SpentRefuses(c, spent + [r], retry, w);
    assert spent + [r] + [] + [retry] == spent + [r] + [retry];
  }

  /** The hint of `n` seconds is never longer than it need be: it is the largest number of whole
      seconds within the window, and some client that waits for just so long is refused again. */
  lemma HintIsNotTooLong(c: Config, key: string, time: int, n: nat)
    requires n == RetryAfter(c.window)
    ensures n * SECOND <= c.window < (n + 1) * SECOND
    ensures
      var rs := Volley([], Request(key, time), Budget(c)) + [Request(key, time)];
      Monotone(rs) && !LastGranted(c, rs) && !RetryGranted(c, rs, [], time + n * SECOND)
  {
    RetryWithinWindowCanFail(c, key, time, n * SECOND);
  }

  /** The announced number of seconds suffices, in every run and for every later retry, exactly
      when the window is a whole number of seconds. */
  lemma HintSufficesExactly(c: Config)
    ensures c.window % SECOND == 0 <==>
      forall rs: seq<Request>, others: seq<Request>, time: int |
        && Monotone(rs) && rs != [] && !LastGranted(c, rs)
        && (forall i | 0 <= i < |others| :: others[i].key != rs[|rs| - 1].key)
        && time > rs[|rs| - 1].time + RetryAfter(c.window) * SECOND
        :: RetryGranted(c, rs, others, time)
  {
    if c.window % SECOND == 0 {
      forall rs: seq<Request>, others: seq<Request>, time: int |
        && Monotone(rs) && rs != [] && !LastGranted(c, rs)
        && (forall i | 0 <= i < |others| :: others[i].key != rs[|rs| - 1].key)
        && time > rs[|rs| - 1].time + RetryAfter(c.window) * SECOND
        ensures RetryGranted(c, rs, others, time)
      {
        RetryAfterIsHonoured(c, rs, others, time);
      }
    } else {
      RetryWithinWindowCanFail(c, "", 0, c.window);
    }
  }
}
