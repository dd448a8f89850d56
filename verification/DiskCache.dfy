/** The disk cache and its oldest-first eviction, driven by a running tally of whole megabytes. */
module DiskCache {
  import opened Common

  const BYTES_PER_MB := 0x10_0000

  /** Bytes in whole megabytes of 1024 * 1024, rounded down. */
  function WholeMB(bytes: nat): nat {
    if bytes < BYTES_PER_MB then 0 else 1 + WholeMB(bytes - BYTES_PER_MB)
  }

  lemma {:induction false} WholeMBIsQuotient(bytes: nat)
    ensures WholeMB(bytes) == bytes / (1024 * 1024)
  {
    if bytes >= BYTES_PER_MB { WholeMBIsQuotient(bytes - BYTES_PER_MB); }
  }

  lemma AtLeast(bytes: nat, mb: int)
    requires WholeMB(bytes) >= mb
    ensures bytes >= mb * BYTES_PER_MB
  {
    WholeMBIsQuotient(bytes);
  }

  /** Taking `part` away loses its whole megabytes, and at most one more. */
  lemma FloorOfDifference(total: nat, part: nat)
    requires part <= total
    ensures WholeMB(total - part) <= WholeMB(total) - WholeMB(part) <= WholeMB(total - part) + 1
  {
    WholeMBIsQuotient(total);
    WholeMBIsQuotient(part);
    WholeMBIsQuotient(total - part);
  }

  /** `date` is the modification date; a date that cannot be read counts as the distant past. */
  datatype File = File(size: nat, date: Option<int>)

  type Dir = map<string, File>

  predicate NoLaterThan(a: Option<int>, b: Option<int>) {
    a.None? || (b.Some? && a.value <= b.value)
  }

  // ----- The true size -----

  ghost function TotalBytes(dir: Dir): nat
    decreases |dir|
  {
    if dir == map[] then 0
    else
      var f :| f in dir;
      dir[f].size + TotalBytes(dir - {f})
  }

  /** The total does not depend on the order in which files are counted. */
  lemma {:induction false} TotalWithout(dir: Dir, f: string)
    requires f in dir
    ensures TotalBytes(dir) == dir[f].size + TotalBytes(dir - {f})
    decreases |dir|
  {
    var g :| g in dir && TotalBytes(dir) == dir[g].size + TotalBytes(dir - {g});
    if g != f {
      TotalWithout(dir - {g}, f);
      TotalWithout(dir - {f}, g);
      assert dir - {g} - {f} == dir - {f} - {g};
    }
  }

  // ----- Eviction order and tally -----

  /** The first `n` names of a listing. */
  function Names(order: seq<string>, n: nat): set<string>
    requires n <= |order|
  {
    if n == 0 then {} else Names(order, n - 1) + {order[n - 1]}
  }

  /** Every file once. */
  predicate Lists(dir: Dir, order: seq<string>) {
    && Names(order, |order|) == dir.Keys
    && Distinct(order)
    && (forall i | 0 <= i < |order| :: order[i] in dir)
  }

  /** Every file once, dates non-decreasing; ties may come in any order. */
  predicate OldestFirst(dir: Dir, order: seq<string>) {
    && Lists(dir, order)
    && (forall i, j | 0 <= i < j < |order| :: NoLaterThan(dir[order[i]].date, dir[order[j]].date))
  }

  lemma {:induction false} InNames(order: seq<string>, n: nat, i: nat)
    requires i < n <= |order|
    ensures order[i] in Names(order, n)
    decreases n
  {
    if i < n - 1 { InNames(order, n - 1, i); }
  }

  lemma {:induction false} NotInNames(order: seq<string>, n: nat, i: nat)
    requires n <= i < |order| && Distinct(order)
    ensures order[i] !in Names(order, n)
    decreases n
  {
    if n > 0 { NotInNames(order, n - 1, i); }
  }

  lemma {:induction false} IndexOf(order: seq<string>, n: nat, f: string) returns (i: nat)
    requires n <= |order| && f in Names(order, n)
    ensures i < n && order[i] == f
    decreases n
  {
    if order[n - 1] == f { i := n - 1; } else { i := IndexOf(order, n - 1, f); }
  }

  lemma {:induction false} NamesOfPrefix(order: seq<string>, f: string, n: nat)
    requires n <= |order|
    ensures Names(order + [f], n) == Names(order, n)
    decreases n
  {
    if n > 0 { NamesOfPrefix(order, f, n - 1); }
  }

  lemma {:induction false} NamesCount(order: seq<string>, n: nat)
    requires n <= |order| && Distinct(order)
    ensures |Names(order, n)| == n
    decreases n
  {
    if n > 0 {
      NamesCount(order, n - 1);
      NotInNames(order, n - 1, n - 1);
    }
  }

  /** The directory once the first `n` files of the order are gone. */
  function Remaining(dir: Dir, order: seq<string>, n: nat): Dir
    requires n <= |order|
  {
    dir - Names(order, n)
  }

  function Sizes(dir: Dir, order: seq<string>): (sizes: seq<nat>)
    requires forall i | 0 <= i < |order| :: order[i] in dir
    ensures |sizes| == |order|
  {
    seq(|order|, i requires 0 <= i < |order| => dir[order[i]].size)
  }

  function Sum(sizes: seq<nat>): nat {
    if sizes == [] then 0 else sizes[0] + Sum(sizes[1..])
  }

  /** The loop's variable `remaining` before file `n`, for files of these sizes. */
  function Tally(sizes: seq<nat>, n: nat): int
    requires n <= |sizes|
  {
    if n == 0 then WholeMB(Sum(sizes)) else Tally(sizes, n - 1) - WholeMB(sizes[n - 1])
  }

  /** How many files the loop goes through: it stops once the tally is within the limit. */
  function StopIndex(sizes: seq<nat>, limitMB: int, from: nat): (n: nat)
    requires from <= |sizes|
    ensures from <= n <= |sizes|
    decreases |sizes| - from
  {
    if from == |sizes| || Tally(sizes, from) <= limitMB then from
    else StopIndex(sizes, limitMB, from + 1)
  }

  lemma {:induction false} StopsAtFirst(sizes: seq<nat>, limitMB: int, from: nat, k: nat)
    requires from <= k < |sizes|
    ensures k < StopIndex(sizes, limitMB, from) ==> Tally(sizes, k) > limitMB
    ensures k == StopIndex(sizes, limitMB, from) ==> Tally(sizes, k) <= limitMB
    decreases k - from
  {
    if from < k { StopsAtFirst(sizes, limitMB, from + 1, k); }
  }

  /** The tally never falls below the true size in whole megabytes, and each file raises it above
      that by at most one. */
  lemma {:induction false} TallyTracksSize(sizes: seq<nat>, n: nat)
    requires n <= |sizes|
    ensures WholeMB(Sum(sizes[n..])) <= Tally(sizes, n) <= WholeMB(Sum(sizes[n..])) + n
    decreases n
  {
    if n == 0 {
      assert sizes[0..] == sizes;
    } else {
      TallyTracksSize(sizes, n - 1);
      assert sizes[n - 1..][1..] == sizes[n..];
      FloorOfDifference(Sum(sizes[n - 1..]), sizes[n - 1]);
    }
  }

  lemma {:induction false} TallyDecreases(sizes: seq<nat>, m: nat, n: nat)
    requires m <= n <= |sizes|
    ensures Tally(sizes, n) <= Tally(sizes, m)
    decreases n
  {
    if m < n { TallyDecreases(sizes, m, n - 1); }
  }

  lemma RemainingStep(dir: Dir, order: seq<string>, n: nat)
    requires Lists(dir, order) && n < |order|
    ensures order[n] in Remaining(dir, order, n)
    ensures Remaining(dir, order, n + 1) == Remaining(dir, order, n) - {order[n]}
  {
    NotInNames(order, n, n);
  }

  /** What the first `n` files leave behind has the size that the rest of the list adds up to. */
  lemma {:induction false} RemainingTotal(dir: Dir, order: seq<string>, n: nat)
    requires Lists(dir, order) && n <= |order|
    ensures TotalBytes(Remaining(dir, order, n)) == Sum(Sizes(dir, order)[n..])
    decreases |order| - n
  {
    if n == |order| {
      assert Remaining(dir, order, n) == map[];
    } else {
      RemainingTotal(dir, order, n + 1);
      RemainingStep(dir, order, n);
      TotalWithout(Remaining(dir, order, n), order[n]);
      assert Sizes(dir, order)[n..][1..] == Sizes(dir, order)[n + 1..];
    }
  }

  // ----- What eviction guarantees -----

  /** How many files eviction goes through. */
  function Evictions(dir: Dir, order: seq<string>, limitMB: int): (n: nat)
    requires OldestFirst(dir, order)
    ensures n <= |order|
  {
    StopIndex(Sizes(dir, order), limitMB, 0)
  }

  /** The directory once the loop has been through `n` files; files in `locked` cannot be removed. */
  function Evicted(dir: Dir, order: seq<string>, n: nat, locked: set<string>): Dir
    requires n <= |order|
  {
    dir - (Names(order, n) - locked)
  }

  function AfterEviction(dir: Dir, order: seq<string>, limitMB: int, locked: set<string>): Dir
    requires OldestFirst(dir, order)
  {
    Evicted(dir, order, Evictions(dir, order, limitMB), locked)
  }

  /** If every removal succeeds, what is left is within the limit, for every limit that a
      directory can meet at all. */
  lemma EvictionAchievesLimit(dir: Dir, order: seq<string>, limitMB: int, locked: set<string>)
    requires OldestFirst(dir, order) && locked !! dir.Keys
    ensures WholeMB(TotalBytes(AfterEviction(dir, order, limitMB, locked))) <= limitMB <==> limitMB >= 0
  {
    var n := Evictions(dir, order, limitMB);
    assert Evicted(dir, order, n, locked) == Remaining(dir, order, n);
    if n < |order| { StopsAtFirst(Sizes(dir, order), limitMB, 0, n); }
    RemainingTotal(dir, order, n);
    TallyTracksSize(Sizes(dir, order), n);
  }

  /** Over-eviction is limited: file number k + 1 goes only while the files from it on hold at
      least limitMB + 1 - k megabytes; and what goes is a prefix of the oldest-first order. */
  lemma OverEvictionIsLimited(dir: Dir, order: seq<string>, limitMB: int, locked: set<string>, k: nat)
    requires OldestFirst(dir, order) && k < |order|
    requires order[k] !in AfterEviction(dir, order, limitMB, locked)
    ensures TotalBytes(Remaining(dir, order, k)) >= (limitMB + 1 - k) * BYTES_PER_MB
    ensures forall j | 0 <= j < k :: order[j] in AfterEviction(dir, order, limitMB, locked) ==> order[j] in locked
  {
    SurvivesExactly(dir, order, limitMB, locked, k);
    RemainingTotal(dir, order, k);
    TallyTracksSize(Sizes(dir, order), k);
    AtLeast(TotalBytes(Remaining(dir, order, k)), limitMB + 1 - k);
    forall j | 0 <= j < k
      ensures order[j] in AfterEviction(dir, order, limitMB, locked) ==> order[j] in locked
    {
      TallyDecreases(Sizes(dir, order), j, k);
      SurvivesExactly(dir, order, limitMB, locked, j);
    }
  }

  /** Exactly which files survive: a removable file does if and only if the tally that the older
      files leave is within the limit. */
  lemma SurvivesExactly(dir: Dir, order: seq<string>, limitMB: int, locked: set<string>, i: nat)
    requires OldestFirst(dir, order) && i < |order|
    ensures order[i] in AfterEviction(dir, order, limitMB, locked)
       <==> order[i] in locked || Tally(Sizes(dir, order), i) <= limitMB
  {
    var n := Evictions(dir, order, limitMB);
    StopsAtFirst(Sizes(dir, order), limitMB, 0, i);
    if i < n {
      InNames(order, n, i);
    } else {
      StopsAtFirst(Sizes(dir, order), limitMB, 0, n);
      TallyDecreases(Sizes(dir, order), n, i);
      NotInNames(order, n, i);
    }
  }

  /** The file has a date, and every other file's date is earlier or cannot be read. */
  predicate StrictlyNewest(dir: Dir, f: string) {
    f in dir && forall g | g in dir && g != f ::
      dir[f].date.Some? && (dir[g].date.Some? ==> dir[g].date.value < dir[f].date.value)
  }

  lemma NewestComesLast(dir: Dir, order: seq<string>, f: string)
    requires OldestFirst(dir, order) && StrictlyNewest(dir, f)
    ensures |order| == |dir| && order[|order| - 1] == f
  {
    var i := IndexOf(order, |order|, f);
    NamesCount(order, |order|);
  }

  /** The strictly newest file survives whenever its whole megabytes plus the number of other
      files are within the limit. */
  lemma NewestSurvives(dir: Dir, order: seq<string>, limitMB: int, locked: set<string>, f: string)
    requires OldestFirst(dir, order) && StrictlyNewest(dir, f)
    requires WholeMB(dir[f].size) + (|dir| - 1) <= limitMB
    ensures f in AfterEviction(dir, order, limitMB, locked)
  {
    NewestComesLast(dir, order, f);
    var last, sizes := |order| - 1, Sizes(dir, order);
    TallyTracksSize(sizes, last);
    assert sizes[last..] == [dir[f].size];
    SurvivesExactly(dir, order, limitMB, locked, last);
  }

  /** Eviction takes the older files first: when a file is gone, so is every removable file with an
      earlier date, and if the file's date can be read, every removable one whose date cannot. */
  lemma OlderGoesFirst(dir: Dir, order: seq<string>, limitMB: int, locked: set<string>, f: string, g: string)
    requires OldestFirst(dir, order) && f in dir && g in dir && dir[g].date.Some?
    requires dir[f].date.Some? ==> dir[f].date.value < dir[g].date.value
    requires g !in AfterEviction(dir, order, limitMB, locked)
    ensures f in locked || f !in AfterEviction(dir, order, limitMB, locked)
  {
    var i := IndexOf(order, |order|, f);
    var j := IndexOf(order, |order|, g);
    assert i < j;
    SurvivesExactly(dir, order, limitMB, locked, i);
    SurvivesExactly(dir, order, limitMB, locked, j);
    TallyDecreases(Sizes(dir, order), i, j);
  }

  /** A removable file of more whole megabytes than the limit never survives. */
  lemma OversizedFileGoes(dir: Dir, order: seq<string>, limitMB: int, locked: set<string>, f: string)
    requires OldestFirst(dir, order) && f in dir && f !in locked && WholeMB(dir[f].size) > limitMB
    ensures f !in AfterEviction(dir, order, limitMB, locked)
  {
    var i := IndexOf(order, |order|, f);
    var sizes := Sizes(dir, order);
    TallyTracksSize(sizes, i);
    assert sizes[i..][1..] == sizes[i + 1..];
    FloorOfDifference(Sum(sizes[i..]), sizes[i]);
    SurvivesExactly(dir, order, limitMB, locked, i);
  }

  /** Some file is no younger than the rest, so the sort below can always go on. */
  lemma {:induction false} SomeOldest(dir: Dir, rest: set<string>) returns (f: string)
    requires rest != {} && rest <= dir.Keys
    ensures f in rest && forall g | g in rest :: NoLaterThan(dir[f].date, dir[g].date)
    decreases |rest|
  {
    f :| f in rest;
    if rest - {f} != {} {
      var g := SomeOldest(dir, rest - {f});
      assert rest == rest - {f} + {f};
      if !NoLaterThan(dir[f].date, dir[g].date) { f := g; }
    } else {
      assert rest == {f};
    }
  }

  lemma RemoveNext(dir: Dir, order: seq<string>, n: nat, locked: set<string>)
    requires OldestFirst(dir, order) && n < |order|
    ensures
      var before, after := Evicted(dir, order, n, locked), Evicted(dir, order, n + 1, locked);
      && order[n] in before && before[order[n]].size == Sizes(dir, order)[n]
      && after == if order[n] in locked then before else before - {order[n]}
  {
    RemainingStep(dir, order, n);
  }

  /** Where the loop starts: the tally is the true size and nothing is evicted. */
  lemma FirstTest(dir: Dir, order: seq<string>, limitMB: int, locked: set<string>)
    requires OldestFirst(dir, order)
    ensures Tally(Sizes(dir, order), 0) == WholeMB(TotalBytes(dir))
    ensures Evicted(dir, order, 0, locked) == dir
  {
    RemainingTotal(dir, order, 0);
    assert Remaining(dir, order, 0) == dir;
  }

  // ----- The object -----

  datatype CacheError = RemoveFailed | CopyFailed

  datatype CacheResult = Cached(name: string) | Failed(error: CacheError)

  class CacheManager {
    var files: Dir
    // Files whose removal fails.
    const locked: set<string>

    constructor (files: Dir, locked: set<string>)
      ensures this.files == files && this.locked == locked
    {
      this.files, this.locked := files, locked;
    }

    method CurrentCacheSizeMB() returns (size: int)
      ensures size == WholeMB(TotalBytes(files))
    {
      var total, rest := 0, files;
      while rest != map[]
        invariant total + TotalBytes(rest) == TotalBytes(files)
        decreases |rest|
      {
        var f :| f in rest;
        TotalWithout(rest, f);
        total := total + rest[f].size;
        rest := rest - {f};
      }
      return WholeMB(total);
    }

    /** The directory listing, sorted by date. */
    method Sorted() returns (order: seq<string>)
      ensures OldestFirst(files, order)
    {
      order := [];
      var rest := files.Keys;
      while rest != {}
        invariant rest <= files.Keys && Names(order, |order|) == files.Keys - rest
        invariant Distinct(order) && forall i | 0 <= i < |order| :: order[i] in files && order[i] !in rest
        invariant forall i, f | 0 <= i < |order| && f in rest :: NoLaterThan(files[order[i]].date, files[f].date)
        invariant forall i, j | 0 <= i < j < |order| :: NoLaterThan(files[order[i]].date, files[order[j]].date)
        decreases rest
      {
        ghost var oldest := SomeOldest(files, rest);
        var f :| f in rest && forall g | g in rest :: NoLaterThan(files[f].date, files[g].date);
        NamesOfPrefix(order, f, |order|);
        order := order + [f];
        rest := rest - {f};
      }
    }

    method EvictIfNeeded(limitMB: int) returns (ghost order: seq<string>)
      modifies this`files
      ensures OldestFirst(old(files), order)
      ensures files == AfterEviction(old(files), order, limitMB, locked)
      ensures forall f | f in files :: f in old(files) && files[f] == old(files)[f]
      ensures forall f, g | f in files && f !in locked && g in old(files) && g !in files && old(files)[g].date.Some? ::
                files[f].date.Some? && old(files)[g].date.value <= files[f].date.value
    {
      ghost var dir := files;
      var currentMB := CurrentCacheSizeMB();
      var sorted := Sorted();
      order := sorted;
      ghost var sizes, stop := Sizes(dir, order), Evictions(dir, order, limitMB);
      FirstTest(dir, order, limitMB, locked);
      if currentMB <= limitMB {
        assert AfterEviction(dir, order, limitMB, locked) == dir;
        return;
      }

      var remaining, n := currentMB, 0;
      while n < |sorted| && remaining > limitMB
        invariant 0 <= n <= |sorted|
        invariant remaining == Tally(sizes, n)
        invariant StopIndex(sizes, limitMB, n) == stop
        invariant files == Evicted(dir, order, n, locked)
      {
        RemoveNext(dir, order, n, locked);
        var fileSize := files[sorted[n]].size;
        if sorted[n] !in locked { files := files - {sorted[n]}; }
        remaining := remaining - WholeMB(fileSize);
        n := n + 1;
      }
      assert n == stop;
      forall f, g | f in files && f !in locked && g in dir && g !in files && dir[g].date.Some?
        ensures files[f].date.Some? && dir[g].date.value <= files[f].date.value
      {
        if dir[f].date.Some? ==> dir[f].date.value < dir[g].date.value {
          OlderGoesFirst(dir, order, limitMB, locked, f, g);
        }
      }
    }

    /** A failing copy has already removed the file that was cached before. */
    method CacheFile(source: Option<File>, id: string, limitMB: int) returns (r: CacheResult, ghost order: seq<string>)
      modifies this`files
      ensures id + ".mp4" in old(files) && id + ".mp4" in locked ==> r == Failed(RemoveFailed) && files == old(files)
      ensures !(id + ".mp4" in old(files) && id + ".mp4" in locked) && source.None? ==>
        r == Failed(CopyFailed) && files == old(files) - {id + ".mp4"}
      ensures !(id + ".mp4" in old(files) && id + ".mp4" in locked) && source.Some? ==>
        var dir := old(files)[id + ".mp4" := source.value];
        && r == Cached(id + ".mp4") && OldestFirst(dir, order)
        && files == AfterEviction(dir, order, limitMB, locked)
        && (exists i | 0 <= i < |order| ::
              && order[i] == r.name
              && (r.name in files <==> r.name in locked || Tally(Sizes(dir, order), i) <= limitMB))
        && ((&& source.value.date.Some? && WholeMB(source.value.size) + |dir| - 1 <= limitMB
             && forall g | g in dir && g != r.name ::
                  dir[g].date.Some? ==> dir[g].date.value < source.value.date.value)
            ==> r.name in files)
        && (WholeMB(source.value.size) > limitMB && r.name !in locked ==> r.name !in files)
    {
      var dest := id + ".mp4";
      order := [];
      if dest in files {
        if dest in locked { return Failed(RemoveFailed), []; }
        files := files - {dest};
      }
      if source.None? { return Failed(CopyFailed), []; }
      files := files[dest := source.value];
      ghost var dir := files;
      assert dir == old(files)[dest := source.value];
      order := EvictIfNeeded(limitMB);
      ghost var i := IndexOf(order, |order|, dest);
      SurvivesExactly(dir, order, limitMB, locked, i);
      if StrictlyNewest(dir, dest) && WholeMB(source.value.size) + |dir| - 1 <= limitMB {
        NewestSurvives(dir, order, limitMB, locked, dest);
      }
      if WholeMB(source.value.size) > limitMB && dest !in locked {
        OversizedFileGoes(dir, order, limitMB, locked, dest);
      }
      r := Cached(dest);
    }
  }
}
