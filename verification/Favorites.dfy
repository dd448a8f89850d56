/** The favourites table, the paged listing the server answers with, and the view model that
    rebuilds the list page by page. */
module Favorites {
  import opened Common

  type Wallpaper = nat

  type User = nat

  // ----- The table -----

  datatype Favorite = Favorite(user: User, wallpaper: Wallpaper)

  /** Newest first, as the listing orders them. */
  type Table = seq<Favorite>

  function OfUser(rows: Table, user: User): seq<Wallpaper>
    decreases |rows|
  {
    if rows == [] then []
    else if rows[0].user == user then [rows[0].wallpaper] + OfUser(rows[1..], user)
    else OfUser(rows[1..], user)
  }

  /** The join with the wallpapers table. */
  function Join(listed: seq<Wallpaper>, wallpapers: set<Wallpaper>): seq<Wallpaper> {
    if listed == [] then []
    else if listed[0] in wallpapers then [listed[0]] + Join(listed[1..], wallpapers)
    else Join(listed[1..], wallpapers)
  }

  /** The count, which does not join, is the length of the joined list exactly when every favourite
      refers to an existing wallpaper; then the join changes nothing. */
  lemma {:induction false} CountMatchesJoin(listed: seq<Wallpaper>, wallpapers: set<Wallpaper>)
    ensures |Join(listed, wallpapers)| <= |listed|
    ensures |Join(listed, wallpapers)| == |listed| <==> forall w | w in listed :: w in wallpapers
    ensures |Join(listed, wallpapers)| == |listed| ==> Join(listed, wallpapers) == listed
  {
    if listed != [] {
      CountMatchesJoin(listed[1..], wallpapers);
      assert listed == [listed[0]] + listed[1..];
    }
  }

  predicate TableOk(rows: Table, wallpapers: set<Wallpaper>) {
    Distinct(rows) && forall f | f in rows :: f.wallpaper in wallpapers
  }

  lemma {:induction false} OfUserMembers(rows: Table, user: User)
    ensures forall w :: w in OfUser(rows, user) <==> Favorite(user, w) in rows
    ensures Distinct(rows) ==> Distinct(OfUser(rows, user))
    decreases |rows|
  {
    if rows != [] {
      OfUserMembers(rows[1..], user);
      assert rows == [rows[0]] + rows[1..];
      if Distinct(rows) && rows[0].user == user { assert rows[0] !in rows[1..]; }
    }
  }

  /** In a table that Toggle maintains, a user's listing has as many rows as are counted, none of
      them twice, and they are that user's favourites. */
  lemma ListingMatchesTable(rows: Table, wallpapers: set<Wallpaper>, user: User)
    requires TableOk(rows, wallpapers)
    ensures
      var list := Join(OfUser(rows, user), wallpapers);
      && |list| == |OfUser(rows, user)| && Distinct(list)
      && forall w :: w in list <==> Favorite(user, w) in rows
  {
    OfUserMembers(rows, user);
    CountMatchesJoin(OfUser(rows, user), wallpapers);
  }

  function Without(rows: Table, f: Favorite): Table {
    if rows == [] then []
    else if rows[0] == f then Without(rows[1..], f) else [rows[0]] + Without(rows[1..], f)
  }

  lemma {:induction false} WithoutIsTheRest(rows: Table, f: Favorite)
    ensures f !in Without(rows, f)
    ensures forall g | g != f :: g in Without(rows, f) <==> g in rows
    ensures f !in rows ==> Without(rows, f) == rows
    ensures Distinct(rows) ==> Distinct(Without(rows, f))
  {
    if rows != [] {
      var rest := Without(rows[1..], f);
      WithoutIsTheRest(rows[1..], f);
      assert rows == [rows[0]] + rows[1..];
      if Distinct(rows) && rows[0] != f {
        assert rows[0] !in rows[1..];
        assert rows[0] !in rest;
      }
    }
  }

  lemma {:induction false} WithoutCutsOne(a: Table, f: Favorite, b: Table)
    requires f !in a && f !in b
    ensures Without(a + [f] + b, f) == a + b
    decreases |a|
  {
    if a == [] {
      assert a + [f] + b == [f] + b;
      WithoutIsTheRest(b, f);
    } else {
      assert (a + [f] + b)[1..] == a[1..] + [f] + b;
      WithoutCutsOne(a[1..], f, b);
      assert [a[0]] + (a[1..] + b) == a + b;
    }
  }

  lemma OnlyHere(rows: Table, k: nat)
    requires Distinct(rows) && k < |rows|
    ensures rows[k] !in rows[..k] && rows[k] !in rows[k + 1..]
  {
  }

  lemma CutAt(rows: Table, k: nat)
    requires k < |rows|
    ensures rows[..k] + [rows[k]] + rows[k + 1..] == rows
  {
  }

  /** In a table without repetition, the row is cut out and the others keep their order. */
  lemma WithoutCutsOut(rows: Table, k: nat)
    requires Distinct(rows) && k < |rows|
    ensures Without(rows, rows[k]) == rows[..k] + rows[k + 1..]
  {
    OnlyHere(rows, k);
    CutAt(rows, k);
    WithoutCutsOne(rows[..k], rows[k], rows[k + 1..]);
  }

  /** `a` stands before `b` in the list. */
  predicate StandsBefore(list: seq<Wallpaper>, a: Wallpaper, b: Wallpaper) {
    exists x, y | 0 <= x < y < |list| :: list[x] == a && list[y] == b
  }

  lemma {:induction false} OfUserConcat(a: Table, b: Table, user: User)
    ensures OfUser(a + b, user) == OfUser(a, user) + OfUser(b, user)
    decreases |a|
  {
    if a == [] {
      assert a + b == b;
    } else {
      assert (a + b)[1..] == a[1..] + b;
      OfUserConcat(a[1..], b, user);
    }
  }

  /** A user's favourites are listed in the order of the table, newest first. */
  lemma OfUserKeepsOrder(rows: Table, i: nat, j: nat)
    requires i < j < |rows| && rows[i].user == rows[j].user
    ensures StandsBefore(OfUser(rows, rows[i].user), rows[i].wallpaper, rows[j].wallpaper)
  {
    var user, a, b := rows[i].user, rows[..j], rows[j..];
    assert rows == a + b;
    OfUserConcat(a, b, user);
    OfUserMembers(a, user);
    assert a[i] == rows[i] && Favorite(user, rows[i].wallpaper) in a;
    var x :| 0 <= x < |OfUser(a, user)| && OfUser(a, user)[x] == rows[i].wallpaper;
    var y := |OfUser(a, user)|;
    assert OfUser(b, user)[0] == rows[j].wallpaper;
    assert OfUser(rows, user)[x] == rows[i].wallpaper && OfUser(rows, user)[y] == rows[j].wallpaper;
  }

  /** So is the answer to a request for them. */
  lemma ListingIsNewestFirst(rows: Table, wallpapers: set<Wallpaper>, i: nat, j: nat)
    requires TableOk(rows, wallpapers) && i < j < |rows| && rows[i].user == rows[j].user
    ensures StandsBefore(Join(OfUser(rows, rows[i].user), wallpapers), rows[i].wallpaper, rows[j].wallpaper)
  {
    ListingMatchesTable(rows, wallpapers, rows[i].user);
    CountMatchesJoin(OfUser(rows, rows[i].user), wallpapers);
    OfUserKeepsOrder(rows, i, j);
  }

  /** After a new favourite is added in front, the first page begins with it. */
  lemma NewFavoriteComesFirst(rows: Table, wallpapers: set<Wallpaper>, f: Favorite, limit: int)
    requires TableOk(rows, wallpapers) && f !in rows && f.wallpaper in wallpapers && 0 < limit < 0x8000_0000
    ensures
      var now := [f] + rows;
      var page := Window(Join(OfUser(now, f.user), wallpapers), |OfUser(now, f.user)|, limit, 0);
      page.Some? && page.value.items != [] && page.value.items[0] == f.wallpaper
  {
    var now := [f] + rows;
    assert now[0] == f;
    assert OfUser(now, f.user)[0] == f.wallpaper;
  }

  /** Add the favourite in front if it is absent, remove it if it is present. */
  function Toggled(rows: Table, f: Favorite): Table {
    if f in rows then Without(rows, f) else [f] + rows
  }

  /** Toggling twice restores the table, except that a favourite that was there moves to the front. */
  lemma ToggleTwice(rows: Table, f: Favorite)
    ensures Toggled(Toggled(rows, f), f) == if f in rows then [f] + Without(rows, f) else rows
  {
    WithoutIsTheRest(rows, f);
    if f !in rows { assert ([f] + rows)[1..] == rows; }
  }

  datatype Answer = Now(favorited: bool) | Failed

  datatype Listing = Listing(items: seq<Wallpaper>, total: nat)

  class Service {
    var rows: Table
    const wallpapers: set<Wallpaper>

    constructor (wallpapers: set<Wallpaper>)
      ensures rows == [] && this.wallpapers == wallpapers && TableOk(rows, wallpapers)
    {
      rows, this.wallpapers := [], wallpapers;
    }

    /** The insert is refused for a wallpaper that does not exist. */
    method Toggle(user: User, wallpaper: Wallpaper, checkOk: bool, writeOk: bool) returns (r: Answer)
      requires TableOk(rows, wallpapers)
      modifies this`rows
      ensures TableOk(rows, wallpapers)
      ensures r.Now? <==> checkOk && writeOk && (Favorite(user, wallpaper) in old(rows) || wallpaper in wallpapers)
      ensures r.Now? ==>
        && rows == Toggled(old(rows), Favorite(user, wallpaper))
        && (r.favorited <==> Favorite(user, wallpaper) in rows)
      ensures r.Failed? ==> rows == old(rows)
      ensures r == Now(true) ==> rows == [Favorite(user, wallpaper)] + old(rows)
      ensures r == Now(false) ==>
        exists k | 0 <= k < |old(rows)| ::
          old(rows)[k] == Favorite(user, wallpaper) && rows == old(rows)[..k] + old(rows)[k + 1..]
    {
      var f := Favorite(user, wallpaper);
      WithoutIsTheRest(rows, f);
      if !checkOk { return Failed; }
      var present := f in rows;
      if present {
        if !writeOk { return Failed; }
        ghost var k :| 0 <= k < |rows| && rows[k] == f;
        WithoutCutsOut(rows, k);
        rows := Without(rows, f);
        return Now(false);
      }
      if !writeOk || wallpaper !in wallpapers { return Failed; }
      rows := [f] + rows;
      return Now(true);
    }

    /** Limit and offset pass through int32; the database refuses negative ones. */
    method ListByUser(user: User, limit: int, offset: int, countOk: bool, listOk: bool) returns (r: Option<Listing>)
      ensures r == if countOk && listOk
                   then Window(Join(OfUser(rows, user), wallpapers), |OfUser(rows, user)|, limit, offset) else None
      ensures r.None? <==> !countOk || !listOk || Int32(offset) < 0 || Int32(limit) < 0
      ensures r.Some? ==> r.value.total == |OfUser(rows, user)| && |r.value.items| <= Int32(limit)
    {
      if !countOk { return None; }
      var mine := OfUser(rows, user);
      var total := |mine|;
      var off, lim := Int32(offset), Int32(limit);
      if !listOk || off < 0 || lim < 0 { return None; }
      var joined := Join(mine, wallpapers);
      var from := Min(off, |joined|);
      return Some(Listing(joined[from..Min(from + lim, |joined|)], total));
    }
  }

  function Window(list: seq<Wallpaper>, total: nat, limit: int, offset: int): Option<Listing> {
    if Int32(offset) < 0 || Int32(limit) < 0 then None
    else
      var from := Min(Int32(offset), |list|);
      Some(Listing(list[from..Min(from + Int32(limit), |list|)], total))
  }

  // ----- The request -----

  datatype Pagination = Pagination(limit: int, offset: int)

  /** A parameter is absent or unreadable (None), or a number. */
  function ParsePagination(limit: Option<int>, offset: Option<int>, defaultLimit: int, maxLimit: int): (p: Pagination)
    ensures limit.None? || limit.value <= 0 ==> p.limit == defaultLimit
    ensures limit.Some? && 0 < limit.value <= maxLimit ==> p.limit == limit.value
    ensures limit.Some? && limit.value > 0 && limit.value > maxLimit ==> p.limit == maxLimit
    ensures p.offset >= 0 && (offset == Some(p.offset) || p.offset == 0)
    ensures offset.Some? && offset.value > 0 ==> p.offset == offset.value
  {
    Pagination(
      if limit.Some? && limit.value > 0 then Min(limit.value, maxLimit) else defaultLimit,
      if offset.Some? && offset.value >= 0 then offset.value else 0)
  }

  datatype Page = Page(items: seq<Wallpaper>, total: nat, limit: int, offset: int)

  datatype Server = Server(list: seq<Wallpaper>, defaultLimit: int, maxLimit: int)

  /** A request for one page and its answer, when the network carries both. */
  function Fetch(s: Server, limit: int, offset: int): Option<Page> {
    var p := ParsePagination(Some(limit), Some(offset), s.defaultLimit, s.maxLimit);
    match Window(s.list, |s.list|, p.limit, p.offset)
    case None => None
    case Some(listing) => Some(Page(listing.items, listing.total, p.limit, p.offset))
  }

  // ----- The view model -----

  const PAGE_SIZE := 20

  datatype View = View(
    favorites: seq<Wallpaper>,
    isLoading: bool,
    error: Option<string>,
    currentOffset: int,
    hasMore: bool)

  const INITIAL := View([], true, None, 0, false)

  function Loaded(v: View, response: Option<Page>): View {
    match response
    case Some(p) => v.(favorites := p.items, isLoading := false, currentOffset := 0,
                       hasMore := p.offset + |p.items| < p.total)
    case None => v.(error := Some("Failed to load favorites."), isLoading := false, currentOffset := 0)
  }

  function LoadedMore(v: View, response: Option<Page>): View {
    var next := v.currentOffset + PAGE_SIZE;
    match response
    case Some(p) => v.(favorites := v.favorites + p.items, currentOffset := next,
                       hasMore := next + |p.items| < p.total)
    case None => v.(error := Some("Failed to load more favorites."), currentOffset := next)
  }

  class FavoritesViewModel {
    var favorites: seq<Wallpaper>
    var isLoading: bool
    var error: Option<string>
    var currentOffset: int
    var hasMore: bool

    constructor ()
      ensures Abs() == INITIAL
    {
      favorites, isLoading, error, currentOffset, hasMore := [], true, None, 0, false;
    }

    ghost function Abs(): View
      reads this
    {
      View(favorites, isLoading, error, currentOffset, hasMore)
    }

    /** `up` says whether the request reaches the server and back. */
    method Load(server: Server, up: bool, cancelled: bool)
      modifies this
      ensures Abs() == Step(server, old(Abs()), LoadEvent(up, cancelled))
      ensures cancelled ==> Abs() == old(Abs())
      ensures !cancelled ==> !isLoading && currentOffset == 0
      ensures !cancelled ==>
        match (if up then Fetch(server, PAGE_SIZE, 0) else None)
        case Some(page) => favorites == page.items && error == old(error)
        case None =>
          && favorites == old(favorites) && hasMore == old(hasMore)
          && error == Some("Failed to load favorites.")
    {
      if cancelled { return; }
      isLoading := true;
      currentOffset := 0;
      var response := if up then Fetch(server, PAGE_SIZE, 0) else None;
      if response.Some? {
        favorites := response.value.items;
        hasMore := response.value.offset + |response.value.items| < response.value.total;
      } else {
        error := Some("Failed to load favorites.");
      }
      isLoading := false;
    }

    method LoadMore(server: Server, up: bool, cancelled: bool)
      modifies this
      ensures Abs() == Step(server, old(Abs()), MoreEvent(up, cancelled))
      ensures cancelled || !old(hasMore) ==> Abs() == old(Abs())
      ensures !cancelled && old(hasMore) ==> currentOffset == old(currentOffset) + PAGE_SIZE
      ensures isLoading == old(isLoading) && old(favorites) <= favorites
      ensures !cancelled && old(hasMore) && !up ==>
        favorites == old(favorites) && hasMore && error == Some("Failed to load more favorites.")
    {
      if !hasMore || cancelled { return; }
      currentOffset := currentOffset + PAGE_SIZE;
      var response := if up then Fetch(server, PAGE_SIZE, currentOffset) else None;
      if response.Some? {
        favorites := favorites + response.value.items;
        hasMore := currentOffset + |response.value.items| < response.value.total;
      } else {
        error := Some("Failed to load more favorites.");
      }
    }
  }

  datatype Event = LoadEvent(up: bool, cancelled: bool) | MoreEvent(up: bool, cancelled: bool)

  function Step(s: Server, v: View, e: Event): View {
    if e.cancelled || (e.MoreEvent? && !v.hasMore) then v
    else if e.LoadEvent? then Loaded(v, if e.up then Fetch(s, PAGE_SIZE, 0) else None)
    else LoadedMore(v, if e.up then Fetch(s, PAGE_SIZE, v.currentOffset + PAGE_SIZE) else None)
  }

  // ----- Paging to the end rebuilds the list -----

  predicate Addressable(s: Server) { 0 <= s.maxLimit < 0x8000_0000 && |s.list| + PAGE_SIZE < 0x8000_0000 }

  /** The page length the server grants. */
  function Granted(s: Server): int { Min(PAGE_SIZE, s.maxLimit) }

  lemma FetchIsSlice(s: Server, offset: nat)
    requires Addressable(s) && offset < 0x8000_0000
    ensures
      var from := Min(offset, |s.list|);
      Fetch(s, PAGE_SIZE, offset)
      == Some(Page(s.list[from..Min(from + Granted(s), |s.list|)], |s.list|, Granted(s), offset))
  {
  }

  predicate Consistent(s: Server, v: View) {
    0 <= v.currentOffset && (v.hasMore ==> v.currentOffset < |s.list|)
  }

  /** Keep loading while there is more; each call moves the offset towards the total. */
  function Drain(s: Server, v: View): (r: View)
    requires Addressable(s) && Consistent(s, v)
    ensures !r.hasMore
    decreases |s.list| - v.currentOffset, v.hasMore
  {
    if !v.hasMore then v
    else
      FetchIsSlice(s, v.currentOffset + PAGE_SIZE);
      Drain(s, Step(s, v, MoreEvent(true, false)))
  }

  lemma {:induction false} DrainRebuilds(s: Server, v: View)
    requires Addressable(s) && Consistent(s, v) && s.maxLimit >= PAGE_SIZE
    requires v.favorites == s.list[..Min(v.currentOffset + PAGE_SIZE, |s.list|)]
    requires v.hasMore == (v.currentOffset + PAGE_SIZE < |s.list|)
    ensures Drain(s, v).favorites == s.list
    decreases |s.list| - v.currentOffset
  {
    if v.hasMore {
      FetchIsSlice(s, v.currentOffset + PAGE_SIZE);
      DrainRebuilds(s, Step(s, v, MoreEvent(true, false)));
    }
  }

  lemma {:induction false} DrainLosesItems(s: Server, v: View)
    requires Addressable(s) && Consistent(s, v) && s.maxLimit < PAGE_SIZE
    requires |v.favorites| < |s.list| && |v.favorites| <= v.currentOffset + s.maxLimit
    ensures |Drain(s, v).favorites| < |s.list|
    decreases |s.list| - v.currentOffset
  {
    if v.hasMore {
      FetchIsSlice(s, v.currentOffset + PAGE_SIZE);
      DrainLosesItems(s, Step(s, v, MoreEvent(true, false)));
    }
  }

  /** For an unchanging list, loading and then loading more until there is no more yields exactly
      the server's list, if and only if the server's cap covers the client's page size or the whole
      list. */
  lemma PagingRebuildsExactly(s: Server, v: View)
    requires Addressable(s)
    ensures
      var first := Step(s, v, LoadEvent(true, false));
      && Consistent(s, first)
      && (Drain(s, first).favorites == s.list <==> s.maxLimit >= PAGE_SIZE || |s.list| <= s.maxLimit)
  {
    FetchIsSlice(s, 0);
    var first := Step(s, v, LoadEvent(true, false));
    if s.maxLimit >= PAGE_SIZE {
      DrainRebuilds(s, first);
    } else if |s.list| > s.maxLimit {
      DrainLosesItems(s, first);
    }
  }

  /** For a table that Toggle maintains, the view's server answers as ListByUser does, and paging to
      the end yields exactly the user's favourites, each once. */
  lemma PagingYieldsFavorites(rows: Table, wallpapers: set<Wallpaper>, user: User, s: Server, v: View)
    requires TableOk(rows, wallpapers) && s.list == Join(OfUser(rows, user), wallpapers)
    requires Addressable(s) && (s.maxLimit >= PAGE_SIZE || |s.list| <= s.maxLimit)
    ensures forall limit, offset ::
              Window(s.list, |OfUser(rows, user)|, limit, offset) == Window(s.list, |s.list|, limit, offset)
    ensures
      var first := Step(s, v, LoadEvent(true, false));
      && Consistent(s, first)
      && var items := Drain(s, first).favorites;
         && Distinct(items) && (forall w :: w in items <==> Favorite(user, w) in rows)
         && (forall i, j | 0 <= i < j < |rows| && rows[i].user == user == rows[j].user ::
               StandsBefore(items, rows[i].wallpaper, rows[j].wallpaper))
  {
    ListingMatchesTable(rows, wallpapers, user);
    PagingRebuildsExactly(s, v);
    forall i, j | 0 <= i < j < |rows| && rows[i].user == user == rows[j].user
      ensures StandsBefore(s.list, rows[i].wallpaper, rows[j].wallpaper)
    {
      ListingIsNewestFirst(rows, wallpapers, i, j);
    }
  }

  // ----- Runs with failures -----

  function After(s: Server, events: seq<Event>): View
    decreases |events|
  {
    if events == [] then INITIAL else Step(s, After(s, events[..|events| - 1]), events[|events| - 1])
  }

  // ----- What a caller can note -----

  /** `attempts` counts the loadMore calls tried since the last load, and `received` holds the value
      of that count at each answer since the last load that was answered. A caller sees all of it:
      its own calls, `hasMore`, and whether a call failed. */
  datatype Ledger = Ledger(attempts: nat, received: seq<nat>)

  function Note(hasMore: bool, g: Ledger, e: Event): Ledger {
    if e.cancelled || (e.MoreEvent? && !hasMore) then g
    else if e.LoadEvent? then Ledger(0, if e.up then [0] else g.received)
    else Ledger(g.attempts + 1, if e.up then g.received + [g.attempts + 1] else g.received)
  }

  function Noted(s: Server, events: seq<Event>): Ledger
    decreases |events|
  {
    if events == [] then Ledger(0, [])
    else
      var init := events[..|events| - 1];
      Note(After(s, init).hasMore, Noted(s, init), events[|events| - 1])
  }

  lemma Snoc(s: Server, events: seq<Event>, e: Event)
    ensures After(s, events + [e]) == Step(s, After(s, events), e)
    ensures Noted(s, events + [e]) == Note(After(s, events).hasMore, Noted(s, events), e)
  {
    var longer := events + [e];
    assert longer[..|longer| - 1] == events;
  }

  predicate Increasing(pages: seq<nat>) { forall i, j | 0 <= i < j < |pages| :: pages[i] < pages[j] }

  lemma IncreasingSnoc(pages: seq<nat>, p: nat)
    requires Increasing(pages)
    ensures Increasing(pages + [p]) <==> pages == [] || pages[|pages| - 1] < p
  {
    var longer := pages + [p];
    if pages != [] && Increasing(longer) { assert longer[|pages| - 1] < longer[|pages|]; }
  }

  lemma NotIncreasingSnoc(pages: seq<nat>, p: nat)
    requires !Increasing(pages)
    ensures !Increasing(pages + [p])
  {
    var i, j :| 0 <= i < j < |pages| && pages[i] >= pages[j];
    assert (pages + [p])[i] >= (pages + [p])[j];
  }

  /** Every offset that the run has come to is one that an int32 can hold. */
  predicate OffsetsFit(s: Server, events: seq<Event>)
    decreases |events|
  {
    After(s, events).currentOffset < 0x8000_0000 && (events != [] ==> OffsetsFit(s, events[..|events| - 1]))
  }

  // ----- Whole pages -----

  function PageStart(s: Server, p: nat): nat { Min(p * PAGE_SIZE, |s.list|) }

  function PageItems(s: Server, p: nat): seq<Wallpaper> { s.list[PageStart(s, p)..PageStart(s, p + 1)] }

  function Contents(s: Server, pages: seq<nat>): seq<Wallpaper>
    decreases |pages|
  {
    if pages == [] then [] else Contents(s, pages[..|pages| - 1]) + PageItems(s, pages[|pages| - 1])
  }

  lemma ContentsSnoc(s: Server, pages: seq<nat>, p: nat)
    ensures Contents(s, pages + [p]) == Contents(s, pages) + PageItems(s, p)
  {
    assert (pages + [p])[..|pages|] == pages;
  }

  lemma {:induction false} OffsetCountsAttempts(s: Server, events: seq<Event>)
    ensures After(s, events).currentOffset == Noted(s, events).attempts * PAGE_SIZE
    decreases |events|
  {
    if events != [] { OffsetCountsAttempts(s, events[..|events| - 1]); }
  }

  lemma PageFetch(s: Server, p: nat)
    requires Addressable(s) && s.maxLimit >= PAGE_SIZE && p * PAGE_SIZE < 0x8000_0000
    ensures Fetch(s, PAGE_SIZE, p * PAGE_SIZE) == Some(Page(PageItems(s, p), |s.list|, PAGE_SIZE, p * PAGE_SIZE))
    ensures p * PAGE_SIZE + |PageItems(s, p)| < |s.list| <==> (p + 1) * PAGE_SIZE < |s.list|
  {
    FetchIsSlice(s, p * PAGE_SIZE);
  }

  /** An answered call appends the page whose number is noted, or begins again with page 0. */
  lemma AnsweredStep(s: Server, v: View, g: Ledger, e: Event)
    requires Addressable(s) && s.maxLimit >= PAGE_SIZE
    requires v.currentOffset == g.attempts * PAGE_SIZE && Step(s, v, e).currentOffset < 0x8000_0000
    requires e.up && !e.cancelled && (e.MoreEvent? ==> v.hasMore)
    ensures
      var p := if e.LoadEvent? then 0 else g.attempts + 1;
      && Step(s, v, e).favorites == (if e.LoadEvent? then [] else v.favorites) + PageItems(s, p)
      && Step(s, v, e).hasMore == ((p + 1) * PAGE_SIZE < |s.list|)
      && Note(v.hasMore, g, e) == Ledger(p, (if e.LoadEvent? then [] else g.received) + [p])
  {
    PageFetch(s, if e.LoadEvent? then 0 else g.attempts + 1);
  }

  predicate Answered(v: View, e: Event) { e.up && !e.cancelled && (e.MoreEvent? ==> v.hasMore) }

  lemma UnansweredStep(s: Server, v: View, g: Ledger, e: Event)
    requires !Answered(v, e)
    ensures Step(s, v, e).favorites == v.favorites && Step(s, v, e).hasMore == v.hasMore
    ensures Note(v.hasMore, g, e).received == g.received
  {
  }

  /** Whatever fails, the view holds whole pages of the server's list. */
  lemma {:induction false} ViewHoldsWholePages(s: Server, events: seq<Event>)
    requires Addressable(s) && s.maxLimit >= PAGE_SIZE && OffsetsFit(s, events)
    ensures After(s, events).favorites == Contents(s, Noted(s, events).received)
    decreases |events|
  {
    if events != [] {
      var init, e := events[..|events| - 1], events[|events| - 1];
      var v, g := After(s, init), Noted(s, init);
      ViewHoldsWholePages(s, init);
      OffsetCountsAttempts(s, init);
      if Answered(v, e) {
        AnsweredStep(s, v, g, e);
        ContentsSnoc(s, if e.LoadEvent? then [] else g.received, if e.LoadEvent? then 0 else g.attempts + 1);
      } else {
        UnansweredStep(s, v, g, e);
      }
    }
  }

  // ----- Order -----

  /** The position of an item in the list, or the list's length if it is not there. */
  function Rank(list: seq<Wallpaper>, x: Wallpaper): nat {
    if list == [] || list[0] == x then 0 else 1 + Rank(list[1..], x)
  }

  lemma {:induction false} RankOfItem(list: seq<Wallpaper>, k: nat)
    requires Distinct(list) && k < |list|
    ensures Rank(list, list[k]) == k
    decreases |list|
  {
    if k > 0 { RankOfItem(list[1..], k - 1); }
  }

  /** Items stand in the order of the list, and so none is there twice. */
  predicate InListOrder(list: seq<Wallpaper>, items: seq<Wallpaper>) {
    forall i, j | 0 <= i < j < |items| :: Rank(list, items[i]) < Rank(list, items[j])
  }

  predicate RankedBefore(list: seq<Wallpaper>, items: seq<Wallpaper>, n: nat) {
    forall i | 0 <= i < |items| :: Rank(list, items[i]) < n
  }

  lemma SliceRanks(list: seq<Wallpaper>, lo: nat, hi: nat, k: nat)
    requires Distinct(list) && lo <= hi <= |list| && k < hi - lo
    ensures Rank(list, list[lo..hi][k]) == lo + k
  {
    RankOfItem(list, lo + k);
  }

  /** A later part of the list may follow items from an earlier part. */
  lemma AppendKeepsOrder(list: seq<Wallpaper>, items: seq<Wallpaper>, lo: nat, hi: nat)
    requires Distinct(list) && lo <= hi <= |list| && InListOrder(list, items) && RankedBefore(list, items, lo)
    ensures InListOrder(list, items + list[lo..hi]) && RankedBefore(list, items + list[lo..hi], hi)
  {
    var part := list[lo..hi];
    forall k | 0 <= k < |part| ensures Rank(list, part[k]) == lo + k { SliceRanks(list, lo, hi, k); }
  }

  /** A part of the list may not follow an item at or after its own start. */
  lemma AppendBreaksOrder(list: seq<Wallpaper>, items: seq<Wallpaper>, h: nat, lo: nat, hi: nat)
    requires Distinct(list) && lo <= h < |list| && lo < hi <= |list| && list[h] in items
    ensures !InListOrder(list, items + list[lo..hi])
  {
    var longer := items + list[lo..hi];
    var i :| 0 <= i < |items| && items[i] == list[h];
    RankOfItem(list, h);
    RankOfItem(list, lo);
    assert longer[i] == list[h] && longer[|items|] == list[lo];
  }

  lemma BrokenStaysBroken(list: seq<Wallpaper>, items: seq<Wallpaper>, more: seq<Wallpaper>)
    requires !InListOrder(list, items)
    ensures !InListOrder(list, items + more)
  {
    var i, j :| 0 <= i < j < |items| && Rank(list, items[i]) >= Rank(list, items[j]);
    assert (items + more)[i] == items[i] && (items + more)[j] == items[j];
  }

  /** The favourites and the noted pages: both in order or neither, and the last page is there. */
  predicate PagesTrack(s: Server, items: seq<Wallpaper>, received: seq<nat>)
    requires received != []
  {
    var last := received[|received| - 1];
    && (InListOrder(s.list, items) <==> Increasing(received))
    && (Increasing(received) ==> RankedBefore(s.list, items, PageStart(s, last + 1)))
    && (last * PAGE_SIZE < |s.list| ==> s.list[last * PAGE_SIZE] in items)
  }

  predicate Tracks(s: Server, v: View, g: Ledger) {
    && v.currentOffset == g.attempts * PAGE_SIZE
    && (g.received == [] ==> v.favorites == [] && !v.hasMore)
    && (g.received != [] ==>
          && PagesTrack(s, v.favorites, g.received)
          && (v.hasMore ==> (g.received[|g.received| - 1] + 1) * PAGE_SIZE < |s.list|))
  }

  lemma PageHead(s: Server, items: seq<Wallpaper>, p: nat)
    requires p * PAGE_SIZE < |s.list|
    ensures s.list[p * PAGE_SIZE] in items + PageItems(s, p)
  {
    assert (items + PageItems(s, p))[|items|] == s.list[p * PAGE_SIZE];
  }

  lemma FirstPageTracks(s: Server)
    requires Distinct(s.list)
    ensures PagesTrack(s, [] + PageItems(s, 0), [0])
  {
    assert PageStart(s, 0) == 0;
    AppendKeepsOrder(s.list, [], 0, PageStart(s, 1));
    if 0 < |s.list| { PageHead(s, [], 0); }
  }

  lemma LaterPageTracks(s: Server, items: seq<Wallpaper>, received: seq<nat>, p: nat)
    requires Distinct(s.list) && received != [] && PagesTrack(s, items, received)
    requires Increasing(received) && received[|received| - 1] < p
    ensures PagesTrack(s, items + PageItems(s, p), received + [p])
  {
    IncreasingSnoc(received, p);
    assert RankedBefore(s.list, items, PageStart(s, p));
    AppendKeepsOrder(s.list, items, PageStart(s, p), PageStart(s, p + 1));
    if p * PAGE_SIZE < |s.list| { PageHead(s, items, p); }
  }

  lemma EarlierPageBreaksOrder(s: Server, items: seq<Wallpaper>, received: seq<nat>, p: nat)
    requires Distinct(s.list) && received != [] && PagesTrack(s, items, received)
    requires (received[|received| - 1] + 1) * PAGE_SIZE < |s.list|
    requires !Increasing(received) || p <= received[|received| - 1]
    ensures !InListOrder(s.list, items + PageItems(s, p)) && !Increasing(received + [p])
  {
    if !Increasing(received) {
      NotIncreasingSnoc(received, p);
      BrokenStaysBroken(s.list, items, PageItems(s, p));
    } else {
      IncreasingSnoc(received, p);
      AppendBreaksOrder(s.list, items, received[|received| - 1] * PAGE_SIZE, PageStart(s, p), PageStart(s, p + 1));
    }
  }

  /** Page `p` follows what is there in order exactly when it is later than the last page received. */
  lemma NextPageTracks(s: Server, items: seq<Wallpaper>, received: seq<nat>, p: nat)
    requires Distinct(s.list) && received != [] && PagesTrack(s, items, received)
    requires (received[|received| - 1] + 1) * PAGE_SIZE < |s.list|
    ensures PagesTrack(s, items + PageItems(s, p), received + [p])
  {
    if Increasing(received) && received[|received| - 1] < p {
      LaterPageTracks(s, items, received, p);
    } else {
      EarlierPageBreaksOrder(s, items, received, p);
      if p * PAGE_SIZE < |s.list| { PageHead(s, items, p); }
    }
  }

  lemma PageOrderExactly(s: Server, items: seq<Wallpaper>, received: seq<nat>, p: nat)
    requires Distinct(s.list) && received != [] && PagesTrack(s, items, received)
    requires (received[|received| - 1] + 1) * PAGE_SIZE < |s.list| && InListOrder(s.list, items)
    ensures InListOrder(s.list, items + PageItems(s, p)) <==> received[|received| - 1] < p
  {
    if received[|received| - 1] < p {
      LaterPageTracks(s, items, received, p);
    } else {
      EarlierPageBreaksOrder(s, items, received, p);
    }
  }

  lemma AnsweredLoadTracks(s: Server, v: View, g: Ledger, e: Event)
    requires Addressable(s) && s.maxLimit >= PAGE_SIZE && Distinct(s.list)
    requires Tracks(s, v, g) && Answered(v, e) && e.LoadEvent?
    ensures Tracks(s, Step(s, v, e), Note(v.hasMore, g, e))
  {
    AnsweredStep(s, v, g, e);
    FirstPageTracks(s);
  }

  lemma AnsweredMoreTracks(s: Server, v: View, g: Ledger, e: Event)
    requires Addressable(s) && s.maxLimit >= PAGE_SIZE && Distinct(s.list)
    requires Tracks(s, v, g) && Answered(v, e) && e.MoreEvent? && Step(s, v, e).currentOffset < 0x8000_0000
    ensures Tracks(s, Step(s, v, e), Note(v.hasMore, g, e))
  {
    AnsweredStep(s, v, g, e);
    NextPageTracks(s, v.favorites, g.received, g.attempts + 1);
  }

  lemma UnansweredTracks(s: Server, v: View, g: Ledger, e: Event)
    requires Tracks(s, v, g) && !Answered(v, e)
    ensures Tracks(s, Step(s, v, e), Note(v.hasMore, g, e))
  {
    UnansweredStep(s, v, g, e);
  }

  lemma {:induction false} RunTracks(s: Server, events: seq<Event>)
    requires Addressable(s) && s.maxLimit >= PAGE_SIZE && Distinct(s.list) && OffsetsFit(s, events)
    ensures Tracks(s, After(s, events), Noted(s, events))
    decreases |events|
  {
    if events != [] {
      var init, e := events[..|events| - 1], events[|events| - 1];
      RunTracks(s, init);
      if !Answered(After(s, init), e) {
        UnansweredTracks(s, After(s, init), Noted(s, init), e);
      } else if e.LoadEvent? {
        AnsweredLoadTracks(s, After(s, init), Noted(s, init), e);
      } else {
        AnsweredMoreTracks(s, After(s, init), Noted(s, init), e);
      }
    }
  }

  /** In every run, with any calls failing, the favourites are an in-order selection of the server's
      list without repetition, if and only if each answered loadMore was a later attempt, counted
      from the last load, than the one answered before it. */
  lemma OrderKeptExactly(s: Server, events: seq<Event>)
    requires Addressable(s) && s.maxLimit >= PAGE_SIZE && Distinct(s.list) && OffsetsFit(s, events)
    ensures InListOrder(s.list, After(s, events).favorites) <==> Increasing(Noted(s, events).received)
  {
    RunTracks(s, events);
  }

  /** What to check before a call: an answered loadMore keeps the order exactly when there have been,
      since the last load, at least as many attempts as the number of the last page received. */
  lemma MoreKeepsOrderExactly(s: Server, events: seq<Event>)
    requires Addressable(s) && s.maxLimit >= PAGE_SIZE && Distinct(s.list)
    requires OffsetsFit(s, events) && After(s, events).currentOffset + PAGE_SIZE < 0x8000_0000
    requires InListOrder(s.list, After(s, events).favorites) && After(s, events).hasMore
    ensures
      var g := Noted(s, events);
      && g.received != []
      && (InListOrder(s.list, After(s, events + [MoreEvent(true, false)]).favorites)
          <==> g.received[|g.received| - 1] <= g.attempts)
  {
    RunTracks(s, events);
    Snoc(s, events, MoreEvent(true, false));
    MoreStepOrder(s, After(s, events), Noted(s, events));
  }

  lemma MoreStepOrder(s: Server, v: View, g: Ledger)
    requires Addressable(s) && s.maxLimit >= PAGE_SIZE && Distinct(s.list)
    requires Tracks(s, v, g) && v.hasMore && v.currentOffset + PAGE_SIZE < 0x8000_0000
    requires InListOrder(s.list, v.favorites)
    ensures g.received != []
    ensures InListOrder(s.list, Step(s, v, MoreEvent(true, false)).favorites)
       <==> g.received[|g.received| - 1] <= g.attempts
  {
    AnsweredStep(s, v, g, MoreEvent(true, false));
    PageOrderExactly(s, v.favorites, g.received, g.attempts + 1);
  }

  predicate FailedLoad(e: Event) { e.LoadEvent? && !e.up && !e.cancelled }

  predicate AnsweredLoad(e: Event) { e.LoadEvent? && e.up && !e.cancelled }

  /** No load fails once one has succeeded. */
  predicate NoFailedReload(events: seq<Event>) {
    forall i, j | 0 <= i < j < |events| :: AnsweredLoad(events[i]) ==> !FailedLoad(events[j])
  }

  lemma {:induction false} AttemptsKeepUp(s: Server, events: seq<Event>)
    requires NoFailedReload(events)
    ensures
      var g := Noted(s, events);
      && Increasing(g.received)
      && (g.received != [] ==> g.received[|g.received| - 1] <= g.attempts)
      && ((forall i | 0 <= i < |events| :: !AnsweredLoad(events[i])) ==> g.received == [] && !After(s, events).hasMore)
    decreases |events|
  {
    if events != [] {
      var init, e := events[..|events| - 1], events[|events| - 1];
      AttemptsKeepUp(s, init);
      if FailedLoad(e) {
        assert forall i | 0 <= i < |init| :: !AnsweredLoad(init[i]);
      }
    }
  }

  /** With any number of failed loadMore calls mixed in, the favourites are whole pages of the list,
      in its order and without repetition, as long as no reload fails. */
  lemma FailuresSkipPages(s: Server, events: seq<Event>)
    requires Addressable(s) && s.maxLimit >= PAGE_SIZE && Distinct(s.list) && OffsetsFit(s, events)
    requires NoFailedReload(events)
    ensures
      var items := After(s, events).favorites;
      InListOrder(s.list, items) && Distinct(items) && items == Contents(s, Noted(s, events).received)
  {
    var items := After(s, events).favorites;
    AttemptsKeepUp(s, events);
    OrderKeptExactly(s, events);
    ViewHoldsWholePages(s, events);
  }

  /** A reload that fails resets the offset but keeps the list, so the next loadMore appends a page
      that is already there. */
  lemma FailedReloadRepeatsPage(s: Server)
    requires Addressable(s) && s.maxLimit >= PAGE_SIZE && |s.list| > 2 * PAGE_SIZE
    ensures
      var events := [LoadEvent(true, false), MoreEvent(true, false), LoadEvent(false, false), MoreEvent(true, false)];
      After(s, events).favorites == s.list[..40] + s.list[20..40]
  {
    var a, b, c := LoadEvent(true, false), MoreEvent(true, false), LoadEvent(false, false);
    Snoc(s, [], a);
    Snoc(s, [a], b);
    Snoc(s, [a, b], c);
    Snoc(s, [a, b, c], b);
    assert [] + [a] == [a] && [a] + [b] == [a, b] && [a, b] + [c] == [a, b, c];
    assert [a, b, c] + [b] == [a, b, c, b];
    RepeatedPage(s, INITIAL);
  }

  lemma RepeatedPage(s: Server, v: View)
    requires Addressable(s) && s.maxLimit >= PAGE_SIZE && |s.list| > 2 * PAGE_SIZE
    ensures
      var a, b, c := LoadEvent(true, false), MoreEvent(true, false), LoadEvent(false, false);
      Step(s, Step(s, Step(s, Step(s, v, a), b), c), b).favorites
      == s.list[..2 * PAGE_SIZE] + s.list[PAGE_SIZE..2 * PAGE_SIZE]
  {
    FetchIsSlice(s, 0);
    FetchIsSlice(s, PAGE_SIZE);
    assert s.list[..PAGE_SIZE] + s.list[PAGE_SIZE..2 * PAGE_SIZE] == s.list[..2 * PAGE_SIZE];
  }
}
