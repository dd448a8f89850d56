/** The flow layout that wraps tags into rows. Lengths are reals. */
module FlowLayout {
  import opened Common

  datatype Item = Item(width: real, height: real)

  datatype Point = Point(x: real, y: real)

  datatype Size = Size(width: real, height: real)

  /** `maxWidth` is the proposed width; none means unbounded. */
  datatype Params = Params(spacing: real, maxWidth: Option<real>)

  // ----- Specification -----

  /** The loop's variables, and how many rows were broken off so far. */
  datatype Cursor = Cursor(x: real, y: real, rowHeight: real, maxX: real, row: nat)

  const ORIGIN := Cursor(0.0, 0.0, 0.0, 0.0, 0)

  function MaxReal(a: real, b: real): real { if a >= b then a else b }

  predicate Fits(p: Params, width: real) { p.maxWidth.Some? ==> width <= p.maxWidth.value }

  /** The cursor at which `item` is placed, after a row break if it does not fit. */
  function Place(p: Params, c: Cursor, item: Item): Cursor {
    if !Fits(p, c.x + item.width) && c.x > 0.0
    then c.(x := 0.0, y := c.y + c.rowHeight + p.spacing, rowHeight := 0.0, row := c.row + 1)
    else c
  }

  function Advance(p: Params, c: Cursor, item: Item): Cursor {
    var x := c.x + item.width + p.spacing;
    c.(x := x, rowHeight := MaxReal(c.rowHeight, item.height), maxX := MaxReal(c.maxX, x))
  }

  function After(p: Params, items: seq<Item>): Cursor
    decreases |items|
  {
    if items == [] then ORIGIN
    else
      var last := items[|items| - 1];
      Advance(p, Place(p, After(p, items[..|items| - 1]), last), last)
  }

  lemma AfterSnoc(p: Params, items: seq<Item>, item: Item)
    ensures After(p, items + [item]) == Advance(p, Place(p, After(p, items), item), item)
  {
    assert (items + [item])[..|items|] == items;
  }

  /** Where item `i` is placed; later items do not matter. */
  function At(p: Params, items: seq<Item>, i: nat): Cursor
    requires i < |items|
  {
    Place(p, After(p, items[..i]), items[i])
  }

  function Position(p: Params, items: seq<Item>, i: nat): Point
    requires i < |items|
  {
    Point(At(p, items, i).x, At(p, items, i).y)
  }

  function Total(p: Params, items: seq<Item>): Size {
    var c := After(p, items);
    Size(c.maxX, c.y + c.rowHeight)
  }

  // ----- The loop -----

  method Arrange(p: Params, items: seq<Item>) returns (positions: seq<Point>, size: Size)
    ensures |positions| == |items|
    ensures forall i | 0 <= i < |items| :: positions[i] == Position(p, items, i)
    ensures size == Total(p, items)
  {
    positions := [];
    var x, y, rowHeight, maxX := 0.0, 0.0, 0.0, 0.0;
    ghost var row: nat := 0;
    for n := 0 to |items|
      invariant Cursor(x, y, rowHeight, maxX, row) == After(p, items[..n])
      invariant |positions| == n
      invariant forall i | 0 <= i < n :: positions[i] == Position(p, items, i)
    {
      var item := items[n];
      if p.maxWidth.Some? && x + item.width > p.maxWidth.value && x > 0.0 {
        x := 0.0;
        y := y + (rowHeight + p.spacing);
        rowHeight := 0.0;
        row := row + 1;
      }
      positions := positions + [Point(x, y)];
      rowHeight := MaxReal(rowHeight, item.height);
      x := x + (item.width + p.spacing);
      maxX := MaxReal(maxX, x);
      assert items[..n + 1][..n] == items[..n];
    }
    assert items[..|items|] == items;
    size := Size(maxX, y + rowHeight);
  }

  /** Placing is arranging, moved to the origin of the bounds. */
  method PlaceSubviews(origin: Point, p: Params, items: seq<Item>) returns (placed: seq<Point>)
    ensures |placed| == |items|
    ensures forall i | 0 <= i < |items| ::
      placed[i] == Point(origin.x + Position(p, items, i).x, origin.y + Position(p, items, i).y)
  {
    var positions, _ := Arrange(p, items);
    placed := [];
    for n := 0 to |positions|
      invariant |placed| == n
      invariant forall i | 0 <= i < n :: placed[i] == Point(origin.x + positions[i].x, origin.y + positions[i].y)
    {
      placed := placed + [Point(origin.x + positions[n].x, origin.y + positions[n].y)];
    }
  }

  // ----- Soundness -----

  predicate NonNegative(p: Params, items: seq<Item>) {
    p.spacing >= 0.0 && forall i | 0 <= i < |items| :: items[i].width >= 0.0 && items[i].height >= 0.0
  }

  /** An item already placed, seen from the cursor that comes after it. */
  predicate Settled(p: Params, c: Cursor, at: Cursor, item: Item) {
    && at.x >= 0.0 && at.y >= 0.0
    && at.x + item.width + p.spacing <= c.maxX
    && at.y + item.height <= c.y + c.rowHeight
    && at.row <= c.row
    && (at.row == c.row ==> at.y == c.y && at.x + item.width + p.spacing <= c.x)
    && (at.row < c.row ==> at.y + item.height + p.spacing <= c.y)
  }

  lemma {:induction false} ItemsSettle(p: Params, items: seq<Item>, i: nat)
    requires NonNegative(p, items) && i < |items|
    ensures
      var c := After(p, items);
      c.x >= 0.0 && c.y >= 0.0 && c.rowHeight >= 0.0 && Settled(p, c, At(p, items, i), items[i])
    decreases |items|
  {
    var init := items[..|items| - 1];
    if init != [] { ItemsSettle(p, init, 0); }
    if i < |init| {
      ItemsSettle(p, init, i);
      assert init[..i] == items[..i];
    }
  }

  /** Two items share a row with the spacing between them, or the later one starts at least the
      spacing below the bottom of the earlier one. */
  lemma NoOverlap(p: Params, items: seq<Item>, i: nat, j: nat)
    requires NonNegative(p, items) && i < j < |items|
    ensures
      var a, b := Position(p, items, i), Position(p, items, j);
      || (a.y == b.y && a.x + items[i].width + p.spacing <= b.x)
      || a.y + items[i].height + p.spacing <= b.y
  {
    ItemsSettle(p, items[..j], i);
    assert items[..j][..i] == items[..i];
  }

  /** Every item lies inside the reported size, and one that is not first in its row ends within
      the proposed width. */
  lemma Contained(p: Params, items: seq<Item>, i: nat)
    requires NonNegative(p, items) && i < |items|
    ensures
      var a, size := Position(p, items, i), Total(p, items);
      && 0.0 <= a.x && a.x + items[i].width <= size.width
      && 0.0 <= a.y && a.y + items[i].height <= size.height
      && (a.x > 0.0 ==> Fits(p, a.x + items[i].width))
  {
    ItemsSettle(p, items, i);
  }

  /** The reported width is the rightmost end plus one trailing spacing. */
  lemma {:induction false} WidthIsTight(p: Params, items: seq<Item>)
    requires NonNegative(p, items) && items != []
    ensures exists i | 0 <= i < |items| :: Total(p, items).width == Position(p, items, i).x + items[i].width + p.spacing
    decreases |items|
  {
    var init, n := items[..|items| - 1], |items| - 1;
    assert items[..n] == init;
    if init == [] {
      assert Total(p, items).width == Position(p, items, 0).x + items[0].width + p.spacing;
    } else {
      ItemsSettle(p, init, 0);
      WidthIsTight(p, init);
      var i :| 0 <= i < n && Total(p, init).width == Position(p, init, i).x + init[i].width + p.spacing;
      assert init[..i] == items[..i];
      assert Position(p, items, i) == Position(p, init, i);
      if Total(p, items).width != Total(p, init).width {
        assert Total(p, items).width == Position(p, items, n).x + items[n].width + p.spacing;
      }
    }
  }

  /** The reported height is the lowest bottom edge, and it is found in the last row. */
  lemma {:induction false} HeightIsTight(p: Params, items: seq<Item>)
    requires NonNegative(p, items) && items != []
    ensures
      var n := |items| - 1;
      exists i | 0 <= i <= n ::
        && Position(p, items, i).y == Position(p, items, n).y
        && Total(p, items).height == Position(p, items, i).y + items[i].height
    decreases |items|
  {
    var init, n := items[..|items| - 1], |items| - 1;
    assert items[..n] == init;
    var c, here := After(p, init), At(p, items, n);
    if init == [] || here.row > c.row || items[n].height >= c.rowHeight {
      assert items[n].height >= here.rowHeight;
      assert Total(p, items).height == Position(p, items, n).y + items[n].height;
    } else {
      HeightIsTight(p, init);
      var i :| 0 <= i < n && Position(p, init, i).y == Position(p, init, n - 1).y
               && Total(p, init).height == Position(p, init, i).y + init[i].height;
      assert init[..i] == items[..i] && init[..n - 1] == items[..n - 1];
      assert Position(p, init, n - 1).y == c.y == Position(p, items, n).y;
      assert Position(p, items, i) == Position(p, init, i);
    }
  }

  lemma NothingHasNoSize(p: Params)
    ensures Total(p, []) == Size(0.0, 0.0)
  {
  }

  /** The first item stands in the corner. Each next one stands one spacing to the right of the one
      before it, in the same row, unless it does not fit there and the row is under way; then it
      begins a row one spacing below everything before it. */
  lemma NextPositionExactly(p: Params, items: seq<Item>, i: nat)
    requires i < |items|
    ensures i == 0 ==> Position(p, items, 0) == Point(0.0, 0.0)
    ensures i > 0 ==>
      var a, right := Position(p, items, i - 1), Position(p, items, i - 1).x + items[i - 1].width + p.spacing;
      Position(p, items, i) ==
        if right <= 0.0 || p.maxWidth.None? || right + items[i].width <= p.maxWidth.value then Point(right, a.y)
        else Point(0.0, Total(p, items[..i]).height + p.spacing)
  {
    if i > 0 {
      var init := items[..i];
      assert init[..i - 1] == items[..i - 1] && init[i - 1] == items[i - 1];
    }
  }

  /** The layout is reported at most one spacing wider than proposed exactly when no single item is
      wider than the proposal. */
  lemma OverhangIsOneSpacingExactly(p: Params, items: seq<Item>)
    requires NonNegative(p, items) && items != [] && p.maxWidth.Some?
    ensures Total(p, items).width <= p.maxWidth.value + p.spacing
       <==> forall i | 0 <= i < |items| :: items[i].width <= p.maxWidth.value
  {
    forall i | 0 <= i < |items|
      ensures 0.0 <= Position(p, items, i).x <= Total(p, items).width - items[i].width - p.spacing
    {
      ItemsSettle(p, items, i);
    }
    WidthIsTight(p, items);
    var i :| 0 <= i < |items| && Total(p, items).width == Position(p, items, i).x + items[i].width + p.spacing;
    Contained(p, items, i);
  }

  /** The reported width keeps to the proposal exactly when every item leaves room for one spacing
      after it, though nothing follows the last item of a row. */
  lemma WidthKeepsToProposalExactly(p: Params, items: seq<Item>)
    requires NonNegative(p, items) && items != [] && p.maxWidth.Some?
    ensures Total(p, items).width <= p.maxWidth.value
       <==> forall i | 0 <= i < |items| ::
              Position(p, items, i).x + items[i].width + p.spacing <= p.maxWidth.value
  {
    forall i | 0 <= i < |items|
      ensures Position(p, items, i).x + items[i].width + p.spacing <= Total(p, items).width
    {
      ItemsSettle(p, items, i);
    }
    WidthIsTight(p, items);
  }

  /** What a caller can check: proposing one spacing less than `width` keeps the report within `width`
      exactly when no single item is wider than that proposal. */
  lemma ReservedSpacingKeepsWidthExactly(spacing: real, width: real, items: seq<Item>)
    requires NonNegative(Params(spacing, Some(width - spacing)), items) && items != []
    ensures Total(Params(spacing, Some(width - spacing)), items).width <= width
       <==> forall i | 0 <= i < |items| :: items[i].width <= width - spacing
  {
    OverhangIsOneSpacingExactly(Params(spacing, Some(width - spacing)), items);
  }

  /** So a row that exactly fills the proposal is reported wider than proposed, whenever there is a
      spacing at all. */
  lemma FullRowOverhangs(p: Params, items: seq<Item>, i: nat)
    requires NonNegative(p, items) && i < |items| && p.maxWidth.Some?
    requires Position(p, items, i).x + items[i].width == p.maxWidth.value
    ensures Total(p, items).width > p.maxWidth.value || p.spacing == 0.0
  {
    WidthKeepsToProposalExactly(p, items);
  }

  // ----- Optimality -----

  function RowCount(p: Params, items: seq<Item>): nat {
    if items == [] then 0 else After(p, items).row + 1
  }

  function Flatten(rows: seq<seq<Item>>): seq<Item>
    decreases |rows|
  {
    if rows == [] then [] else Flatten(rows[..|rows| - 1]) + rows[|rows| - 1]
  }

  /** The widths of a row, each followed by one spacing. */
  function Extent(p: Params, row: seq<Item>): real
    decreases |row|
  {
    if row == [] then 0.0 else Extent(p, row[..|row| - 1]) + row[|row| - 1].width + p.spacing
  }

  /** A row is acceptable if it holds at most one item or fits the proposed width. */
  predicate RowOk(p: Params, row: seq<Item>) { |row| <= 1 || Fits(p, Extent(p, row) - p.spacing) }

  predicate IsSplit(p: Params, items: seq<Item>, rows: seq<seq<Item>>) {
    Flatten(rows) == items && forall k | 0 <= k < |rows| :: RowOk(p, rows[k])
  }

  lemma {:induction false} ExtentGrows(p: Params, row: seq<Item>, n: nat)
    requires NonNegative(p, row) && n <= |row|
    ensures 0.0 <= Extent(p, row[..n]) <= Extent(p, row)
    decreases |row|
  {
    if n < |row| {
      ExtentGrows(p, row[..|row| - 1], n);
      assert row[..|row| - 1][..n] == row[..n];
    } else {
      assert row[..n] == row;
      if n > 0 { ExtentGrows(p, row[..n - 1], n - 1); }
    }
  }

  /** Laying out one acceptable row after `before` breaks at most once: after a break the cursor is
      no further right than if the row had begun there. */
  lemma {:induction false} OneMoreRow(p: Params, before: seq<Item>, row: seq<Item>, n: nat, limit: nat)
    requires NonNegative(p, before + row) && RowOk(p, row) && n <= |row|
    requires limit == RowCount(p, before)
    ensures
      var c := After(p, before + row[..n]);
      c.row < limit || (c.row == limit && c.x <= Extent(p, row[..n]))
    decreases n
  {
    if n == 0 {
      assert before + row[..0] == before;
    } else {
      OneMoreRow(p, before, row, n - 1, limit);
      var all := before + row[..n];
      assert all[..|all| - 1] == before + row[..n - 1];
      assert row[..n][..n - 1] == row[..n - 1];
      assert NonNegative(p, row) by {
        forall i | 0 <= i < |row| ensures row[i].width >= 0.0 && row[i].height >= 0.0 {
          assert row[i] == (before + row)[|before| + i];
        }
      }
      ExtentGrows(p, row, n);
      ExtentGrows(p, row, n - 1);
      if n == 1 { assert row[..0] == []; }
    }
  }

  /** Greedy breaking is optimal: no split of the items into consecutive acceptable rows has fewer
      rows than the layout. */
  lemma {:induction false} GreedyIsOptimal(p: Params, items: seq<Item>, rows: seq<seq<Item>>)
    requires NonNegative(p, items) && IsSplit(p, items, rows)
    ensures RowCount(p, items) <= |rows|
    decreases |rows|
  {
    if rows != [] {
      var init, last := rows[..|rows| - 1], rows[|rows| - 1];
      var before := Flatten(init);
      assert items == before + last;
      assert NonNegative(p, before) by {
        forall i | 0 <= i < |before| ensures before[i].width >= 0.0 && before[i].height >= 0.0 {
          assert before[i] == items[i];
        }
      }
      GreedyIsOptimal(p, before, init);
      OneMoreRow(p, before, last, |last|, RowCount(p, before));
      assert last[..|last|] == last;
    }
  }

  /** The rows that the layout itself makes. */
  function Rows(p: Params, items: seq<Item>): seq<seq<Item>>
    decreases |items|
  {
    if items == [] then []
    else
      var init, last := items[..|items| - 1], items[|items| - 1];
      var rows := Rows(p, init);
      if rows == [] || After(p, items).row > After(p, init).row then rows + [[last]]
      else rows[..|rows| - 1] + [rows[|rows| - 1] + [last]]
  }

  lemma SplitAddsRow(p: Params, items: seq<Item>, rows: seq<seq<Item>>, item: Item)
    requires IsSplit(p, items, rows)
    ensures IsSplit(p, items + [item], rows + [[item]])
  {
    assert (rows + [[item]])[..|rows|] == rows;
  }

  lemma SplitExtendsRow(p: Params, items: seq<Item>, rows: seq<seq<Item>>, item: Item)
    requires IsSplit(p, items, rows) && rows != []
    requires RowOk(p, rows[|rows| - 1] + [item])
    ensures IsSplit(p, items + [item], rows[..|rows| - 1] + [rows[|rows| - 1] + [item]])
  {
    var init, row := rows[..|rows| - 1], rows[|rows| - 1];
    assert (init + [row + [item]])[..|init|] == init;
    assert Flatten(init) + (row + [item]) == Flatten(init) + row + [item];
  }

  lemma ExtentSnoc(p: Params, row: seq<Item>, item: Item)
    ensures Extent(p, row + [item]) == Extent(p, row) + item.width + p.spacing
  {
    assert (row + [item])[..|row|] == row;
  }

  /** The rows split the items, are as many as the layout has, and the last one reaches the
      cursor. */
  predicate RowsTrack(p: Params, items: seq<Item>, rows: seq<seq<Item>>) {
    && IsSplit(p, items, rows) && |rows| == RowCount(p, items)
    && (items != [] ==> Extent(p, rows[|rows| - 1]) == After(p, items).x > 0.0)
  }

  lemma BreakTracks(p: Params, items: seq<Item>, rows: seq<seq<Item>>, item: Item)
    requires RowsTrack(p, items, rows) && p.spacing >= 0.0 && item.width > 0.0
    requires rows == [] || After(p, items + [item]).row > After(p, items).row
    ensures RowsTrack(p, items + [item], rows + [[item]])
  {
    AfterSnoc(p, items, item);
    SplitAddsRow(p, items, rows, item);
    ExtentSnoc(p, [], item);
    assert [] + [item] == [item];
  }

  lemma NoBreakTracks(p: Params, items: seq<Item>, rows: seq<seq<Item>>, item: Item)
    requires RowsTrack(p, items, rows) && p.spacing >= 0.0 && item.width > 0.0
    requires rows != [] && After(p, items + [item]).row <= After(p, items).row
    ensures RowsTrack(p, items + [item], rows[..|rows| - 1] + [rows[|rows| - 1] + [item]])
  {
    AfterSnoc(p, items, item);
    ExtentSnoc(p, rows[|rows| - 1], item);
    SplitExtendsRow(p, items, rows, item);
  }

  lemma RowsSnoc(p: Params, items: seq<Item>, item: Item)
    ensures
      var rows := Rows(p, items);
      Rows(p, items + [item])
      == if rows == [] || After(p, items + [item]).row > After(p, items).row then rows + [[item]]
         else rows[..|rows| - 1] + [rows[|rows| - 1] + [item]]
  {
    assert (items + [item])[..|items|] == items;
  }

  lemma NextTracks(p: Params, items: seq<Item>, item: Item)
    requires RowsTrack(p, items, Rows(p, items)) && p.spacing >= 0.0 && item.width > 0.0
    ensures RowsTrack(p, items + [item], Rows(p, items + [item]))
  {
    var rows := Rows(p, items);
    RowsSnoc(p, items, item);
    if rows == [] || After(p, items + [item]).row > After(p, items).row {
      BreakTracks(p, items, rows, item);
    } else {
      NoBreakTracks(p, items, rows, item);
    }
  }

  lemma {:induction false} RowsAlwaysTrack(p: Params, items: seq<Item>)
    requires p.spacing >= 0.0 && forall i | 0 <= i < |items| :: items[i].width > 0.0
    ensures RowsTrack(p, items, Rows(p, items))
    decreases |items|
  {
    if items != [] {
      var init, last := items[..|items| - 1], items[|items| - 1];
      RowsAlwaysTrack(p, init);
      NextTracks(p, init, last);
      assert init + [last] == items;
    }
  }

  /** For positive widths the layout's own rows are such a split, so its row count is the least. */
  lemma GreedyIsASplit(p: Params, items: seq<Item>)
    requires p.spacing >= 0.0 && forall i | 0 <= i < |items| :: items[i].width > 0.0
    ensures IsSplit(p, items, Rows(p, items)) && |Rows(p, items)| == RowCount(p, items)
  {
    RowsAlwaysTrack(p, items);
  }
}
