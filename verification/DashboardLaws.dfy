/** The dashboard's panel and cards said outright: where each of them stands, and how wide and high it is. */
module DashboardLaws {
  import opened DashboardLayout

  // ---------------------------------------------------------------------------------------------
  // The panel
  // ---------------------------------------------------------------------------------------------

  /** A number kept within bounds. */
  function Kept(x: int, lo: int, hi: int): (r: int)
    requires lo <= hi
    ensures lo <= r <= hi && (lo <= x <= hi ==> r == x) && (x < lo ==> r == lo) && (x > hi ==> r == hi)
  {
    if x < lo then lo else if x > hi then hi else x
  }

  /** The panel takes the surface but for the margins, no less than 80 of it, and no more than the limit if there is
      one. */
  lemma PanelWidthSaid(cfg: Config, surfaceW: real)
    ensures var width, room := PanelWidth(cfg, surfaceW), surfaceW - 2.0 * Kept(cfg.marginX, 0, 200) as real;
            && (cfg.maxWidth > 0 ==> width <= cfg.maxWidth as real)
            && (width == cfg.maxWidth as real || (if room >= 80.0 then width == room else width == 80.0))
            && (cfg.maxWidth <= 0 || cfg.maxWidth as real >= (if room >= 80.0 then room else 80.0) ==>
                  width == if room >= 80.0 then room else 80.0)
  {
  }

  /** It leaves as much space on the left as on the right. */
  lemma PanelIsCentred(cfg: Config, surfaceW: real)
    ensures PanelX(cfg, surfaceW) == surfaceW - (PanelX(cfg, surfaceW) + PanelWidth(cfg, surfaceW))
  {
  }

  /** It lies on the surface exactly when that is at least 80 wide or the limit fits it. */
  lemma PanelInsideExactlyWhen(cfg: Config, surfaceW: real)
    requires surfaceW > 0.0
    ensures 0.0 <= PanelX(cfg, surfaceW) && PanelX(cfg, surfaceW) + PanelWidth(cfg, surfaceW) <= surfaceW
            <==> surfaceW >= 80.0 || 0.0 < cfg.maxWidth as real <= surfaceW
  {
  }

  /** A narrow surface with no limit: the panel is wider than it. */
  lemma ANarrowSurface()
    ensures PanelX(Config(3, 8, 0, 0, 0, 0, []), 60.0) == -10.0 && PanelWidth(Config(3, 8, 0, 0, 0, 0, []), 60.0) == 80.0
  {
  }

  /** Columns, gaps and top margin are the configured ones, within bounds. The cells and gaps fill the panel inside
      its padding, or 40 if that is more, unless a cell would be narrower than 40. */
  lemma GridSaid(cfg: Config, surfaceW: real)
    ensures var grid, n := GridOf(cfg, surfaceW), Kept(cfg.columns, 1, 8);
            var inner := PanelWidth(cfg, surfaceW) - 40.0;
            var room := if inner >= 40.0 then inner else 40.0;
            && Columns(cfg) == n && grid.gap == Kept(cfg.gap, 0, 48) as real
            && grid.left == PanelX(cfg, surfaceW) + 20.0 && grid.top == Kept(cfg.marginTop, 0, 200) as real + 20.0
            && grid.cell >= 40.0
            && (n as real * grid.cell + (n as real - 1.0) * grid.gap == room
                || (grid.cell == 40.0 && n as real * 40.0 + (n as real - 1.0) * grid.gap > room))
  {
    hide PanelWidth, PanelX, Share, Gap;
    SharesFillTheGrid(cfg, surfaceW);
    GapSaid(cfg);
    var n, share := Columns(cfg) as real, Share(cfg, surfaceW);
    assert n >= 1.0;
    if share < 40.0 {
      MulStrict(share, 40.0, n);
    }
  }

  lemma GapSaid(cfg: Config)
    ensures Gap(cfg) == Kept(cfg.gap, 0, 48) as real
  {
  }

  // ---------------------------------------------------------------------------------------------
  // Which cards, and which row
  // ---------------------------------------------------------------------------------------------

  lemma {:induction false} CardsFromTheFront(first: CardConfig, configs: seq<CardConfig>, cols: nat)
    requires cols >= 1
    ensures Cards([first] + configs, cols)
            == (if IsKnownCard(first.id) then [Card(first.id, Kept(first.span, 1, cols))] else []) + Cards(configs, cols)
    decreases |configs|
  {
    hide IsKnownCard;
    var all := [first] + configs;
    if configs == [] {
      assert all[..0] == [] && all[|all| - 1] == first;
    } else {
      CardsFromTheFront(first, configs[..|configs| - 1], cols);
      assert all[..|all| - 1] == [first] + configs[..|configs| - 1];
    }
  }

  /** A row is broken only where the next card does not fit. */
  ghost predicate Greedy(rows: seq<Row>, cols: nat) {
    forall r :: 0 < r < |rows| ==> rows[r] != [] && Used(rows[r - 1]) + rows[r][0].span > cols
  }

  lemma AppendIsGreedy(rows: seq<Row>, card: Card, cols: nat)
    requires Greedy(rows, cols) && NoEmptyRow(rows)
    ensures Greedy(Append(rows, card, cols), cols)
  {
    hide Used;
    var next: seq<Row> := Append(rows, card, cols);
    forall r: nat | 0 < r < |next|
      ensures next[r] != [] && Used(next[r - 1]) + next[r][0].span > cols
    {
      if r < |rows| {
        assert rows[r] != [] && Used(rows[r - 1]) + rows[r][0].span > cols;
      }
    }
  }

  /** Cards fill a row as long as they fit; with all of them kept in order that leaves one way to pack. */
  lemma {:induction false} PackIsGreedy(cards: seq<Card>, cols: nat)
    requires Spans(cards, cols)
    ensures Greedy(Pack(cards, cols), cols)
    decreases |cards|
  {
    if cards != [] {
      hide Append, Greedy, IsSplit;
      var front := cards[..|cards| - 1];
      PackIsGreedy(front, cols);
      PackSplits(front, cols);
      AppendIsGreedy(Pack(front, cols), cards[|cards| - 1], cols);
    }
  }

  // ---------------------------------------------------------------------------------------------
  // Where the cards stand
  // ---------------------------------------------------------------------------------------------

  /** The rects of one row: from the left, a gap apart, as wide as their columns with the gaps between, all at the
      row's top and as high as the row. */
  ghost predicate RowStands(row: Row, rects: seq<CardRect>, left: real, top: real, high: real, cell: real, gap: real) {
    && |rects| == |row|
    && (forall j :: 0 <= j < |row| ==>
          && rects[j].id == row[j].id && rects[j].span == row[j].span && rects[j].y == top && rects[j].h == high
          && rects[j].w == row[j].span as real * cell + (row[j].span as real - 1.0) * gap)
    && (row != [] ==> rects[0].x == left)
    && (forall j :: 0 <= j < |row| - 1 ==> rects[j + 1].x == rects[j].x + rects[j].w + gap)
  }

  lemma NextX(left: real, used: nat, span: nat, cell: real, gap: real)
    ensures left + (used + span) as real * (cell + gap)
            == left + used as real * (cell + gap) + (span as real * cell + (span as real - 1.0) * gap) + gap
  {
    assert (used + span) as real == used as real + span as real;
  }

  lemma RectSaid(row: Row, j: nat, y: real, h: real, grid: Grid)
    requires j < |row|
    ensures var rect := RectAt(row, j, y, h, grid);
            && rect.id == row[j].id && rect.span == row[j].span && rect.y == y && rect.h == h
            && rect.w == row[j].span as real * grid.cell + (row[j].span as real - 1.0) * grid.gap
            && (j == 0 ==> rect.x == grid.left)
            && (j + 1 < |row| ==> RectAt(row, j + 1, y, h, grid).x == rect.x + rect.w + grid.gap)
  {
    hide Used;
    Empties();
    assert row[..0] == [] && 0 as real * (grid.cell + grid.gap) == 0.0;
    assert (row[j].span - 1) as real == row[j].span as real - 1.0;
    if j + 1 < |row| {
      assert row[..j + 1] == row[..j] + [row[j]];
      UsedSnoc(row[..j], row[j]);
      NextX(grid.left, Used(row[..j]), row[j].span, grid.cell, grid.gap);
    }
  }

  lemma PlacedRowStands(row: Row, y: real, h: real, grid: Grid)
    ensures RowStands(row, PlaceRow(row, y, h, grid), grid.left, y, h, grid.cell, grid.gap)
  {
    hide RectAt;
    var rects := PlaceRow(row, y, h, grid);
    forall j | 0 <= j < |row|
      ensures rects[j].id == row[j].id && rects[j].span == row[j].span && rects[j].y == y && rects[j].h == h
      ensures rects[j].w == row[j].span as real * grid.cell + (row[j].span as real - 1.0) * grid.gap
      ensures j == 0 ==> rects[j].x == grid.left
    {
      RectSaid(row, j, y, h, grid);
    }
    forall j | 0 <= j < |row| - 1
      ensures rects[j + 1].x == rects[j].x + rects[j].w + grid.gap
    {
      RectSaid(row, j, y, h, grid);
    }
  }

  /** As high as its highest card, and no higher. */
  ghost predicate IsTallest(row: Row, height: Heights, high: real) {
    && (forall j :: 0 <= j < |row| ==> height(row[j].id, row[j].span) <= high)
    && exists j :: 0 <= j < |row| && height(row[j].id, row[j].span) == high
  }

  lemma {:induction false} RowHeightIsTallest(row: Row, height: Heights)
    requires Nonnegative(height) && row != []
    ensures IsTallest(row, height, RowHeight(row, height))
    decreases |row|
  {
    var front, last := row[..|row| - 1], row[|row| - 1];
    assert height(last.id, last.span) >= 0.0;
    if front != [] {
      RowHeightIsTallest(front, height);
      var j :| 0 <= j < |front| && height(front[j].id, front[j].span) == RowHeight(front, height);
      assert row[j] == front[j];
    } else {
      assert RowHeight(front, height) == 0.0;
    }
    forall j | 0 <= j < |row|
      ensures height(row[j].id, row[j].span) <= RowHeight(row, height)
    {
      if j < |front| {
        assert row[j] == front[j];
      }
    }
  }

  function CardsIn(rows: seq<Row>): nat {
    if rows == [] then 0 else CardsIn(rows[..|rows| - 1]) + |rows[|rows| - 1]|
  }

  lemma PlaceRowsSnoc(rows: seq<Row>, row: Row, grid: Grid, height: Heights)
    ensures PlaceRows(rows + [row], grid, height)
            == PlaceRows(rows, grid, height) + PlaceRow(row, RowTop(rows, grid, height), RowHeight(row, height), grid)
    ensures CardsIn(rows + [row]) == CardsIn(rows) + |row|
    ensures RowTop(rows + [row], grid, height) == RowTop(rows, grid, height) + RowHeight(row, height) + grid.gap
  {
    assert (rows + [row])[..|rows|] == rows;
  }

  lemma {:induction false} AsManyRects(rows: seq<Row>, grid: Grid, height: Heights)
    ensures |PlaceRows(rows, grid, height)| == CardsIn(rows)
    decreases |rows|
  {
    hide RowTop, RowHeight;
    if rows != [] {
      AsManyRects(rows[..|rows| - 1], grid, height);
    }
  }

  /** Row `r` of the layout: the rects behind those of the rows above. */
  ghost predicate RowAt(rows: seq<Row>, rects: seq<CardRect>, r: nat, placed: seq<CardRect>)
    requires r < |rows|
  {
    var first := CardsIn(rows[..r]);
    first + |rows[r]| <= |rects| && placed == rects[first..first + |rows[r]|]
  }

  lemma {:induction false} PlacedRowAt(rows: seq<Row>, grid: Grid, height: Heights, r: nat)
    requires r < |rows|
    ensures RowAt(rows, PlaceRows(rows, grid, height), r,
                  PlaceRow(rows[r], RowTop(rows[..r], grid, height), RowHeight(rows[r], height), grid))
    decreases |rows|
  {
    hide PlaceRows, PlaceRow, RowTop, RowHeight, CardsIn;
    var front, last := rows[..|rows| - 1], rows[|rows| - 1];
    assert front + [last] == rows;
    PlaceRowsSnoc(front, last, grid, height);
    AsManyRects(front, grid, height);
    AsManyRects(rows, grid, height);
    if r < |front| {
      PlacedRowAt(front, grid, height, r);
      assert front[..r] == rows[..r];
    } else {
      assert rows[..r] == front;
      RowLength(last, RowTop(front, grid, height), RowHeight(last, height), grid);
    }
  }

  lemma RowLength(row: Row, y: real, h: real, grid: Grid)
    ensures |PlaceRow(row, y, h, grid)| == |row|
  {
  }

  /** Row `r` stands from the grid's left edge at its top, and the next one begins a gap below its highest card; the
      first begins at the grid's top, and there are no rects but those of the rows. */
  lemma RowStandsAt(rows: seq<Row>, grid: Grid, height: Heights, r: nat) returns (placed: seq<CardRect>, high: real)
    requires Nonnegative(height) && NoEmptyRow(rows) && r < |rows|
    ensures |PlaceRows(rows, grid, height)| == CardsIn(rows)
    ensures RowAt(rows, PlaceRows(rows, grid, height), r, placed) && IsTallest(rows[r], height, high)
    ensures RowStands(rows[r], placed, grid.left, RowTop(rows[..r], grid, height), high, grid.cell, grid.gap)
    ensures RowTop(rows[..r + 1], grid, height) == RowTop(rows[..r], grid, height) + high + grid.gap
    ensures RowTop([], grid, height) == grid.top
  {
    hide PlaceRows, PlaceRow, RowHeight, CardsIn, RowStands, IsTallest;
    high := RowHeight(rows[r], height);
    placed := PlaceRow(rows[r], RowTop(rows[..r], grid, height), high, grid);
    AsManyRects(rows, grid, height);
    PlacedRowAt(rows, grid, height, r);
    RowHeightIsTallest(rows[r], height);
    PlacedRowStands(rows[r], RowTop(rows[..r], grid, height), high, grid);
    assert rows[..r] + [rows[r]] == rows[..r + 1];
    PlaceRowsSnoc(rows[..r], rows[r], grid, height);
  }
}
