/**
  The dashboard's card grid: cards flow into rows of a fixed number of columns, greedily and in order.
 */
module DashboardLayout {

  const PAD: real := 20.0
  const MIN_CELL: real := 40.0

  datatype CardConfig = CardConfig(id: string, span: int)

  datatype Config = Config(columns: int, gap: int, marginX: int, marginTop: int, marginBottom: int, maxWidth: int,
                           cards: seq<CardConfig>)

  datatype CardRect = CardRect(id: string, span: nat, x: real, y: real, w: real, h: real)

  datatype Layout = Layout(valid: bool, panelX: real, panelY: real, panelH: real, surfaceW: real, surfaceH: real,
                           cards: seq<CardRect>)

  predicate IsKnownCard(id: string) {
    id in ["clock", "calendar", "weather", "media", "volume", "mic", "network", "bluetooth", "mixer", "system"]
  }

  // ------------------------------------------------------------------- packing

  /** A card with its span clamped to the grid. */
  datatype Card = Card(id: string, span: nat)

  function Clamp(x: int, lo: int, hi: int): int {
    if x < lo then lo else if x > hi then hi else x
  }

  function Max(a: real, b: real): real {
    if a < b then b else a
  }

  function Cards(configs: seq<CardConfig>, cols: nat): (cards: seq<Card>)
    requires cols >= 1
    ensures forall i :: 0 <= i < |cards| ==> 1 <= cards[i].span <= cols
  {
    if configs == [] then []
    else
      var last := configs[|configs| - 1];
      Cards(configs[..|configs| - 1], cols) + if IsKnownCard(last.id) then [Card(last.id, Clamp(last.span, 1, cols))] else []
  }

  type Row = seq<Card>

  function Used(row: Row): nat {
    if row == [] then 0 else Used(row[..|row| - 1]) + row[|row| - 1].span
  }

  function Flatten(rows: seq<Row>): seq<Card> {
    if rows == [] then [] else Flatten(rows[..|rows| - 1]) + rows[|rows| - 1]
  }

  /** The next card goes into the current row unless the row has cards and would grow too wide. */
  function Append(rows: seq<Row>, card: Card, cols: nat): seq<Row> {
    if rows == [] then [[card]]
    else
      var n := |rows| - 1;
      if Used(rows[n]) > 0 && Used(rows[n]) + card.span > cols then rows + [[card]] else rows[..n] + [rows[n] + [card]]
  }

  function Pack(cards: seq<Card>, cols: nat): seq<Row> {
    if cards == [] then [] else Append(Pack(cards[..|cards| - 1], cols), cards[|cards| - 1], cols)
  }

  /** An order-preserving split of the cards into rows that are not too wide. */
  ghost predicate IsSplit(rows: seq<Row>, cards: seq<Card>, cols: nat) {
    Flatten(rows) == cards && forall r :: 0 <= r < |rows| ==> Used(rows[r]) <= cols
  }

  predicate Spans(cards: seq<Card>, cols: nat) {
    forall i :: 0 <= i < |cards| ==> 1 <= cards[i].span <= cols
  }

  lemma FlattenSnoc(rows: seq<Row>, row: Row)
    ensures Flatten(rows + [row]) == Flatten(rows) + row
  {
    assert (rows + [row])[..|rows|] == rows;
  }

  lemma UsedSnoc(row: Row, card: Card)
    ensures Used(row + [card]) == Used(row) + card.span
  {
    assert (row + [card])[..|row|] == row;
  }

  lemma Empties()
    ensures Used([]) == 0 && Flatten([]) == []
  {
  }

  ghost predicate NoEmptyRow(rows: seq<Row>) {
    forall r :: 0 <= r < |rows| ==> rows[r] != []
  }

  lemma AppendSplits(rows: seq<Row>, cards: seq<Card>, card: Card, cols: nat)
    requires IsSplit(rows, cards, cols) && NoEmptyRow(rows) && card.span <= cols
    ensures IsSplit(Append(rows, card, cols), cards + [card], cols)
    ensures NoEmptyRow(Append(rows, card, cols))
  {
    hide Used, Flatten;
    UsedSnoc([], card);
    assert [] + [card] == [card];
    Empties();
    if rows == [] {
      FlattenSnoc([], [card]);
      assert [] + [[card]] == [[card]];
    } else {
      var n := |rows| - 1;
      UsedSnoc(rows[n], card);
      FlattenSnoc(rows, [card]);
      FlattenSnoc(rows[..n], rows[n]);
      FlattenSnoc(rows[..n], rows[n] + [card]);
      assert rows[..n] + [rows[n]] == rows;
      assert Flatten(rows[..n]) + (rows[n] + [card]) == Flatten(rows[..n]) + rows[n] + [card];
    }
  }

  /** Every known card is kept, in order, and no row exceeds the columns. */
  lemma {:induction false} PackSplits(cards: seq<Card>, cols: nat)
    requires Spans(cards, cols)
    ensures IsSplit(Pack(cards, cols), cards, cols) && NoEmptyRow(Pack(cards, cols))
    decreases |cards|
  {
    hide Append, IsSplit;
    if cards == [] {
      NothingToSplit(cols);
    } else {
      var front, card := cards[..|cards| - 1], cards[|cards| - 1];
      PackSplits(front, cols);
      AppendSplits(Pack(front, cols), front, card, cols);
      assert front + [card] == cards;
    }
  }

  lemma NothingToSplit(cols: nat)
    ensures IsSplit([], [], cols)
  {
  }

  function LastUsed(rows: seq<Row>): nat {
    if rows == [] then 0 else Used(rows[|rows| - 1])
  }

  /** Greedy packing stays ahead: at every point any other split has more rows, or as many and a last row
      that is at least as full. */
  lemma {:induction false} PackStaysAhead(cards: seq<Card>, cols: nat, other: seq<Row>)
    requires Spans(cards, cols)
    requires IsSplit(other, cards, cols)
    ensures |Pack(cards, cols)| < |other| ||
            (|Pack(cards, cols)| == |other| && LastUsed(Pack(cards, cols)) <= LastUsed(other))
    decreases |cards| + |other|
  {
    hide Used, Flatten;
    Empties();
    if cards == [] {
      return;
    }
    var m := |other| - 1;
    FlattenSnoc(other[..m], other[m]);
    assert other[..m] + [other[m]] == other;
    if other[m] == [] {
      assert Flatten(other[..m]) + [] == Flatten(other[..m]);
      PackStaysAhead(cards, cols, other[..m]);
    } else {
      var front, card := cards[..|cards| - 1], cards[|cards| - 1];
      var row := other[m][..|other[m]| - 1];
      var before := other[..m] + [row];
      assert other[m] == row + [card] by {
        assert other[m][|other[m]| - 1] == cards[|cards| - 1];
      }
      UsedSnoc(row, card);
      FlattenSnoc(other[..m], row);
      assert Flatten(before) == front;
      PackStaysAhead(front, cols, before);
      AppendStaysAhead(Pack(front, cols), card, cols, |before|, Used(row));
    }
  }

  lemma AppendStaysAhead(rows: seq<Row>, card: Card, cols: nat, count: nat, used: nat)
    requires |rows| < count || (|rows| == count && LastUsed(rows) <= used)
    requires count >= 1 && used + card.span <= cols
    ensures var next := Append(rows, card, cols);
            |next| < count || (|next| == count && LastUsed(next) <= used + card.span)
  {
    hide Used;
    Empties();
    UsedSnoc([], card);
    assert [] + [card] == [card];
    if rows != [] {
      UsedSnoc(rows[|rows| - 1], card);
    }
  }

  /** No order-preserving split needs fewer rows. */
  lemma PackUsesFewestRows(cards: seq<Card>, cols: nat, other: seq<Row>)
    requires Spans(cards, cols)
    requires IsSplit(other, cards, cols)
    ensures |Pack(cards, cols)| <= |other|
  {
    PackStaysAhead(cards, cols, other);
  }

  // ------------------------------------------------------------------ geometry

  /** Where the grid starts and how wide its cells and gaps are. */
  datatype Grid = Grid(left: real, top: real, cell: real, gap: real)

  type Heights = (string, nat) -> real   // natural height of a card of a kind and span

  function CellX(grid: Grid, column: nat): real {
    grid.left + column as real * (grid.cell + grid.gap)
  }

  function CardWidth(grid: Grid, span: nat): real {
    span as real * grid.cell + (span - 1) as real * grid.gap
  }

  function RectAt(row: Row, j: nat, y: real, h: real, grid: Grid): CardRect
    requires j < |row|
  {
    CardRect(row[j].id, row[j].span, CellX(grid, Used(row[..j])), y, CardWidth(grid, row[j].span), h)
  }

  function RowHeight(row: Row, height: Heights): real {
    if row == [] then 0.0
    else Max(RowHeight(row[..|row| - 1], height), height(row[|row| - 1].id, row[|row| - 1].span))
  }

  function PlaceRow(row: Row, y: real, h: real, grid: Grid): seq<CardRect> {
    seq(|row|, j requires 0 <= j < |row| => RectAt(row, j, y, h, grid))
  }

  /** The y at which the row after these starts. */
  function RowTop(rows: seq<Row>, grid: Grid, height: Heights): real {
    if rows == [] then grid.top
    else RowTop(rows[..|rows| - 1], grid, height) + RowHeight(rows[|rows| - 1], height) + grid.gap
  }

  function PlaceRows(rows: seq<Row>, grid: Grid, height: Heights): seq<CardRect> {
    if rows == [] then []
    else
      var front, row := rows[..|rows| - 1], rows[|rows| - 1];
      PlaceRows(front, grid, height) + PlaceRow(row, RowTop(front, grid, height), RowHeight(row, height), grid)
  }

  function Columns(cfg: Config): (cols: nat)
    ensures 1 <= cols <= 8
  {
    Clamp(cfg.columns, 1, 8)
  }

  function Gap(cfg: Config): real {
    Clamp(cfg.gap, 0, 48) as real
  }

  function PanelWidth(cfg: Config, surfaceW: real): real {
    var avail := Max(80.0, surfaceW - 2.0 * Clamp(cfg.marginX, 0, 200) as real);
    if cfg.maxWidth > 0 && cfg.maxWidth as real < avail then cfg.maxWidth as real else avail
  }

  function PanelX(cfg: Config, surfaceW: real): real {
    (surfaceW - PanelWidth(cfg, surfaceW)) * 0.5
  }

  /** One column's share of the grid's width, the gaps taken off. */
  function Share(cfg: Config, surfaceW: real): real {
    var gridW := Max(40.0, PanelWidth(cfg, surfaceW) - 2.0 * PAD);
    (gridW - (Columns(cfg) - 1) as real * Gap(cfg)) / Columns(cfg) as real
  }

  function CellWidth(cfg: Config, surfaceW: real): real {
    Max(MIN_CELL, Share(cfg, surfaceW))
  }

  function PanelY(cfg: Config): real {
    Clamp(cfg.marginTop, 0, 200) as real
  }

  function GridOf(cfg: Config, surfaceW: real): Grid {
    Grid(PanelX(cfg, surfaceW) + PAD, PanelY(cfg) + PAD, CellWidth(cfg, surfaceW), Gap(cfg))
  }

  // -------------------------------------------------------------- the layout loop

  function SetHeights(rects: seq<CardRect>, h: real): seq<CardRect> {
    seq(|rects|, i requires 0 <= i < |rects| => rects[i].(h := h))
  }

  /** The row being filled: its cards carry their natural heights until the row is flushed. */
  ghost predicate RowInProgress(rects: seq<CardRect>, row: Row, y: real, grid: Grid) {
    |rects| == |row| && forall j :: 0 <= j < |row| ==> rects[j].(h := 0.0) == RectAt(row, j, y, 0.0, grid)
  }

  lemma FlushedRow(rects: seq<CardRect>, row: Row, y: real, h: real, grid: Grid)
    requires RowInProgress(rects, row, y, grid)
    ensures SetHeights(rects, h) == PlaceRow(row, y, h, grid)
  {
    forall j | 0 <= j < |row|
      ensures SetHeights(rects, h)[j] == PlaceRow(row, y, h, grid)[j]
    {
      assert rects[j].(h := 0.0).(h := h) == RectAt(row, j, y, 0.0, grid).(h := h);
    }
  }

  lemma OneMoreCard(rects: seq<CardRect>, row: Row, y: real, grid: Grid, card: Card, h: real)
    requires RowInProgress(rects, row, y, grid)
    ensures RowInProgress(rects + [CardRect(card.id, card.span, CellX(grid, Used(row)), y, CardWidth(grid, card.span), h)],
                          row + [card], y, grid)
  {
    var longer := row + [card];
    assert longer[..|row|] == row;
    forall j | 0 <= j < |row|
      ensures RectAt(longer, j, y, 0.0, grid) == RectAt(row, j, y, 0.0, grid)
    {
      assert longer[..j] == row[..j];
    }
  }

  lemma CardsNext(configs: seq<CardConfig>, i: nat, cols: nat)
    requires i < |configs| && cols >= 1
    ensures Cards(configs[..i + 1], cols) == Cards(configs[..i], cols) +
            if IsKnownCard(configs[i].id) then [Card(configs[i].id, Clamp(configs[i].span, 1, cols))] else []
  {
    assert configs[..i + 1][..i] == configs[..i];
  }

  lemma PackNext(cards: seq<Card>, card: Card, cols: nat)
    ensures Pack(cards + [card], cols) == Append(Pack(cards, cols), card, cols)
  {
    assert (cards + [card])[..|cards|] == cards;
  }

  /** `done` are the finished rows, `row` is the one under way; before the first card there is neither. */
  function RowsSoFar(done: seq<Row>, row: Row): seq<Row> {
    if row == [] then done else done + [row]
  }

  lemma AppendToRow(done: seq<Row>, row: Row, card: Card, cols: nat)
    requires row == [] ==> done == []
    ensures Append(RowsSoFar(done, row), card, cols) ==
            if Used(row) > 0 && Used(row) + card.span > cols then RowsSoFar(done + [row], [card])
            else RowsSoFar(done, row + [card])
  {
    hide Used;
    Empties();
    assert (done + [row])[..|done|] == done;
    assert [] + [[card]] == [[card]] && [] + [card] == [card];
  }

  /** The flow of cards into rows: `placed` is flushed, `rowCards` is the row under way at `rowTop`. */
  method FlowCards(configs: seq<CardConfig>, cols: nat, grid: Grid, height: Heights)
    returns (placed: seq<CardRect>, bottom: real)
    requires cols >= 1
    ensures placed == PlaceRows(Pack(Cards(configs, cols), cols), grid, height)
    ensures Cards(configs, cols) != [] ==> bottom == RowTop(Pack(Cards(configs, cols), cols), grid, height) - grid.gap
  {
    hide Used, RowHeight, RowTop, PlaceRows, PlaceRow, SetHeights, Cards, Pack, Append, RowInProgress, CardWidth, IsKnownCard;
    placed := [];
    var rowTop, rowH, used := grid.top, 0.0, 0;
    var rowCards: seq<CardRect> := [];
    ghost var cards: seq<Card>, done: seq<Row>, row: Row := [], [], [];
    NothingPlaced(configs, cols, grid, height);
    for i := 0 to |configs|
      invariant cards == Cards(configs[..i], cols) && RowsSoFar(done, row) == Pack(cards, cols)
      invariant row == [] <==> cards == []
      invariant row == [] ==> done == []
      invariant RowInProgress(rowCards, row, rowTop, grid) && |rowCards| == |row|
      invariant used == Used(row) && rowH == RowHeight(row, height) && rowTop == RowTop(done, grid, height)
      invariant placed == PlaceRows(done, grid, height)
    {
      CardsNext(configs, i, cols);
      if IsKnownCard(configs[i].id) {
        var span := Clamp(configs[i].span, 1, cols);
        ghost var card := Card(configs[i].id, span);
        PackNext(cards, card, cols);
        AppendToRow(done, row, card, cols);
        cards := cards + [card];
        if used > 0 && used + span > cols {
          NextRow(done, row, grid, height);
          FlushedRow(rowCards, row, rowTop, rowH, grid);
          placed := placed + SetHeights(rowCards, rowH);
          rowTop := rowTop + (rowH + grid.gap);
          used, rowCards, rowH := 0, [], 0.0;
          done, row := done + [row], [];
          EmptyRow(rowTop, grid, height);
          assert row + [card] == [card];
        }
        var h := height(configs[i].id, span);
        OneMoreCard(rowCards, row, rowTop, grid, card, h);
        UsedSnoc(row, card);
        TallerRow(row, card, height);
        rowCards := rowCards + [CardRect(configs[i].id, span, CellX(grid, used), rowTop, CardWidth(grid, span), h)];
        used := used + span;
        rowH := Max(rowH, h);
        row := row + [card];
      }
    }
    assert configs[..|configs|] == configs;
    if rowCards != [] {
      NextRow(done, row, grid, height);
      FlushedRow(rowCards, row, rowTop, rowH, grid);
      placed := placed + SetHeights(rowCards, rowH);
    }
    bottom := rowTop + rowH;
  }

  lemma EmptyRow(y: real, grid: Grid, height: Heights)
    ensures RowInProgress([], [], y, grid) && Used([]) == 0 && RowHeight([], height) == 0.0
  {
  }

  lemma NothingPlaced(configs: seq<CardConfig>, cols: nat, grid: Grid, height: Heights)
    requires cols >= 1
    ensures Cards(configs[..0], cols) == [] && Pack([], cols) == []
    ensures PlaceRows([], grid, height) == [] && RowTop([], grid, height) == grid.top
    ensures RowInProgress([], [], grid.top, grid) && Used([]) == 0 && RowHeight([], height) == 0.0
  {
  }

  lemma NextRow(done: seq<Row>, row: Row, grid: Grid, height: Heights)
    ensures RowTop(done + [row], grid, height) == RowTop(done, grid, height) + RowHeight(row, height) + grid.gap
    ensures PlaceRows(done + [row], grid, height) ==
            PlaceRows(done, grid, height) + PlaceRow(row, RowTop(done, grid, height), RowHeight(row, height), grid)
  {
    assert (done + [row])[..|done|] == done;
  }

  lemma TallerRow(row: Row, card: Card, height: Heights)
    ensures RowHeight(row + [card], height) == Max(RowHeight(row, height), height(card.id, card.span))
  {
    assert (row + [card])[..|row|] == row;
  }

  const NO_LAYOUT := Layout(false, 0.0, 0.0, 0.0, 0.0, 0.0, [])

  /** `dashboard_compute_layout`. */
  method ComputeLayout(cfg: Config, surfaceW: real, height: Heights) returns (layout: Layout)
    ensures layout.valid <==> surfaceW > 1.0 && Cards(cfg.cards, Columns(cfg)) != []
    ensures layout.valid ==>
      var rows := Pack(Cards(cfg.cards, Columns(cfg)), Columns(cfg));
      var grid := GridOf(cfg, surfaceW);
      && layout.panelX == PanelX(cfg, surfaceW) && layout.panelY == PanelY(cfg)
      && layout.cards == PlaceRows(rows, grid, height)
      && layout.panelY + layout.panelH == RowTop(rows, grid, height) - grid.gap + PAD
      && layout.surfaceH == layout.panelY + layout.panelH + Clamp(cfg.marginBottom, 0, 200) as real
  {
    layout := NO_LAYOUT.(surfaceW := surfaceW);
    if surfaceW <= 1.0 || cfg.cards == [] { return; }
    var grid := GridOf(cfg, surfaceW);
    layout := layout.(panelX := PanelX(cfg, surfaceW), panelY := PanelY(cfg));
    var placed, bottom := FlowCards(cfg.cards, Columns(cfg), grid, height);
    var any := exists i :: 0 <= i < |cfg.cards| && IsKnownCard(cfg.cards[i].id);
    AnyKnownCard(cfg.cards, Columns(cfg));
    if !any { return; }
    var panelH := (bottom - grid.top) + 2.0 * PAD;
    layout := layout.(valid := true, panelH := panelH, cards := placed,
                      surfaceH := layout.panelY + panelH + Clamp(cfg.marginBottom, 0, 200) as real);
  }

  lemma {:induction false} AnyKnownCard(configs: seq<CardConfig>, cols: nat)
    requires cols >= 1
    ensures (exists i :: 0 <= i < |configs| && IsKnownCard(configs[i].id)) <==> Cards(configs, cols) != []
    decreases |configs|
  {
    hide IsKnownCard;
    if configs != [] {
      var n := |configs| - 1;
      AnyKnownCard(configs[..n], cols);
      if i :| 0 <= i < n && IsKnownCard(configs[i].id) {
        assert IsKnownCard(configs[..n][i].id);
      }
    }
  }

  // --------------------------------------------------------- disjoint and inside

  predicate Disjoint(a: CardRect, b: CardRect) {
    a.x + a.w <= b.x || b.x + b.w <= a.x || a.y + a.h <= b.y || b.y + b.h <= a.y
  }

  lemma MulMono(a: real, b: real, c: real)
    requires a <= b && c >= 0.0
    ensures a * c <= b * c
  {
  }

  /** A card that starts at a column ends before the card at its last column plus one starts, by the gap. */
  lemma CardEnds(grid: Grid, column: nat, span: nat)
    ensures CellX(grid, column) + CardWidth(grid, span) == CellX(grid, column + span) - grid.gap
  {
    var pitch := grid.cell + grid.gap;
    assert (column + span) as real * pitch == column as real * pitch + span as real * pitch;
    assert span as real * pitch == span as real * grid.cell + span as real * grid.gap;
    assert (span as real - 1.0) * grid.gap == span as real * grid.gap - grid.gap;
  }

  lemma {:induction false} UsedMono(row: Row, i: nat, j: nat)
    requires i <= j <= |row|
    ensures Used(row[..i]) <= Used(row[..j])
    ensures j < |row| ==> Used(row[..j]) + row[j].span == Used(row[..j + 1])
    decreases j
  {
    if j < |row| {
      assert row[..j + 1][..j] == row[..j];
    }
    if i < j {
      UsedMono(row, i, j - 1);
    }
  }

  lemma CellXMono(grid: Grid, a: nat, b: nat)
    requires a <= b && grid.cell >= 0.0 && grid.gap >= 0.0
    ensures CellX(grid, a) <= CellX(grid, b)
    ensures CellX(grid, 0) == grid.left
  {
    MulMono(a as real, b as real, grid.cell + grid.gap);
  }

  lemma RowIsDisjoint(row: Row, y: real, h: real, grid: Grid, i: nat, j: nat)
    requires i < j < |row| && grid.cell >= 0.0 && grid.gap >= 0.0
    ensures Disjoint(RectAt(row, i, y, h, grid), RectAt(row, j, y, h, grid))
  {
    hide Used, CellX, CardWidth;
    UsedMono(row, i, i);
    UsedMono(row, i + 1, j);
    CardEnds(grid, Used(row[..i]), row[i].span);
    CellXMono(grid, Used(row[..i + 1]), Used(row[..j]));
  }

  lemma CardWithinGrid(row: Row, j: nat, y: real, h: real, grid: Grid, cols: nat)
    requires j < |row| && Used(row) <= cols && grid.cell >= 0.0 && grid.gap >= 0.0
    ensures var rect := RectAt(row, j, y, h, grid);
            grid.left <= rect.x && rect.x + rect.w <= grid.left + CardWidth(grid, cols)
  {
    hide Used, CellX, CardWidth;
    var used := Used(row[..j]);
    UsedMono(row, j, j);
    UsedMono(row, j + 1, |row|);
    assert row[..|row|] == row;
    CardEnds(grid, used, row[j].span);
    CardEnds(grid, 0, cols);
    CellXMono(grid, 0, used);
    CellXMono(grid, Used(row[..j + 1]), cols);
  }

  ghost predicate Nonnegative(height: Heights) {
    forall id, span :: height(id, span) >= 0.0
  }

  lemma {:induction false} RowHeightBounds(row: Row, height: Heights)
    requires Nonnegative(height)
    ensures RowHeight(row, height) >= 0.0
    decreases |row|
  {
    if row != [] {
      RowHeightBounds(row[..|row| - 1], height);
    }
  }

  ghost predicate Within(rect: CardRect, left: real, right: real, top: real, bottom: real) {
    left <= rect.x && rect.x + rect.w <= right && top <= rect.y && rect.y + rect.h <= bottom
  }

  ghost predicate AllWithin(rects: seq<CardRect>, left: real, right: real, top: real, bottom: real) {
    forall k :: 0 <= k < |rects| ==> Within(rects[k], left, right, top, bottom)
  }

  ghost predicate AllDisjoint(rects: seq<CardRect>) {
    forall k, l :: 0 <= k < l < |rects| ==> Disjoint(rects[k], rects[l])
  }

  lemma StackBelow(above: seq<CardRect>, here: seq<CardRect>, left: real, right: real, top: real, y: real, bottom: real)
    requires top <= y <= bottom
    requires AllWithin(above, left, right, top, y) && AllWithin(here, left, right, y, bottom)
    requires AllDisjoint(above) && AllDisjoint(here)
    ensures AllWithin(above + here, left, right, top, bottom) && AllDisjoint(above + here)
  {
    var rects := above + here;
    forall k | 0 <= k < |rects|
      ensures Within(rects[k], left, right, top, bottom)
    {
      assert k < |above| ==> Within(above[k], left, right, top, y);
      assert k >= |above| ==> Within(here[k - |above|], left, right, y, bottom);
    }
    forall k, l | 0 <= k < l < |rects|
      ensures Disjoint(rects[k], rects[l])
    {
      if l < |above| {
        assert Disjoint(above[k], above[l]);
      } else if k >= |above| {
        assert Disjoint(here[k - |above|], here[l - |above|]);
      } else {
        assert Within(above[k], left, right, top, y) && Within(here[l - |above|], left, right, y, bottom);
      }
    }
  }

  lemma RowIsPlaced(row: Row, y: real, h: real, grid: Grid, cols: nat)
    requires Used(row) <= cols && grid.cell >= 0.0 && grid.gap >= 0.0 && h >= 0.0
    ensures AllWithin(PlaceRow(row, y, h, grid), grid.left, grid.left + CardWidth(grid, cols), y, y + h)
    ensures AllDisjoint(PlaceRow(row, y, h, grid))
  {
    hide Used, RectAt, CardWidth, CellX;
    var here := PlaceRow(row, y, h, grid);
    forall j | 0 <= j < |row|
      ensures Within(here[j], grid.left, grid.left + CardWidth(grid, cols), y, y + h)
    {
      CardWithinGrid(row, j, y, h, grid, cols);
      RectSpot(row, j, y, h, grid);
    }
    forall i, j | 0 <= i < j < |row|
      ensures Disjoint(here[i], here[j])
    {
      RowIsDisjoint(row, y, h, grid, i, j);
    }
  }

  /** No two cards overlap, and all lie in the grid's columns, below its top and above the next row. */
  lemma {:induction false} RowsAreDisjoint(rows: seq<Row>, grid: Grid, height: Heights, cols: nat)
    requires Nonnegative(height) && grid.cell >= 0.0 && grid.gap >= 0.0
    requires forall r :: 0 <= r < |rows| ==> Used(rows[r]) <= cols
    ensures AllWithin(PlaceRows(rows, grid, height), grid.left, grid.left + CardWidth(grid, cols),
                      grid.top, RowTop(rows, grid, height) - if rows == [] then 0.0 else grid.gap)
    ensures AllDisjoint(PlaceRows(rows, grid, height))
    ensures RowTop(rows, grid, height) >= grid.top + if rows == [] then 0.0 else grid.gap
    decreases |rows|
  {
    if rows != [] {
      hide Used, RowHeight, PlaceRow, AllWithin, AllDisjoint, CardWidth;
      var front, row := rows[..|rows| - 1], rows[|rows| - 1];
      RowsAreDisjoint(front, grid, height, cols);
      RowHeightBounds(row, height);
      var y, h := RowTop(front, grid, height), RowHeight(row, height);
      var right := grid.left + CardWidth(grid, cols);
      RowIsPlaced(row, y, h, grid, cols);
      Lower(PlaceRows(front, grid, height), grid.left, right, grid.top, y - (if front == [] then 0.0 else grid.gap), y);
      StackBelow(PlaceRows(front, grid, height), PlaceRow(row, y, h, grid), grid.left, right, grid.top, y, y + h);
    }
  }

  lemma Lower(rects: seq<CardRect>, left: real, right: real, top: real, bottom: real, lower: real)
    requires bottom <= lower && AllWithin(rects, left, right, top, bottom)
    ensures AllWithin(rects, left, right, top, lower)
  {
    forall k | 0 <= k < |rects|
      ensures Within(rects[k], left, right, top, lower)
    {
      assert Within(rects[k], left, right, top, bottom);
    }
  }

  lemma RectSpot(row: Row, j: nat, y: real, h: real, grid: Grid)
    requires j < |row|
    ensures RectAt(row, j, y, h, grid).y == y && RectAt(row, j, y, h, grid).h == h
  {
  }

  /** Neither 40-pixel floor is in force. */
  predicate FloorsInactive(cfg: Config, surfaceW: real) {
    PanelWidth(cfg, surfaceW) - 2.0 * PAD >= Columns(cfg) as real * MIN_CELL + (Columns(cfg) - 1) as real * Gap(cfg)
  }

  lemma MulStrict(a: real, b: real, c: real)
    requires a < b && c > 0.0
    ensures c * a < c * b
  {
    assert c * (b - a) > 0.0;
  }

  lemma FloorArithmetic(n: real, gap: real, room: real, share: real, cell: real)
    requires n >= 1.0 && gap >= 0.0
    requires n * share == Max(40.0, room) - (n - 1.0) * gap
    requires cell == Max(MIN_CELL, share)
    ensures n * cell + (n - 1.0) * gap <= room <==> room >= n * MIN_CELL + (n - 1.0) * gap
    ensures room >= n * MIN_CELL + (n - 1.0) * gap ==> n * cell + (n - 1.0) * gap == room
  {
    if share < MIN_CELL {
      MulStrict(share, MIN_CELL, n);
    } else if MIN_CELL < share {
      MulStrict(MIN_CELL, share, n);
    }
    GapsAreNonnegative(n, gap);
    LinearFloors(n * share, n * MIN_CELL, n * cell, (n - 1.0) * gap, room, share, cell);
  }

  lemma GapsAreNonnegative(n: real, gap: real)
    requires n >= 1.0 && gap >= 0.0
    ensures (n - 1.0) * gap >= 0.0
  {
  }

  /** The linear part, with each product named. */
  lemma LinearFloors(shares: real, floors: real, cells: real, gaps: real, room: real, share: real, cell: real)
    requires shares == Max(40.0, room) - gaps && gaps >= 0.0
    requires cell == Max(MIN_CELL, share)
    requires cells == if share < MIN_CELL then floors else shares
    requires share < MIN_CELL ==> shares < floors
    requires share >= MIN_CELL ==> floors <= shares
    requires floors >= 40.0
    ensures cells + gaps <= room <==> room >= floors + gaps
    ensures room >= floors + gaps ==> cells + gaps == room
  {
  }

  /** A card as wide as the grid fits between the panel's paddings exactly when no floor is in force,
      and then it fills the panel. */
  lemma FullWidthFitsExactlyWhen(cfg: Config, surfaceW: real)
    ensures CardWidth(GridOf(cfg, surfaceW), Columns(cfg)) <= PanelWidth(cfg, surfaceW) - 2.0 * PAD
            <==> FloorsInactive(cfg, surfaceW)
    ensures FloorsInactive(cfg, surfaceW) ==>
            CardWidth(GridOf(cfg, surfaceW), Columns(cfg)) == PanelWidth(cfg, surfaceW) - 2.0 * PAD
  {
    hide PanelWidth, PanelX, Gap, Share;
    GapBounds(cfg);
    SharesFillTheGrid(cfg, surfaceW);
    FloorArithmetic(Columns(cfg) as real, Gap(cfg), PanelWidth(cfg, surfaceW) - 2.0 * PAD,
                    Share(cfg, surfaceW), CellWidth(cfg, surfaceW));
  }

  lemma SharesFillTheGrid(cfg: Config, surfaceW: real)
    ensures Columns(cfg) as real * Share(cfg, surfaceW)
            == Max(40.0, PanelWidth(cfg, surfaceW) - 2.0 * PAD) - (Columns(cfg) as real - 1.0) * Gap(cfg)
  {
    hide PanelWidth, Gap;
    var n := Columns(cfg) as real;
    assert (Columns(cfg) - 1) as real == n - 1.0;
    Quotient(Max(40.0, PanelWidth(cfg, surfaceW) - 2.0 * PAD) - (n - 1.0) * Gap(cfg), n);
  }

  lemma GapBounds(cfg: Config)
    ensures 0.0 <= Gap(cfg) <= 48.0
  {
  }

  lemma Quotient(total: real, n: real)
    requires n >= 1.0
    ensures n * (total / n) == total
  {
  }

  /** Every card lies inside the panel's padding and no two overlap. */
  ghost predicate CardsFit(cfg: Config, surfaceW: real, height: Heights)
    requires Nonnegative(height)
  {
    var rows, grid := Pack(Cards(cfg.cards, Columns(cfg)), Columns(cfg)), GridOf(cfg, surfaceW);
    && AllDisjoint(PlaceRows(rows, grid, height))
    && (rows != [] ==>
          AllWithin(PlaceRows(rows, grid, height),
                    PanelX(cfg, surfaceW) + PAD, PanelX(cfg, surfaceW) + PanelWidth(cfg, surfaceW) - PAD,
                    PanelY(cfg) + PAD, RowTop(rows, grid, height) - grid.gap))
  }

  /** No card ends right of `right`. */
  ghost predicate AllLeftOf(rects: seq<CardRect>, right: real) {
    forall k :: 0 <= k < |rects| ==> rects[k].x + rects[k].w <= right
  }

  /** No row's used columns end right of `right`. */
  ghost predicate RowsLeftOf(rows: seq<Row>, grid: Grid, right: real) {
    forall r :: 0 <= r < |rows| ==> grid.left + CardWidth(grid, Used(rows[r])) <= right
  }

  /** The last card of a row ends where its used columns do. */
  lemma RowEnds(row: Row, y: real, h: real, grid: Grid, right: real)
    requires row != [] && grid.cell >= 0.0 && grid.gap >= 0.0
    ensures AllLeftOf(PlaceRow(row, y, h, grid), right) <==> grid.left + CardWidth(grid, Used(row)) <= right
  {
    hide Used, CellX, CardWidth;
    var here, last := PlaceRow(row, y, h, grid), |row| - 1;
    UsedMono(row, last, last);
    assert row[..|row|] == row;
    CardEnds(grid, Used(row[..last]), row[last].span);
    CardEnds(grid, 0, Used(row));
    CellXMono(grid, 0, 0);
    assert here[last].x + here[last].w == grid.left + CardWidth(grid, Used(row));
    forall j | 0 <= j < |row|
      ensures here[j].x + here[j].w <= grid.left + CardWidth(grid, Used(row))
    {
      CardWithinGrid(row, j, y, h, grid, Used(row));
    }
  }

  lemma LeftOfBoth(a: seq<CardRect>, b: seq<CardRect>, right: real)
    ensures AllLeftOf(a + b, right) <==> AllLeftOf(a, right) && AllLeftOf(b, right)
  {
    assert forall k :: 0 <= k < |a| ==> (a + b)[k] == a[k];
    assert forall k :: 0 <= k < |b| ==> (a + b)[|a| + k] == b[k];
  }

  lemma RowsLeftOfSnoc(front: seq<Row>, row: Row, grid: Grid, right: real)
    ensures RowsLeftOf(front + [row], grid, right)
            <==> RowsLeftOf(front, grid, right) && grid.left + CardWidth(grid, Used(row)) <= right
  {
    hide Used, CardWidth;
    var rows := front + [row];
    assert forall r :: 0 <= r < |front| ==> rows[r] == front[r];
    assert rows[|front|] == row;
  }

  lemma {:induction false} CardsEndWithTheirRows(rows: seq<Row>, grid: Grid, height: Heights, right: real)
    requires NoEmptyRow(rows) && grid.cell >= 0.0 && grid.gap >= 0.0
    ensures AllLeftOf(PlaceRows(rows, grid, height), right) <==> RowsLeftOf(rows, grid, right)
    decreases |rows|
  {
    if rows != [] {
      hide Used, CardWidth, PlaceRow, RowTop, RowHeight, AllLeftOf, RowsLeftOf;
      var front, row := rows[..|rows| - 1], rows[|rows| - 1];
      var y, h := RowTop(front, grid, height), RowHeight(row, height);
      CardsEndWithTheirRows(front, grid, height, right);
      RowEnds(row, y, h, grid, right);
      LeftOfBoth(PlaceRows(front, grid, height), PlaceRow(row, y, h, grid), right);
      RowsLeftOfSnoc(front, row, grid, right);
      assert rows == front + [row];
    }
  }

  lemma WithinAndLeft(rects: seq<CardRect>, left: real, wide: real, right: real, top: real, bottom: real)
    requires AllWithin(rects, left, wide, top, bottom)
    ensures AllWithin(rects, left, right, top, bottom) <==> AllLeftOf(rects, right)
  {
    forall k | 0 <= k < |rects|
      ensures Within(rects[k], left, right, top, bottom) <==> rects[k].x + rects[k].w <= right
    {
      assert Within(rects[k], left, wide, top, bottom);
    }
  }

  /** The columns a row uses are no wider than the panel between its paddings. */
  predicate RowsFit(cfg: Config, surfaceW: real) {
    var rows := Pack(Cards(cfg.cards, Columns(cfg)), Columns(cfg));
    forall r :: 0 <= r < |rows| ==>
      CardWidth(GridOf(cfg, surfaceW), Used(rows[r])) <= PanelWidth(cfg, surfaceW) - 2.0 * PAD
  }

  /** The cards placed stay inside the panel exactly when the widest row's columns fit; they never overlap
      and never leave it at the top or the bottom. */
  lemma CardsFitExactlyWhen(cfg: Config, surfaceW: real, height: Heights)
    requires Nonnegative(height)
    ensures CardsFit(cfg, surfaceW, height) <==> RowsFit(cfg, surfaceW)
  {
    hide Cards, Pack, PlaceRows, RowTop, Used, PanelWidth, PanelX, Gap, CardWidth, AllWithin, AllLeftOf, AllDisjoint;
    var cards := Cards(cfg.cards, Columns(cfg));
    var rows, grid := Pack(cards, Columns(cfg)), GridOf(cfg, surfaceW);
    var right := PanelX(cfg, surfaceW) + PanelWidth(cfg, surfaceW) - PAD;
    PackSplits(cards, Columns(cfg));
    GapBounds(cfg);
    RowsAreDisjoint(rows, grid, height, Columns(cfg));
    CardsEndWithTheirRows(rows, grid, height, right);
    if rows != [] {
      WithinAndLeft(PlaceRows(rows, grid, height), grid.left, grid.left + CardWidth(grid, Columns(cfg)), right,
                    grid.top, RowTop(rows, grid, height) - grid.gap);
    }
  }

  lemma WidthMono(grid: Grid, a: nat, b: nat)
    requires a <= b && grid.cell >= 0.0 && grid.gap >= 0.0
    ensures CardWidth(grid, a) <= CardWidth(grid, b)
  {
    MulMono(a as real, b as real, grid.cell);
    MulMono(a as real - 1.0, b as real - 1.0, grid.gap);
  }

  /** With the floors inactive the cards fit; the panel's bottom is one padding below the last row's. */
  lemma CardsInsidePanel(cfg: Config, surfaceW: real, height: Heights)
    requires Nonnegative(height) && FloorsInactive(cfg, surfaceW)
    ensures CardsFit(cfg, surfaceW, height)
  {
    hide Cards, Pack, Used, PanelWidth, PanelX, Gap, CardWidth, CardsFit;
    var cards := Cards(cfg.cards, Columns(cfg));
    var rows := Pack(cards, Columns(cfg));
    PackSplits(cards, Columns(cfg));
    FullWidthFitsExactlyWhen(cfg, surfaceW);
    GapBounds(cfg);
    forall r | 0 <= r < |rows|
      ensures CardWidth(GridOf(cfg, surfaceW), Used(rows[r])) <= PanelWidth(cfg, surfaceW) - 2.0 * PAD
    {
      WidthMono(GridOf(cfg, surfaceW), Used(rows[r]), Columns(cfg));
    }
    CardsFitExactlyWhen(cfg, surfaceW, height);
  }

  /** A clock of `span` columns on a narrow surface with eight columns and the widest gap. */
  function NarrowClock(span: int): Config {
    Config(8, 48, 0, 0, 0, 0, [CardConfig("clock", span)])
  }

  lemma NarrowClockIs(span: int)
    requires 1 <= span <= 8
    ensures var cfg := NarrowClock(span);
            && Columns(cfg) == 8 && Pack(Cards(cfg.cards, 8), 8) == [[Card("clock", span)]]
            && PanelWidth(cfg, 400.0) == 400.0 && CellWidth(cfg, 400.0) == 40.0 && Gap(cfg) == 48.0
            && !FloorsInactive(cfg, 400.0)
  {
    var cfg := NarrowClock(span);
    var none, nobody: seq<Card> := [], [];
    assert cfg.cards[..0] == [] && IsKnownCard("clock");
    assert Cards(cfg.cards, 8) == none + [Card("clock", span)] == [Card("clock", span)];
    assert [Card("clock", span)][..0] == nobody;
    assert Share(cfg, 400.0) == 3.0;
  }

  /** A floor is in force and the wide clock leaves the panel; the narrow one stays inside all the same. */
  lemma CardsLeaveThePanel(height: Heights)
    requires Nonnegative(height)
    ensures !CardsFit(NarrowClock(8), 400.0, height) && !FloorsInactive(NarrowClock(8), 400.0)
    ensures CardsFit(NarrowClock(1), 400.0, height) && !FloorsInactive(NarrowClock(1), 400.0)
  {
    hide CardsFit, Cards, Pack, PanelWidth, CellWidth, Gap, Columns, NarrowClock, PanelX, PanelY;
    NarrowClockIs(8);
    NarrowClockIs(1);
    OneCard(8);
    OneCard(1);
    CardsFitExactlyWhen(NarrowClock(8), 400.0, height);
    CardsFitExactlyWhen(NarrowClock(1), 400.0, height);
    var wide := Pack(Cards(NarrowClock(8).cards, 8), 8);
    assert CardWidth(GridOf(NarrowClock(8), 400.0), Used(wide[0])) == 656.0;
  }

  lemma OneCard(span: nat)
    ensures Used([Card("clock", span)]) == span
  {
  }
}
