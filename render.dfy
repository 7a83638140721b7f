/**
 * The grid that `draw` builds from the sprites, and `arrayToDOM`, which turns
 * that grid into markup. A reference parser (not part of the game) inverts the
 * serialiser, so that what `arrayToDOM` emits can be stated as a round trip.
 */
module Render {

  datatype Option<T> = None | Some(value: T)

  /** A grid cell: `Empty` is JavaScript's `null`, `Mark` holds a sprite's symbol. */
  datatype Cell = Empty | Mark(symbol: char)

  /** Rows of cells, row 0 first. */
  type Grid = seq<seq<Cell>>

  /** What a sprite contributes to the grid: its row `x`, its column `y` and its symbol. */
  datatype Tile = Tile(x: int, y: int, symbol: char)

  /** Markup for an empty cell. */
  const Nbsp: string := "&nbsp;"
  /** Markup closing a row. */
  const Br: string := "<br />"

  predicate IsShape(g: Grid, height: nat, width: nat) {
    |g| == height && forall i :: 0 <= i < |g| ==> |g[i]| == width
  }

  predicate TileInBounds(t: Tile, height: int, width: int) {
    0 <= t.x < height && 0 <= t.y < width
  }

  predicate InBounds(ts: seq<Tile>, height: int, width: int) {
    forall k :: 0 <= k < |ts| ==> TileInBounds(ts[k], height, width)
  }

  predicate At(t: Tile, i: int, j: int) {
    t.x == i && t.y == j
  }

  /** A `height` by `width` grid of empty cells. */
  function EmptyGrid(height: nat, width: nat): (g: Grid)
    ensures IsShape(g, height, width)
    ensures forall i, j :: 0 <= i < height && 0 <= j < width ==> g[i][j] == Empty
  {
    seq(height, _ => seq(width, _ => Empty))
  }

  /**
   * The intended content of cell (i, j): the symbol of the LAST tile in `ts`
   * that stands at (i, j), or `Empty` when none does.
   */
  function Occupant(ts: seq<Tile>, i: int, j: int): Cell {
    if ts == [] then Empty
    else if At(ts[|ts| - 1], i, j) then Mark(ts[|ts| - 1].symbol)
    else Occupant(ts[..|ts| - 1], i, j)
  }

  /** A cell is empty exactly when no tile stands on it. */
  lemma {:induction false} OccupantEmpty(ts: seq<Tile>, i: int, j: int)
    ensures Occupant(ts, i, j) == Empty <==> forall k :: 0 <= k < |ts| ==> !At(ts[k], i, j)
  {
    if ts != [] {
      var init := ts[..|ts| - 1];
      OccupantEmpty(init, i, j);
      assert forall k :: 0 <= k < |init| ==> init[k] == ts[k];
    }
  }

  /** The tile at index k shows in cell (i, j) when no later tile stands there. */
  lemma {:induction false} OccupantIsLast(ts: seq<Tile>, k: int, i: int, j: int)
    requires 0 <= k < |ts| && At(ts[k], i, j)
    requires forall m :: k < m < |ts| ==> !At(ts[m], i, j)
    ensures Occupant(ts, i, j) == Mark(ts[k].symbol)
  {
    if k < |ts| - 1 {
      var init := ts[..|ts| - 1];
      assert forall m :: 0 <= m < |init| ==> init[m] == ts[m];
      OccupantIsLast(init, k, i, j);
    }
  }

  /** Markup of one cell: `&nbsp;` for an empty cell, the symbol otherwise. */
  function CellToDOM(c: Cell): string {
    match c
    case Empty => Nbsp
    case Mark(s) => [s]
  }

  /** The inner reduce of `arrayToDOM`: a left fold appending each cell's markup. */
  function RowToDOM(row: seq<Cell>): string {
    if row == [] then "" else RowToDOM(row[..|row| - 1]) + CellToDOM(row[|row| - 1])
  }

  /** Markup of one row: its cells, then `<br />`. */
  function Line(row: seq<Cell>): string {
    RowToDOM(row) + Br
  }

  /** `arrayToDOM`: a left fold appending each row's line. */
  function ArrayToDOM(g: Grid): string {
    if g == [] then "" else ArrayToDOM(g[..|g| - 1]) + Line(g[|g| - 1])
  }

  /** A two-cell row: an empty cell, then an invader. */
  lemma ArrayToDOMExample()
    ensures ArrayToDOM([[Empty, Mark('X')]]) == "&nbsp;X<br />"
  {
    var row: seq<Cell> := [Empty, Mark('X')];
    var first: seq<Cell> := [Empty];
    var g: Grid := [row];
    assert row[..1] == first && first[..0] == [];
    assert RowToDOM(row) == "&nbsp;X";
    assert g[..0] == [];
  }

  /** Read from the front, a row is its first cell's markup followed by the rest. */
  lemma {:induction false} RowToDOMFront(row: seq<Cell>)
    requires row != []
    ensures RowToDOM(row) == CellToDOM(row[0]) + RowToDOM(row[1..])
  {
    if |row| > 1 {
      var init := row[..|row| - 1];
      RowToDOMFront(init);
      assert init[1..] == row[1..][..|row[1..]| - 1];
      assert row[1..][|row[1..]| - 1] == row[|row| - 1];
    }
  }

  /** Read from the front, the markup is the first row's, a `<br />`, then the rest. */
  lemma {:induction false} ArrayToDOMFront(g: Grid)
    requires g != []
    ensures ArrayToDOM(g) == Line(g[0]) + ArrayToDOM(g[1..])
  {
    if |g| > 1 {
      var init := g[..|g| - 1];
      ArrayToDOMFront(init);
      assert init[1..] == g[1..][..|g[1..]| - 1];
      assert g[1..][|g[1..]| - 1] == g[|g| - 1];
    }
  }

  /** Symbols that the markup cannot confuse with the start of `&nbsp;` or `<br />`. */
  predicate PlainSymbol(c: char) {
    c != '&' && c != '<'
  }

  predicate PlainGrid(g: Grid) {
    forall i, j :: 0 <= i < |g| && 0 <= j < |g[i]| && g[i][j].Mark? ==> PlainSymbol(g[i][j].symbol)
  }

  predicate StartsWith(s: string, p: string) {
    |p| <= |s| && s[..|p|] == p
  }

  /**
   * Reference inverse of `ArrayToDOM` (not part of the game): `row` holds the
   * cells read so far on the current row.
   */
  function ParseRows(s: string, row: seq<Cell>): Option<Grid>
    decreases |s|
  {
    if s == [] then (if row == [] then Some([]) else None)
    else if s[0] == '&' && StartsWith(s, Nbsp) then ParseRows(s[|Nbsp|..], row + [Empty])
    else if s[0] == '<' && StartsWith(s, Br) then
      match ParseRows(s[|Br|..], [])
      case None => None
      case Some(rest) => Some([row] + rest)
    else ParseRows(s[1..], row + [Mark(s[0])])
  }

  function ParseDOM(s: string): Option<Grid> {
    ParseRows(s, [])
  }

  lemma ParseCell(c: Cell, rest: string, row: seq<Cell>)
    requires c.Mark? ==> PlainSymbol(c.symbol)
    ensures ParseRows(CellToDOM(c) + rest, row) == ParseRows(rest, row + [c])
  {
    var s := CellToDOM(c) + rest;
    if c.Empty? {
      assert s[..|Nbsp|] == Nbsp;
      assert s[|Nbsp|..] == rest;
    } else {
      assert s[0] == c.symbol;
      assert s[1..] == rest;
    }
  }

  /** Parsing a non-empty row's markup takes in its first cell. */
  lemma ParseRowStep(r: seq<Cell>, rest: string, row: seq<Cell>)
    requires r != [] && (r[0].Mark? ==> PlainSymbol(r[0].symbol))
    ensures ParseRows(RowToDOM(r) + rest, row) == ParseRows(RowToDOM(r[1..]) + rest, row + [r[0]])
  {
    RowToDOMFront(r);
    assert RowToDOM(r) + rest == CellToDOM(r[0]) + (RowToDOM(r[1..]) + rest);
    ParseCell(r[0], RowToDOM(r[1..]) + rest, row);
  }

  lemma {:induction false} ParseRow(r: seq<Cell>, rest: string, row: seq<Cell>)
    requires forall j :: 0 <= j < |r| && r[j].Mark? ==> PlainSymbol(r[j].symbol)
    ensures ParseRows(RowToDOM(r) + rest, row) == ParseRows(rest, row + r)
    decreases |r|
  {
    if r == [] {
      assert RowToDOM(r) + rest == rest;
      assert row + r == row;
    } else {
      ParseRowStep(r, rest, row);
      ParseRow(r[1..], rest, row + [r[0]]);
      AppendFront(row, r);
    }
  }

  lemma AppendFront<T>(row: seq<T>, r: seq<T>)
    requires r != []
    ensures row + [r[0]] + r[1..] == row + r
  {
    assert [r[0]] + r[1..] == r;
  }

  lemma ParseBreak(tail: string, row: seq<Cell>)
    ensures ParseRows(Br + tail, row) ==
              match ParseRows(tail, []) case None => None case Some(rest) => Some([row] + rest)
  {
    var s := Br + tail;
    assert s[..|Br|] == Br;
    assert s[|Br|..] == tail;
    assert s[0] == '<';
  }

  /** A line parses as its row, closed; parsing then goes on with a fresh row. */
  lemma ParseLine(r: seq<Cell>, rest: string)
    requires forall j :: 0 <= j < |r| && r[j].Mark? ==> PlainSymbol(r[j].symbol)
    ensures ParseRows(Line(r) + rest, []) ==
              match ParseRows(rest, []) case None => None case Some(g) => Some([r] + g)
  {
    calc {
      ParseRows(Line(r) + rest, []);
      { assert Line(r) + rest == RowToDOM(r) + (Br + rest); }
      ParseRows(RowToDOM(r) + (Br + rest), []);
      { ParseRow(r, Br + rest, []); assert [] + r == r; }
      ParseRows(Br + rest, r);
      { ParseBreak(rest, r); }
      match ParseRows(rest, []) case None => None case Some(g) => Some([r] + g);
    }
  }

  /** `arrayToDOM` loses nothing: its markup parses back to the grid it came from. */
  lemma {:induction false} ArrayToDOMRoundTrip(g: Grid)
    requires PlainGrid(g)
    ensures ParseDOM(ArrayToDOM(g)) == Some(g)
    decreases |g|
  {
    if g != [] {
      ArrayToDOMFront(g);
      ParseLine(g[0], ArrayToDOM(g[1..]));
      ArrayToDOMRoundTrip(g[1..]);
      assert [g[0]] + g[1..] == g;
    }
  }
}
