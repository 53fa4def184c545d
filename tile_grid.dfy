/** Construction of the solid-tile list from the integer tile matrix read
    from the level file: every cell that is not EMPTY becomes a solid
    TILE_SIZE x TILE_SIZE rectangle, in row-major order. */
module TileGrid {
  import opened Geometry

  const TILE_SIZE := 32
  /** The cell id that marks a non-solid cell. */
  const EMPTY := -1

  /** The rectangle covered by the cell in row `row`, column `col`. */
  function TileAt(row: int, col: int): Rect {
    Rect(col * TILE_SIZE, row * TILE_SIZE, TILE_SIZE, TILE_SIZE)
  }

  predicate IsSolidCell(m: seq<seq<int>>, row: int, col: int) {
    0 <= row < |m| && 0 <= col < |m[row]| && m[row][col] != EMPTY
  }

  /** `t` is the rectangle of some solid cell of `m` in a row below `n`. */
  ghost predicate IsTileOfSolidCell(m: seq<seq<int>>, t: Rect, n: int) {
    exists r, c :: 0 <= r < n && IsSolidCell(m, r, c) && t == TileAt(r, c)
  }

  /** `t` is the rectangle of a solid cell among the first `n` cells of row `row`. */
  ghost predicate IsTileOfSolidCellInRow(cells: seq<int>, row: int, t: Rect, n: int) {
    exists c :: 0 <= c < n && c < |cells| && cells[c] != EMPTY && t == TileAt(row, c)
  }

  /** Row-major order of tile rectangles: an earlier row, or the same row
      and an earlier column. */
  predicate RowMajorBefore(a: Rect, b: Rect) {
    a.top < b.top || (a.top == b.top && a.left < b.left)
  }

  /** The rectangles appended while scanning the first `n` cells of row `row`. */
  function RowTiles(cells: seq<int>, row: int, n: nat): seq<Rect>
    requires n <= |cells|
  {
    if n == 0 then []
    else RowTiles(cells, row, n - 1) + (if cells[n - 1] != EMPTY then [TileAt(row, n - 1)] else [])
  }

  /** The rectangles appended while scanning the first `n` rows of `m`. */
  function GridTiles(m: seq<seq<int>>, n: nat): seq<Rect>
    requires n <= |m|
  {
    if n == 0 then []
    else GridTiles(m, n - 1) + RowTiles(m[n - 1], n - 1, |m[n - 1]|)
  }

  /** The list of solid tiles built from the whole matrix. */
  function SolidTiles(m: seq<seq<int>>): seq<Rect> {
    GridTiles(m, |m|)
  }

  /** The nested construction loop over rows and columns. */
  method BuildTiles(m: seq<seq<int>>) returns (tiles: seq<Rect>)
    ensures tiles == SolidTiles(m)
  {
    tiles := [];
    for r := 0 to |m|
      invariant tiles == GridTiles(m, r)
    {
      var cells := m[r];
      for c := 0 to |cells|
        invariant tiles == GridTiles(m, r) + RowTiles(cells, r, c)
      {
        if cells[c] != EMPTY {
          tiles := tiles + [TileAt(r, c)];
        }
      }
    }
  }

  lemma {:induction false} RowTilesShape(cells: seq<int>, row: int, n: nat)
    requires n <= |cells|
    ensures forall i :: 0 <= i < |RowTiles(cells, row, n)| ==>
      IsTileOfSolidCellInRow(cells, row, RowTiles(cells, row, n)[i], n)
    ensures forall i, j :: 0 <= i < j < |RowTiles(cells, row, n)| ==>
      RowTiles(cells, row, n)[i].top == RowTiles(cells, row, n)[j].top &&
      RowTiles(cells, row, n)[i].left < RowTiles(cells, row, n)[j].left
  {
    if n > 0 {
      RowTilesShape(cells, row, n - 1);
      var prev := RowTiles(cells, row, n - 1);
      var ts := RowTiles(cells, row, n);
      assert ts[..|prev|] == prev;
      forall i | 0 <= i < |ts|
        ensures IsTileOfSolidCellInRow(cells, row, ts[i], n)
      {
        if i < |prev| {
          assert ts[i] == prev[i];
          var c :| 0 <= c < n - 1 && c < |cells| && cells[c] != EMPTY && prev[i] == TileAt(row, c);
          assert 0 <= c < n && c < |cells| && cells[c] != EMPTY && ts[i] == TileAt(row, c);
        } else {
          assert ts[i] == TileAt(row, n - 1);
        }
      }
      forall i, j | 0 <= i < j < |ts|
        ensures ts[i].top == ts[j].top && ts[i].left < ts[j].left
      {
        if j >= |prev| {
          assert ts[j] == TileAt(row, n - 1);
          assert ts[i] == prev[i];
          assert IsTileOfSolidCellInRow(cells, row, prev[i], n - 1);
          var c :| 0 <= c < n - 1 && c < |cells| && cells[c] != EMPTY && prev[i] == TileAt(row, c);
        } else {
          assert ts[i] == prev[i] && ts[j] == prev[j];
        }
      }
    }
  }

  lemma {:induction false} RowTilesComplete(cells: seq<int>, row: int, n: nat, c: int)
    requires n <= |cells| && 0 <= c < n && cells[c] != EMPTY
    ensures TileAt(row, c) in RowTiles(cells, row, n)
  {
    if c < n - 1 {
      RowTilesComplete(cells, row, n - 1, c);
    } else {
      assert RowTiles(cells, row, n) == RowTiles(cells, row, n - 1) + [TileAt(row, c)];
    }
  }

  lemma {:induction false} GridTilesShape(m: seq<seq<int>>, n: nat)
    requires n <= |m|
    ensures forall i :: 0 <= i < |GridTiles(m, n)| ==> IsTileOfSolidCell(m, GridTiles(m, n)[i], n)
    ensures forall i, j :: 0 <= i < j < |GridTiles(m, n)| ==>
      RowMajorBefore(GridTiles(m, n)[i], GridTiles(m, n)[j])
  {
    if n > 0 {
      GridTilesShape(m, n - 1);
      var prev := GridTiles(m, n - 1);
      var row := RowTiles(m[n - 1], n - 1, |m[n - 1]|);
      RowTilesShape(m[n - 1], n - 1, |m[n - 1]|);
      var ts := GridTiles(m, n);
      assert ts == prev + row;
      forall i | 0 <= i < |ts|
        ensures IsTileOfSolidCell(m, ts[i], n)
      {
        if i < |prev| {
          assert ts[i] == prev[i];
          assert IsTileOfSolidCell(m, prev[i], n - 1);
          var r, c :| 0 <= r < n - 1 && IsSolidCell(m, r, c) && prev[i] == TileAt(r, c);
        } else {
          assert ts[i] == row[i - |prev|];
          assert IsTileOfSolidCellInRow(m[n - 1], n - 1, row[i - |prev|], |m[n - 1]|);
          var c :| 0 <= c < |m[n - 1]| && m[n - 1][c] != EMPTY && row[i - |prev|] == TileAt(n - 1, c);
          assert IsSolidCell(m, n - 1, c);
        }
      }
      forall i, j | 0 <= i < j < |ts|
        ensures RowMajorBefore(ts[i], ts[j])
      {
        if j < |prev| {
          assert ts[i] == prev[i] && ts[j] == prev[j];
        } else if i >= |prev| {
          assert ts[i] == row[i - |prev|] && ts[j] == row[j - |prev|];
        } else {
          assert ts[i] == prev[i] && ts[j] == row[j - |prev|];
          assert IsTileOfSolidCell(m, prev[i], n - 1);
          assert IsTileOfSolidCellInRow(m[n - 1], n - 1, row[j - |prev|], |m[n - 1]|);
          var r, c :| 0 <= r < n - 1 && IsSolidCell(m, r, c) && prev[i] == TileAt(r, c);
          var c' :| 0 <= c' < |m[n - 1]| && m[n - 1][c'] != EMPTY && row[j - |prev|] == TileAt(n - 1, c');
        }
      }
    }
  }

  lemma {:induction false} GridTilesComplete(m: seq<seq<int>>, n: nat, r: int, c: int)
    requires n <= |m| && r < n && IsSolidCell(m, r, c)
    ensures TileAt(r, c) in GridTiles(m, n)
  {
    if r < n - 1 {
      GridTilesComplete(m, n - 1, r, c);
    } else {
      RowTilesComplete(m[r], r, |m[r]|, c);
    }
  }

  /** Every rectangle in the list is the rectangle of a solid cell. */
  lemma SolidTilesAreSolidCells(m: seq<seq<int>>)
    ensures forall i :: 0 <= i < |SolidTiles(m)| ==> IsTileOfSolidCell(m, SolidTiles(m)[i], |m|)
  {
    GridTilesShape(m, |m|);
  }

  /** A cell of the matrix has a rectangle in the list exactly when it is solid. */
  lemma TileListedIffSolid(m: seq<seq<int>>, r: int, c: int)
    requires 0 <= r < |m| && 0 <= c < |m[r]|
    ensures TileAt(r, c) in SolidTiles(m) <==> m[r][c] != EMPTY
  {
    if m[r][c] != EMPTY {
      GridTilesComplete(m, |m|, r, c);
    } else {
      GridTilesShape(m, |m|);
      var ts := SolidTiles(m);
      forall i | 0 <= i < |ts|
        ensures ts[i] != TileAt(r, c)
      {
        assert IsTileOfSolidCell(m, ts[i], |m|);
        var r', c' :| 0 <= r' < |m| && IsSolidCell(m, r', c') && ts[i] == TileAt(r', c');
      }
    }
  }

  /** The list is strictly row-major, so no cell contributes two rectangles. */
  lemma SolidTilesRowMajor(m: seq<seq<int>>)
    ensures forall i, j :: 0 <= i < j < |SolidTiles(m)| ==>
      RowMajorBefore(SolidTiles(m)[i], SolidTiles(m)[j])
  {
    GridTilesShape(m, |m|);
  }
}
