/** Reading a grid out of the flat, row-major buffer the terminal stores it in. */
module FlatGrid {
  import opened Grids

  lemma CellFits(rows: nat, columns: nat, r: nat, c: nat)
    requires r < rows && c < columns
    ensures 0 <= r * columns && r * columns + c < r * columns + columns <= rows * columns
  {
    assert (r + 1) * columns <= rows * columns;
  }

  lemma RowFits(rows: nat, columns: nat, r: nat)
    requires r < rows
    ensures 0 <= r * columns && r * columns + columns <= rows * columns
  {
    assert (r + 1) * columns <= rows * columns;
  }

  lemma MultipleOutOfReach(d: int, columns: int)
    requires columns >= 0 && d != 0
    ensures d * columns >= columns || d * columns <= -columns
  {
  }

  /** Two cells share a slot of the buffer only when they are the same cell. */
  lemma SlotsDistinct(columns: nat, r: nat, c: nat, r': nat, c': nat)
    requires c < columns && c' < columns
    requires r * columns + c == r' * columns + c'
    ensures r == r' && c == c'
  {
    if r != r' {
      MultipleOutOfReach(r - r', columns);
    }
  }

  function RowOf(buffer: seq<Cell>, rows: nat, columns: nat, r: nat): (row: seq<Cell>)
    requires |buffer| == rows * columns && r < rows
    ensures |row| == columns
  {
    RowFits(rows, columns, r);
    buffer[r * columns..r * columns + columns]
  }

  function GridOf(buffer: seq<Cell>, rows: nat, columns: nat): (g: Grid)
    requires |buffer| == rows * columns
    ensures Sized(g, rows, columns)
  {
    seq(rows, r requires 0 <= r < rows => RowOf(buffer, rows, columns, r))
  }

  lemma CellOfGrid(buffer: seq<Cell>, rows: nat, columns: nat, r: nat, c: nat)
    requires |buffer| == rows * columns && r < rows && c < columns
    ensures 0 <= r * columns + c < |buffer|
    ensures GridOf(buffer, rows, columns)[r][c] == buffer[r * columns + c]
  {
    CellFits(rows, columns, r, c);
  }

  /** Storing one slot changes exactly one cell of the grid. */
  lemma StoreCell(before: seq<Cell>, after: seq<Cell>, rows: nat, columns: nat, r: nat, c: nat, cell: Cell)
    requires |before| == |after| == rows * columns && r < rows && c < columns
    requires 0 <= r * columns + c < |before| && after == before[r * columns + c := cell]
    ensures GridOf(after, rows, columns)
         == GridOf(before, rows, columns)[r := GridOf(before, rows, columns)[r][c := cell]]
  {
    var g, h := GridOf(before, rows, columns), GridOf(after, rows, columns);
    forall r' | 0 <= r' < rows ensures h[r'] == g[r := g[r][c := cell]][r'] {
      forall c' | 0 <= c' < columns ensures h[r'][c'] == g[r := g[r][c := cell]][r'][c'] {
        CellOfGrid(before, rows, columns, r', c');
        CellOfGrid(after, rows, columns, r', c');
        if r' * columns + c' == r * columns + c {
          SlotsDistinct(columns, r, c, r', c');
        }
      }
    }
  }

  /** Copying one row's slots over another's replaces exactly that row of the grid. */
  lemma StoreRow(before: seq<Cell>, after: seq<Cell>, rows: nat, columns: nat, to: nat, from: nat)
    requires |before| == |after| == rows * columns && to < rows && from < rows
    requires 0 <= to * columns && to * columns + columns <= |before|
    requires 0 <= from * columns && from * columns + columns <= |before|
    requires after == before[..to * columns] + before[from * columns..from * columns + columns]
                    + before[to * columns + columns..]
    ensures GridOf(after, rows, columns)
         == GridOf(before, rows, columns)[to := GridOf(before, rows, columns)[from]]
  {
    var g, h := GridOf(before, rows, columns), GridOf(after, rows, columns);
    forall r | 0 <= r < rows ensures h[r] == g[to := g[from]][r] {
      forall c | 0 <= c < columns ensures h[r][c] == g[to := g[from]][r][c] {
        CellOfGrid(after, rows, columns, r, c);
        CellOfGrid(before, rows, columns, r, c);
        CellOfGrid(before, rows, columns, from, c);
        if r < to {
          RowFits(to, columns, r);
        } else if r > to {
          RowFits(r, columns, to);
        }
      }
    }
  }

  lemma UniformBuffer(buffer: seq<Cell>, rows: nat, columns: nat, attribute: nat)
    requires |buffer| == rows * columns
    requires forall i | 0 <= i < |buffer| :: buffer[i] == Blank(attribute)
    ensures GridOf(buffer, rows, columns) == BlankGrid(rows, columns, attribute)
  {
    var g, h := GridOf(buffer, rows, columns), BlankGrid(rows, columns, attribute);
    forall r | 0 <= r < rows ensures g[r] == h[r] {
      forall c | 0 <= c < columns ensures g[r][c] == h[r][c] {
        CellOfGrid(buffer, rows, columns, r, c);
      }
    }
  }
}
