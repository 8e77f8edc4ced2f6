/**
 * The 40 x 26 character grid of src/chargen.rs as a value: row 0 is the page
 * header, rows 1..24 the body, row 25 is kept but never drawn. The class
 * CharGen (module Chargen) keeps the grid in an array2 and is specified by
 * these functions.
 */
module Grid {
  import opened Base

  const Rows: nat := 26
  const Cols: nat := 40

  predicate IsGrid(g: seq<seq<byte>>)
  {
    |g| == Rows && forall i :: 0 <= i < Rows ==> |g[i]| == Cols
  }

  function BlankRow(): (r: seq<byte>)
    ensures |r| == Cols && forall j :: 0 <= j < Cols ==> r[j] == 0
  {
    seq(Cols, _ => 0)
  }

  /** The grid of `CharGen::new`: every cell zero. */
  function Blank(): (g: seq<seq<byte>>)
    ensures IsGrid(g)
    ensures forall i, j :: 0 <= i < Rows && 0 <= j < Cols ==> g[i][j] == 0
  {
    seq(Rows, _ => BlankRow())
  }

  /** Whether `data` may be written at (row, col): the slice indexing of `insert_data` stays in range. */
  predicate Fits(row: int, col: int, data: seq<byte>)
  {
    0 <= row < Rows && 0 <= col && col + |data| <= Cols
  }

  /** The cells `data` would overwrite. */
  function Slice(g: seq<seq<byte>>, row: int, col: int, len: nat): (s: seq<byte>)
    requires IsGrid(g) && 0 <= row < Rows && 0 <= col && col + len <= Cols
    ensures |s| == len
  {
    g[row][col..col + len]
  }

  /** The grid after `data` is copied into `row` from column `col`. */
  function Write(g: seq<seq<byte>>, row: int, col: int, data: seq<byte>): (w: seq<seq<byte>>)
    requires IsGrid(g) && Fits(row, col, data)
    ensures IsGrid(w)
    ensures Slice(w, row, col, |data|) == data
    ensures forall i :: 0 <= i < Rows && i != row ==> w[i] == g[i]
    ensures forall j :: 0 <= j < Cols && !(col <= j < col + |data|) ==> w[row][j] == g[row][j]
  {
    g[row := g[row][..col] + data + g[row][col + |data|..]]
  }

  /** The rows `insert_data` renders: its own row, exactly when the write changes the grid. */
  function Redrawn(g: seq<seq<byte>>, row: int, col: int, data: seq<byte>): (r: seq<int>)
    requires IsGrid(g) && Fits(row, col, data)
    ensures r == [] || r == [row]
    ensures r == [] <==> Write(g, row, col, data) == g
  {
    WriteNoChange(g, row, col, data);
    if Slice(g, row, col, |data|) == data then [] else [row]
  }

  /** `clear_page`: body rows 1..24 blank, header and row 25 kept. */
  function ClearPage(g: seq<seq<byte>>): (w: seq<seq<byte>>)
    requires IsGrid(g)
    ensures IsGrid(w)
    ensures forall i :: 1 <= i < 25 ==> w[i] == BlankRow()
    ensures w[0] == g[0] && w[25] == g[25]
  {
    var blank := BlankRow();
    seq(Rows, i requires 0 <= i < Rows => if 1 <= i < 25 then blank else g[i])
  }

  /** Two grids are equal when all their cells are. */
  lemma Ext(a: seq<seq<byte>>, b: seq<seq<byte>>)
    requires IsGrid(a) && IsGrid(b)
    requires forall i, j :: 0 <= i < Rows && 0 <= j < Cols ==> a[i][j] == b[i][j]
    ensures a == b
  {
    forall i | 0 <= i < Rows
      ensures a[i] == b[i]
    {
      assert forall j :: 0 <= j < Cols ==> a[i][j] == b[i][j];
    }
  }

  /** A write changes nothing exactly when the cells already hold the data: the de-duplication test. */
  lemma {:induction false} WriteNoChange(g: seq<seq<byte>>, row: int, col: int, data: seq<byte>)
    requires IsGrid(g) && Fits(row, col, data)
    ensures Write(g, row, col, data) == g <==> Slice(g, row, col, |data|) == data
  {
    var w := Write(g, row, col, data);
    if Slice(g, row, col, |data|) == data {
      forall i, j | 0 <= i < Rows && 0 <= j < Cols
        ensures w[i][j] == g[i][j]
      {
        if i == row && col <= j < col + |data| {
          assert w[i][j] == Slice(w, row, col, |data|)[j - col];
          assert g[i][j] == Slice(g, row, col, |data|)[j - col];
        }
      }
      Ext(w, g);
    }
  }

  /** Repeating a write changes nothing more, and renders nothing: the same write renders at most once. */
  lemma WriteIdempotent(g: seq<seq<byte>>, row: int, col: int, data: seq<byte>)
    requires IsGrid(g) && Fits(row, col, data)
    ensures Write(Write(g, row, col, data), row, col, data) == Write(g, row, col, data)
    ensures Redrawn(Write(g, row, col, data), row, col, data) == []
  {
    WriteNoChange(Write(g, row, col, data), row, col, data);
  }
}
