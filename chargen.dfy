/**
 * The character generator of src/chargen.rs: a 40 x 26 grid of raw teletext
 * bytes in front of a terminal. Writes that change nothing are dropped; every
 * other write redraws the row it touched.
 */
module Chargen {
  import opened Base
  import opened Render
  import Grid

  /** A Rust `u16`. */
  type u16 = x: int | 0 <= x < 0x1_0000

  /** The commands `CharGen::new` sends once it has the terminal. */
  const SetupCmds: seq<Cmd> := [EnterAlternateScreen, Clear(All), DisableLineWrap, Hide, SetTitle("Teletext")]

  /**
   * The terminal crossterm drives: the size `size()` reports, whether raw mode
   * is on, and the commands written to standard output, in order. `drawn`
   * records which grid rows the character generator has rendered.
   */
  class Terminal {
    const cols: u16
    const rows: u16
    var raw: bool
    var log: seq<Cmd>
    ghost var drawn: seq<int>

    constructor (cols: u16, rows: u16)
      ensures this.cols == cols && this.rows == rows
      ensures !raw && log == [] && drawn == []
    {
      this.cols, this.rows := cols, rows;
      raw, log, drawn := false, [], [];
    }
  }

  class CharGen {
    const grid: array2<byte>
    const term: Terminal
    const ttx: Teletext
    var mix: bool
    var revealed: bool
    var top: u16
    var left: u16

    ghost predicate Valid()
    {
      grid.Length0 == Grid.Rows && grid.Length1 == Grid.Cols
    }

    /** The 40 bytes of grid row `row`, `&self.grid[row]`. */
    function RowBytes(row: nat): (s: seq<byte>)
      reads grid
      requires Valid() && row < Grid.Rows
      ensures |s| == Grid.Cols
    {
      seq(Grid.Cols, j requires 0 <= j < Grid.Cols reads grid => grid[row, j])
    }

    /** The grid as a value. */
    ghost function Contents(): (g: seq<seq<byte>>)
      reads grid
      requires Valid()
      ensures Grid.IsGrid(g)
      ensures forall i, j :: 0 <= i < Grid.Rows && 0 <= j < Grid.Cols ==> g[i][j] == grid[i, j]
    {
      seq(Grid.Rows, i requires 0 <= i < Grid.Rows reads grid => RowBytes(i))
    }

    /** What `render_row(row)` writes to the terminal in the current state. */
    ghost function RowOutput(row: nat): seq<Cmd>
      reads this, grid
      requires Valid() && row < Grid.Rows
    {
      RowCmds(ttx, RowBytes(row), mix, revealed, top, left, row)
    }

    /** What `redraw` writes: a full clear, then rows 0..24; row 25 is never drawn. */
    ghost function RedrawOutput(): seq<Cmd>
      reads this, grid
      requires Valid()
    {
      [SetBg(DefaultBg(mix)), Clear(All)] + ScreenCmds(ttx, Contents(), mix, revealed, top, left, 25)
    }

    /** The clear-line commands `clear_page` sends for the body rows 1..24, two per row. */
    ghost function ClearLines(): (r: seq<Cmd>)
      reads this
      ensures |r| == 48
    {
      seq(48, k requires 0 <= k < 48 reads this =>
        if k % 2 == 0 then MoveTo(0, top + 1 + k / 2) else Clear(CurrentLine))
    }

    constructor Init(term: Terminal, ttx: Teletext)
      ensures Valid() && fresh(grid)
      ensures this.term == term && this.ttx == ttx
      ensures Contents() == Grid.Blank()
      ensures !mix && !revealed && top == 0 && left == 0
    {
      this.term := term;
      this.ttx := ttx;
      grid := new byte[Grid.Rows, Grid.Cols]((_, _) => 0);
      mix, revealed := false, false;
      top, left := 0, 0;
      new;
      Grid.Ext(Contents(), Grid.Blank());
    }

    /**
     * `CharGen::new`: refuses a terminal smaller than 41 x 25 without touching
     * it; otherwise a blank grid, raw mode on and the alternate screen entered.
     */
    static method New(term: Terminal, ttx: Teletext) returns (r: Option<CharGen>)
      modifies term
      ensures term.drawn == old(term.drawn)
      ensures r.None? <==> term.cols < 41 || term.rows < 25
      ensures r.None? ==> term.raw == old(term.raw) && term.log == old(term.log)
      ensures r.Some? ==> r.value.Valid() && fresh(r.value) && fresh(r.value.grid)
      ensures r.Some? ==> r.value.term == term && r.value.ttx == ttx
      ensures r.Some? ==> r.value.Contents() == Grid.Blank()
      ensures r.Some? ==> !r.value.mix && !r.value.revealed && r.value.top == 0 && r.value.left == 0
      ensures r.Some? ==> term.raw && term.log == old(term.log) + SetupCmds
    {
      if term.cols < 41 || term.rows < 25 {
        return None;
      }
      var chargen := new CharGen.Init(term, ttx);
      term.raw := true;
      term.log := term.log + SetupCmds;
      return Some(chargen);
    }

    /** `auto_margins`: centre the page in the terminal, then redraw. */
    method AutoMargins()
      requires Valid()
      modifies this, term
      ensures Valid() && mix == old(mix) && revealed == old(revealed)
      ensures left == LeftMargin(term.cols) && top == TopMargin(term.rows)
      ensures term.raw == old(term.raw)
      ensures term.log == old(term.log) + RedrawOutput()
      ensures term.drawn == old(term.drawn) + Upto(25)
    {
      left := LeftMargin(term.cols);
      top := TopMargin(term.rows);
      Redraw();
    }

    /** `set_margins`: store the margins as given, then redraw. */
    method SetMargins(top: u16, left: u16)
      requires Valid()
      modifies this, term
      ensures Valid() && mix == old(mix) && revealed == old(revealed)
      ensures this.top == top && this.left == left
      ensures term.raw == old(term.raw)
      ensures term.log == old(term.log) + RedrawOutput()
      ensures term.drawn == old(term.drawn) + Upto(25)
    {
      this.left := left;
      this.top := top;
      Redraw();
    }

    /** `clear_all`: every row blank, including the header and row 25, and the screen cleared. */
    method ClearAll()
      requires Valid()
      modifies grid, term
      ensures Contents() == Grid.Blank()
      ensures term.raw == old(term.raw)
      ensures term.log == old(term.log) + [SetBg(DefaultBg(mix)), Clear(All)]
      ensures term.drawn == old(term.drawn)
    {
      for row := 0 to Grid.Rows
        modifies grid
        invariant forall i, j :: 0 <= i < row && 0 <= j < Grid.Cols ==> grid[i, j] == 0
      {
        forall j | 0 <= j < Grid.Cols {
          grid[row, j] := 0;
        }
      }
      term.log := term.log + [SetBg(DefaultBg(mix)), Clear(All)];
      Grid.Ext(Contents(), Grid.Blank());
    }

    /** `clear_page`: body rows 1..24 blank and their screen lines cleared; rows 0 and 25 kept. */
    method ClearPage()
      requires Valid()
      modifies grid, term
      ensures Contents() == Grid.ClearPage(old(Contents()))
      ensures term.raw == old(term.raw)
      ensures term.log == old(term.log) + [SetBg(DefaultBg(mix))] + ClearLines()
      ensures term.drawn == old(term.drawn)
    {
      ghost var before := Contents();
      term.log := term.log + [SetBg(DefaultBg(mix))];
      for row := 1 to 25
        invariant forall i, j :: 1 <= i < row && 0 <= j < Grid.Cols ==> grid[i, j] == 0
        invariant forall i, j :: (i == 0 || row <= i < Grid.Rows) && 0 <= j < Grid.Cols ==> grid[i, j] == before[i][j]
        invariant term.log == old(term.log) + [SetBg(DefaultBg(mix))] + ClearLines()[..2 * (row - 1)]
        invariant term.raw == old(term.raw)
        invariant term.drawn == old(term.drawn)
      {
        forall j | 0 <= j < Grid.Cols {
          grid[row, j] := 0;
        }
        assert ClearLines()[..2 * row] == ClearLines()[..2 * (row - 1)] + [MoveTo(0, top + row), Clear(CurrentLine)];
        term.log := term.log + [MoveTo(0, top + row), Clear(CurrentLine)];
      }
      assert ClearLines()[..48] == ClearLines();
      Grid.Ext(Contents(), Grid.ClearPage(before));
    }

    /** `redraw`: clear the screen and render rows 0..24. */
    method Redraw()
      requires Valid()
      modifies term
      ensures term.raw == old(term.raw)
      ensures term.log == old(term.log) + RedrawOutput()
      ensures term.drawn == old(term.drawn) + Upto(25)
    {
      ghost var g := Contents();
      term.log := term.log + [SetBg(DefaultBg(mix)), Clear(All)];
      ghost var start := term.log;
      for row := 0 to 25
        invariant term.log == start + ScreenCmds(ttx, g, mix, revealed, top, left, row)
        invariant term.drawn == old(term.drawn) + Upto(row)
        invariant term.raw == old(term.raw)
        invariant g == Contents()
      {
        RenderNext(row, start, g);
        Concat3(old(term.drawn), Upto(row), [row]);
        UptoNext(row);
      }
      Concat3(old(term.log), [SetBg(DefaultBg(mix)), Clear(All)], ScreenCmds(ttx, g, mix, revealed, top, left, 25));
    }

    /** One turn of the loop in `redraw`: row `row` rendered after rows 0 .. row-1. */
    method RenderNext(row: nat, ghost start: seq<Cmd>, ghost g: seq<seq<byte>>)
      requires Valid() && row < 25 && g == Contents()
      requires term.log == start + ScreenCmds(ttx, g, mix, revealed, top, left, row)
      modifies term
      ensures term.raw == old(term.raw)
      ensures term.log == start + ScreenCmds(ttx, g, mix, revealed, top, left, row + 1)
      ensures term.drawn == old(term.drawn) + [row]
    {
      ghost var done := ScreenCmds(ttx, g, mix, revealed, top, left, row);
      assert RowBytes(row) == g[row];
      RenderRow(row);
      Concat3(start, done, RowOutput(row));
    }

    /** `reveal`: toggle reveal mode and redraw. */
    method Reveal()
      requires Valid()
      modifies this, term
      ensures Valid() && revealed == !old(revealed) && mix == old(mix)
      ensures top == old(top) && left == old(left)
      ensures term.raw == old(term.raw)
      ensures term.log == old(term.log) + RedrawOutput()
      ensures term.drawn == old(term.drawn) + Upto(25)
    {
      revealed := !revealed;
      Redraw();
    }

    /** `mix`: toggle mix mode and redraw. */
    method Mix()
      requires Valid()
      modifies this, term
      ensures Valid() && mix == !old(mix) && revealed == old(revealed)
      ensures top == old(top) && left == old(left)
      ensures term.raw == old(term.raw)
      ensures term.log == old(term.log) + RedrawOutput()
      ensures term.drawn == old(term.drawn) + Upto(25)
    {
      mix := !mix;
      Redraw();
    }

    /**
     * `render_row`: decode the row's bytes left to right from a fresh state and
     * emit each attribute only where it differs from the one in force.
     */
    method RenderRow(row: nat)
      requires Valid() && row < Grid.Rows
      modifies term
      ensures term.raw == old(term.raw)
      ensures term.log == old(term.log) + RowOutput(row)
      ensures term.drawn == old(term.drawn) + [row]
    {
      var bytes := RowBytes(row);
      var cells := RenderCells(ttx, bytes, mix, revealed);
      var bg := if mix then Reset else TermColor(0);
      var out := [MoveTo(0, top + row), SetFg(TermColor(1)), SetBg(bg), Print(Spaces(left))]
        + cells + [SetBg(bg), Print(RowPad)];
      assert out == RowOutput(row);
      term.log := term.log + out;
      term.drawn := term.drawn + [row];
    }

    /**
     * `insert_data`: copy `data` into `row` from column `col`. When the cells
     * already hold `data` nothing happens at all; otherwise the row is redrawn once.
     */
    method InsertData(row: nat, col: nat, data: seq<byte>)
      requires Valid() && Grid.Fits(row, col, data)
      modifies grid, term
      ensures Contents() == Grid.Write(old(Contents()), row, col, data)
      ensures term.raw == old(term.raw)
      ensures term.drawn == old(term.drawn) + Grid.Redrawn(old(Contents()), row, col, data)
      ensures Grid.Slice(old(Contents()), row, col, |data|) == data ==> term.log == old(term.log)
      ensures Grid.Slice(old(Contents()), row, col, |data|) != data ==> term.log == old(term.log) + RowOutput(row)
    {
      ghost var before := Contents();
      var same := true;
      for j := 0 to |data|
        invariant same <==> forall k :: 0 <= k < j ==> before[row][col + k] == data[k]
      {
        if grid[row, col + j] != data[j] {
          same := false;
        }
      }
      if same {
        assert Grid.Slice(before, row, col, |data|) == data;
      }
      if !same {
        for j := 0 to |data|
          modifies grid
          invariant forall k :: 0 <= k < j ==> grid[row, col + k] == data[k]
          invariant forall r, c :: 0 <= r < Grid.Rows && 0 <= c < Grid.Cols && !(r == row && col <= c < col + j) ==>
            grid[r, c] == before[r][c]
        {
          grid[row, col + j] := data[j];
        }
        WriteCells(before, row, col, data);
        RenderRow(row);
      } else {
        Grid.WriteNoChange(before, row, col, data);
      }
    }

    /** The grid now holds `data` at (row, col) and `before` elsewhere: it is the written grid. */
    lemma WriteCells(before: seq<seq<byte>>, row: nat, col: nat, data: seq<byte>)
      requires Valid() && Grid.IsGrid(before) && Grid.Fits(row, col, data)
      requires forall k :: 0 <= k < |data| ==> grid[row, col + k] == data[k]
      requires forall r, c :: 0 <= r < Grid.Rows && 0 <= c < Grid.Cols && !(r == row && col <= c < col + |data|) ==>
        grid[r, c] == before[r][c]
      ensures Contents() == Grid.Write(before, row, col, data)
    {
      var w := Grid.Write(before, row, col, data);
      forall r, c | 0 <= r < Grid.Rows && 0 <= c < Grid.Cols
        ensures Contents()[r][c] == w[r][c]
      {
        if r == row && col <= c < col + |data| {
          assert w[r][c] == Grid.Slice(w, row, col, |data|)[c - col];
        }
      }
      Grid.Ext(Contents(), w);
    }
  }

  /**
   * The loop of `render_row` over the 40 bytes of a row: a fresh decoding state
   * fed the bytes left to right, and the attributes in force threaded from cell
   * to cell, starting from the row's initial ones.
   */
  method RenderCells(ttx: Teletext, bytes: seq<byte>, mix: bool, revealed: bool) returns (out: seq<Cmd>)
    ensures out == Render.Cells(ttx, Elements(ttx, bytes), mix, revealed)
  {
    ghost var es := Elements(ttx, bytes);
    var currentFg := TermColor(1);
    var currentBg := if mix then Reset else TermColor(0);
    var currentConceal := false;
    var currentFlash := false;
    var state: seq<byte> := [];
    out := [];
    for i := 0 to |bytes|
      invariant state == bytes[..i]
      invariant Attrs(currentFg, currentBg, currentConceal, currentFlash) == Running(es[..i], mix, revealed)
      invariant out == Render.Cells(ttx, es[..i], mix, revealed)
    {
      var b := bytes[i];
      var element := ttx.next(state, b);
      assert element == es[i];
      var cmds;
      cmds, currentFg, currentBg, currentConceal, currentFlash :=
        CellStep(currentFg, currentBg, currentConceal, currentFlash, element, ttx.toChar(element), mix, revealed);
      out := out + cmds;
      assert bytes[..i + 1] == bytes[..i] + [b];
      state := state + [b];
      CellsNext(ttx, es, i, mix, revealed);
    }
    assert es[..|bytes|] == es;
  }

  /** The fold over one more cell: the commands of the cells before it, then its own. */
  lemma CellsNext(ttx: Teletext, es: seq<Element>, i: nat, mix: bool, revealed: bool)
    requires i < |es|
    ensures Render.Cells(ttx, es[..i + 1], mix, revealed) ==
      Render.Cells(ttx, es[..i], mix, revealed) + CellCmds(Running(es[..i], mix, revealed), Derive(es[i], mix, revealed), ttx.toChar(es[i]))
    ensures Running(es[..i + 1], mix, revealed) == Derive(es[i], mix, revealed)
  {
    assert es[..i + 1][..i] == es[..i];
  }

  /**
   * One iteration of the loop in `render_row`: each attribute of the decoded
   * element is compared with the one in force and emitted only when it differs;
   * then the glyph is printed.
   */
  method CellStep(fg0: Color, bg0: Color, conceal0: bool, flash0: bool, element: Element, glyph: char, mix: bool, revealed: bool)
    returns (cmds: seq<Cmd>, currentFg: Color, currentBg: Color, currentConceal: bool, currentFlash: bool)
    ensures Attrs(currentFg, currentBg, currentConceal, currentFlash) == Derive(element, mix, revealed)
    ensures cmds == CellCmds(Attrs(fg0, bg0, conceal0, flash0), Derive(element, mix, revealed), glyph)
  {
    ghost var prev, cur := Attrs(fg0, bg0, conceal0, flash0), Derive(element, mix, revealed);
    currentFg, currentBg, currentConceal, currentFlash := fg0, bg0, conceal0, flash0;
    var bg := if mix && !element.style.boxed then Reset else TermColor(element.style.background);
    var setBg: seq<Cmd> := [];
    if bg != currentBg {
      setBg := [SetBg(bg)];
      currentBg := bg;
    }
    assert bg == cur.bg && setBg == (if cur.bg != prev.bg then [SetBg(cur.bg)] else []);
    var fg := TermColor(element.style.foreground);
    var setFg: seq<Cmd> := [];
    if fg != currentFg {
      setFg := [SetFg(fg)];
      currentFg := fg;
    }
    assert fg == cur.fg && setFg == (if cur.fg != prev.fg then [SetFg(cur.fg)] else []);
    var conceal := element.style.conceal && !revealed;
    var setConceal: seq<Cmd> := [];
    if conceal != currentConceal {
      setConceal := [SetAttr(if conceal then Hidden else NoHidden)];
      currentConceal := conceal;
    }
    var flash := element.style.flash;
    var setFlash: seq<Cmd> := [];
    if flash != currentFlash {
      setFlash := [SetAttr(if flash then SlowBlink else NoBlink)];
      currentFlash := flash;
    }
    cmds := setBg + setFg + setConceal + setFlash + [Print([glyph])];
  }

  lemma Concat3<T>(a: seq<T>, b: seq<T>, c: seq<T>)
    ensures (a + b) + c == a + (b + c)
  {
  }

  lemma UptoNext(n: nat)
    ensures Upto(n + 1) == Upto(n) + [n]
  {
  }

  /** The row numbers 0 .. n-1, in order. */
  function Upto(n: nat): (s: seq<int>)
    ensures |s| == n && forall i :: 0 <= i < n ==> s[i] == i
  {
    seq(n, i => i)
  }
}
