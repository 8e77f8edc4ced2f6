/**
 * The pure part of src/chargen.rs: the colour table, the page margins and the
 * per-row attribute fold of `render_row`, which emits a terminal attribute
 * change only where it differs from the one in force.
 */
module Render {
  import opened Base

  /** Terminal colours. The source uses RGB triples; only their equality matters here. */
  datatype Color = Reset | Black | Red | Green | Yellow | Blue | Magenta | Cyan | White

  /** `term_color`: the eight teletext colours; every value from 7 up is white. */
  function TermColor(color: byte): (r: Color)
    ensures r != Reset
    ensures r == White <==> color >= 7
    ensures color == 0 ==> r == Black
    ensures color == 1 ==> r == Red
  {
    match color
    case 0 => Black
    case 1 => Red
    case 2 => Green
    case 3 => Yellow
    case 4 => Blue
    case 5 => Magenta
    case 6 => Cyan
    case _ => White
  }

  /** The colours 0..6 are told apart: no two of them, and none of them and white, coincide. */
  lemma TermColorInjective(a: byte, b: byte)
    requires a < 7 || b < 7
    ensures TermColor(a) == TermColor(b) <==> a == b
  {
  }

  /** `default_bg`: the terminal's own background in mix mode, teletext black otherwise. */
  function DefaultBg(mix: bool): (r: Color)
    ensures r == Reset <==> mix
    ensures !mix ==> r == TermColor(0)
  {
    if mix then Reset else TermColor(0)
  }

  /** The left margin `auto_margins` gives a terminal `cols` wide: the 41 columns drawn sit centred. */
  function LeftMargin(cols: nat): (left: nat)
    ensures cols < 41 ==> left == 0
    ensures cols >= 41 ==> left + 41 <= cols && 0 <= (cols - 41) - 2 * left <= 1
  {
    if cols < 41 then 0 else (cols - 41) / 2
  }

  /** The top margin `auto_margins` gives a terminal `rows` high: the larger half of the spare rows. */
  function TopMargin(rows: nat): (top: nat)
    ensures rows < 26 ==> top == 0
    ensures rows >= 26 ==> top + 26 <= rows && 0 <= 2 * top - (rows - 26) <= 1
  {
    if rows < 26 then 0 else (rows - 26) - (rows - 26) / 2
  }

  /** The display style of one decoded cell, as the teletext crate reports it. */
  datatype Style = Style(foreground: byte, background: byte, boxed: bool, conceal: bool, flash: bool)

  /** One decoded cell: its style and the opaque character data `to_char` turns into a glyph. */
  datatype Element = Element(style: Style, symbol: nat)

  /**
   * The teletext crate as the renderer uses it. Its decoding state is reset
   * for every row and then fed the row's bytes left to right, so it is
   * determined by the bytes already consumed: `next(consumed, b)` is the
   * element decoded from `b`. `toChar` is `to_char` for the fixed character set.
   */
  datatype Teletext = Teletext(next: (seq<byte>, byte) -> Element, toChar: Element -> char)

  /** The elements of a row, decoded strictly left to right from a fresh state. */
  function Elements(ttx: Teletext, bytes: seq<byte>): (es: seq<Element>)
    ensures |es| == |bytes|
    ensures forall i :: 0 <= i < |bytes| ==> es[i] == ttx.next(bytes[..i], bytes[i])
  {
    seq(|bytes|, i requires 0 <= i < |bytes| => ttx.next(bytes[..i], bytes[i]))
  }

  /** The terminal attributes in force while a row is drawn. */
  datatype Attrs = Attrs(fg: Color, bg: Color, conceal: bool, flash: bool)

  /** The attributes at the start of every row: red on the default background, nothing hidden or blinking. */
  function Initial(mix: bool): (a: Attrs)
    ensures a.fg == Red && a.fg != a.bg
    ensures a.bg == Reset <==> mix
    ensures !a.conceal && !a.flash
  {
    Attrs(TermColor(1), DefaultBg(mix), false, false)
  }

  /** The attributes a cell asks for, under the mix and reveal modes. */
  function Derive(e: Element, mix: bool, revealed: bool): (a: Attrs)
    ensures a.fg != Reset
    ensures a.bg == Reset <==> mix && !e.style.boxed
    ensures a.conceal ==> e.style.conceal && !revealed
    ensures a.flash == e.style.flash
  {
    Attrs(
      TermColor(e.style.foreground),
      (if mix && !e.style.boxed then Reset else TermColor(e.style.background)),
      e.style.conceal && !revealed,
      e.style.flash)
  }

  /** Mix mode changes only the background, and only of cells that are not boxed. */
  lemma MixOnlyChangesBackground(e: Element, revealed: bool)
    ensures Derive(e, true, revealed).(bg := Black) == Derive(e, false, revealed).(bg := Black)
    ensures e.style.boxed ==> Derive(e, true, revealed) == Derive(e, false, revealed)
    ensures !e.style.boxed ==> Derive(e, true, revealed).bg == Reset != Derive(e, false, revealed).bg
  {
  }

  /** Reveal mode hides nothing; otherwise a cell is hidden exactly when concealed. */
  lemma RevealUnconceals(e: Element, mix: bool)
    ensures !Derive(e, mix, true).conceal
    ensures Derive(e, mix, false).conceal == e.style.conceal
    ensures Derive(e, mix, true).(conceal := false) == Derive(e, mix, false).(conceal := false)
  {
  }

  datatype Attribute = Hidden | NoHidden | SlowBlink | NoBlink

  datatype ClearType = All | CurrentLine

  /** The terminal commands the renderer issues, in the order it issues them. */
  datatype Cmd =
    | MoveTo(col: int, row: int)
    | SetFg(fg: Color)
    | SetBg(bg: Color)
    | SetAttr(attr: Attribute)
    | Print(text: string)
    | Clear(clear: ClearType)
    | EnterAlternateScreen
    | DisableLineWrap
    | Hide
    | SetTitle(title: string)

  /** The attribute commands for moving from `prev` to `cur`: one for each attribute that changes. */
  function AttrCmds(prev: Attrs, cur: Attrs): (cmds: seq<Cmd>)
    ensures |cmds| <= 4
    ensures forall i :: 0 <= i < |cmds| ==> cmds[i].SetBg? || cmds[i].SetFg? || cmds[i].SetAttr?
  {
    (if cur.bg != prev.bg then [SetBg(cur.bg)] else [])
    + (if cur.fg != prev.fg then [SetFg(cur.fg)] else [])
    + (if cur.conceal != prev.conceal then [SetAttr(if cur.conceal then Hidden else NoHidden)] else [])
    + (if cur.flash != prev.flash then [SetAttr(if cur.flash then SlowBlink else NoBlink)] else [])
  }

  /**
   * An attribute command is emitted exactly for the attributes that differ from
   * those in force, at most one per attribute, and nothing when none differs.
   */
  lemma AttrCmdsOnChange(prev: Attrs, cur: Attrs)
    ensures SetBg(cur.bg) in AttrCmds(prev, cur) <==> cur.bg != prev.bg
    ensures SetFg(cur.fg) in AttrCmds(prev, cur) <==> cur.fg != prev.fg
    ensures SetAttr(if cur.conceal then Hidden else NoHidden) in AttrCmds(prev, cur) <==> cur.conceal != prev.conceal
    ensures SetAttr(if cur.flash then SlowBlink else NoBlink) in AttrCmds(prev, cur) <==> cur.flash != prev.flash
    ensures AttrCmds(prev, cur) == [] <==> cur == prev
  {
    var r := AttrCmds(prev, cur);
    var bg := if cur.bg != prev.bg then [SetBg(cur.bg)] else [];
    var fg := if cur.fg != prev.fg then [SetFg(cur.fg)] else [];
    var conceal := if cur.conceal != prev.conceal then [SetAttr(if cur.conceal then Hidden else NoHidden)] else [];
    var flash := if cur.flash != prev.flash then [SetAttr(if cur.flash then SlowBlink else NoBlink)] else [];
    assert r == bg + fg + conceal + flash;
    assert SetBg(cur.bg) !in fg + conceal + flash;
    assert SetFg(cur.fg) !in bg + conceal + flash;
  }

  /** The commands for one cell: its attribute changes, then its glyph. */
  function CellCmds(prev: Attrs, cur: Attrs, glyph: char): seq<Cmd>
  {
    AttrCmds(prev, cur) + [Print([glyph])]
  }

  /** The attributes in force after the cells `es`: those of the last one, or the row's initial ones. */
  function Running(es: seq<Element>, mix: bool, revealed: bool): Attrs
  {
    if es == [] then Initial(mix) else Derive(es[|es| - 1], mix, revealed)
  }

  /**
   * The commands for the cells `es`, threading the running attributes left to
   * right: one to five per cell, and never a cursor move or a clear.
   */
  function Cells(ttx: Teletext, es: seq<Element>, mix: bool, revealed: bool): (cmds: seq<Cmd>)
    ensures |es| <= |cmds| <= 5 * |es|
    ensures forall i :: 0 <= i < |cmds| ==> !cmds[i].MoveTo? && !cmds[i].Clear?
  {
    if es == [] then []
    else
      var init := es[..|es| - 1];
      Cells(ttx, init, mix, revealed)
        + CellCmds(Running(init, mix, revealed), Derive(es[|es| - 1], mix, revealed), ttx.toChar(es[|es| - 1]))
  }

  /** The trailing blank cells `render_row` prints after the 40 cells of a row. */
  const RowPad: string := "     "

  function Spaces(n: nat): (s: string)
    ensures |s| == n && forall i :: 0 <= i < n ==> s[i] == ' '
  {
    seq(n, _ => ' ')
  }

  /**
   * Everything `render_row` writes for grid row `row` holding `bytes`: one
   * cursor move, to the row's screen line, then at least one command per byte
   * and the trailer, and no clear.
   */
  function RowCmds(ttx: Teletext, bytes: seq<byte>, mix: bool, revealed: bool, top: nat, left: nat, row: nat): (cmds: seq<Cmd>)
    ensures |cmds| >= |bytes| + 6
    ensures cmds[0] == MoveTo(0, top + row)
    ensures forall i :: 1 <= i < |cmds| ==> !cmds[i].MoveTo? && !cmds[i].Clear?
    ensures cmds[|cmds| - 1] == Print(RowPad)
  {
    [MoveTo(0, top + row), SetFg(TermColor(1)), SetBg(DefaultBg(mix)), Print(Spaces(left))]
      + Cells(ttx, Elements(ttx, bytes), mix, revealed)
      + [SetBg(DefaultBg(mix)), Print(RowPad)]
  }

  /** Everything rendering rows 0 .. n-1 of grid `g` in turn writes. */
  function ScreenCmds(ttx: Teletext, g: seq<seq<byte>>, mix: bool, revealed: bool, top: nat, left: nat, n: nat): seq<Cmd>
    requires n <= |g|
  {
    if n == 0 then [] else ScreenCmds(ttx, g, mix, revealed, top, left, n - 1) + RowCmds(ttx, g[n - 1], mix, revealed, top, left, n - 1)
  }

  /** The texts printed by a command sequence, in order. */
  function Printed(cmds: seq<Cmd>): seq<string>
  {
    if cmds == [] then []
    else Printed(cmds[..|cmds| - 1]) + (if cmds[|cmds| - 1].Print? then [cmds[|cmds| - 1].text] else [])
  }

  lemma {:induction false} PrintedAppend(a: seq<Cmd>, b: seq<Cmd>)
    ensures Printed(a + b) == Printed(a) + Printed(b)
    decreases |b|
  {
    if b == [] {
      assert a + b == a;
    } else {
      var b' := b[..|b| - 1];
      assert (a + b)[..|a + b| - 1] == a + b';
      PrintedAppend(a, b');
    }
  }

  /** The glyphs of the cells `es`, one printed text per cell. */
  function Glyphs(ttx: Teletext, es: seq<Element>): (r: seq<string>)
    ensures |r| == |es| && forall i :: 0 <= i < |es| ==> r[i] == [ttx.toChar(es[i])]
  {
    seq(|es|, i requires 0 <= i < |es| => [ttx.toChar(es[i])])
  }

  /**
   * A row prints exactly one glyph per cell, the crate's character for it, in
   * order; neither mix nor reveal mode changes which glyph is printed.
   */
  lemma {:induction false} CellsPrintGlyphs(ttx: Teletext, es: seq<Element>, mix: bool, revealed: bool)
    ensures Printed(Cells(ttx, es, mix, revealed)) == Glyphs(ttx, es)
  {
    if es != [] {
      var init := es[..|es| - 1];
      var last := es[|es| - 1];
      var cell := CellCmds(Running(init, mix, revealed), Derive(last, mix, revealed), ttx.toChar(last));
      assert Cells(ttx, es, mix, revealed) == Cells(ttx, init, mix, revealed) + cell;
      CellsPrintGlyphs(ttx, init, mix, revealed);
      PrintedAppend(Cells(ttx, init, mix, revealed), cell);
      PrintedCell(Running(init, mix, revealed), Derive(last, mix, revealed), ttx.toChar(last));
      GlyphsSnoc(ttx, es);
    }
  }

  /** The glyphs of a non-empty cell sequence: those of all but the last cell, then the last one's. */
  lemma GlyphsSnoc(ttx: Teletext, es: seq<Element>)
    requires es != []
    ensures Glyphs(ttx, es) == Glyphs(ttx, es[..|es| - 1]) + [[ttx.toChar(es[|es| - 1])]]
  {
    var gs := Glyphs(ttx, es[..|es| - 1]) + [[ttx.toChar(es[|es| - 1])]];
    forall i | 0 <= i < |es|
      ensures gs[i] == Glyphs(ttx, es)[i]
    {
      if i < |es| - 1 {
        assert gs[i] == Glyphs(ttx, es[..|es| - 1])[i];
      }
    }
  }

  /** A cell prints exactly its glyph. */
  lemma PrintedCell(prev: Attrs, cur: Attrs, glyph: char)
    ensures Printed(CellCmds(prev, cur, glyph)) == [[glyph]]
  {
    var attrs := AttrCmds(prev, cur);
    assert forall c :: c in attrs ==> !c.Print?;
    assert CellCmds(prev, cur, glyph)[..|attrs|] == attrs;
    NoPrints(attrs);
  }

  lemma {:induction false} NoPrints(cmds: seq<Cmd>)
    requires forall c :: c in cmds ==> !c.Print?
    ensures Printed(cmds) == []
  {
    if cmds != [] {
      NoPrints(cmds[..|cmds| - 1]);
    }
  }

  /** The glyphs of a whole row do not depend on the mix and revealed modes. */
  lemma RowGlyphsIgnoreModes(ttx: Teletext, bytes: seq<byte>, mix: bool, revealed: bool, mix': bool, revealed': bool)
    ensures Printed(Cells(ttx, Elements(ttx, bytes), mix, revealed)) == Printed(Cells(ttx, Elements(ttx, bytes), mix', revealed'))
  {
    CellsPrintGlyphs(ttx, Elements(ttx, bytes), mix, revealed);
    CellsPrintGlyphs(ttx, Elements(ttx, bytes), mix', revealed');
  }
}
