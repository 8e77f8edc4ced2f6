/**
 * The packet decoder of src/decoder.rs (`Decoder`): it takes 42-byte teletext
 * packets and keypad buttons, keeps two flags about the page header last
 * seen, and writes into the character generator's grid.
 *
 * `PacketStep` and `ButtonStep` say what one packet and one button do to the
 * decoder as a whole; the class `Decoder` does it in place and is proved
 * against them.
 */
module PacketDecoder {
  import opened Base
  import opened Coding
  import Keymap
  import PageSelect
  import Grid
  import Render
  import Chargen

  /** Everything a packet or a button can change, as a value. */
  datatype DecoderState = DecoderState(
    entry: PageSelect.Entry,   // the page number entry
    matched: bool,             // header_matched: the last accepted header was for the selected page
    locked: bool,              // header_locked: a matching header was seen since the last keypress
    grid: seq<seq<byte>>,      // the character generator's grid
    mix: bool,                 // the character generator's mix mode
    revealed: bool)            // the character generator's reveal mode

  predicate Good(s: DecoderState)
  {
    PageSelect.WellFormed(s.entry) && Grid.IsGrid(s.grid)
  }

  /** The packet's magazine and row, from its first two bytes. */
  function Address(c: Coding, packet: seq<byte>): (Mag, Row)
    requires |packet| == 42
  {
    c.mrag(packet[..2])
  }

  /** Whether the decoder looks at a packet at all: no hold, and the magazine in force. */
  predicate Accepted(c: Coding, s: DecoderState, packet: seq<byte>)
    requires |packet| == 42
  {
    !s.entry.hold && Address(c, packet).0 == s.entry.mag
  }

  /** The header's page number, bytes 2..3. */
  function HeaderPage(c: Coding, packet: seq<byte>): byte
    requires |packet| == 42
  {
    c.hamming16(packet[2..4])
  }

  /** Control bit C4, erase page, of a header: bit 0 of `control_bits` over bytes 4..11. */
  predicate ErasePage(c: Coding, packet: seq<byte>)
    requires |packet| == 42
  {
    c.controlBits(packet[4..12]) % 2 == 1
  }

  /** `process_packet`. */
  function PacketStep(c: Coding, s: DecoderState, packet: seq<byte>): (r: DecoderState)
    requires Good(s) && |packet| == 42
    ensures Good(r)
    ensures r.entry == s.entry && r.mix == s.mix && r.revealed == s.revealed
    ensures r.grid[25] == s.grid[25]
  {
    var (mag, row) := Address(c, packet);
    if !Accepted(c, s, packet) then s
    else if row == 0 then Header(c, s, packet)
    else if row <= 24 then
      if s.matched then s.(grid := Grid.Write(s.grid, row as int, 0, packet[2..])) else s
    else s
  }

  /** The header arm of `process_packet`: the header text, then the match bookkeeping. */
  function Header(c: Coding, s: DecoderState, packet: seq<byte>): (r: DecoderState)
    requires Good(s) && |packet| == 42
    ensures Good(r)
    ensures r.entry == s.entry && r.mix == s.mix && r.revealed == s.revealed
    ensures r.grid[25] == s.grid[25]
  {
    var text := HeaderText(s, packet);
    if HeaderPage(c, packet) == s.entry.page then
      s.(matched := true, locked := true, grid := Marked(text, ErasePage(c, packet)))
    else
      s.(matched := false, grid := text)
  }

  /** The grid after a header's text is written: the clock part only once locked. */
  function HeaderText(s: DecoderState, packet: seq<byte>): (g: seq<seq<byte>>)
    requires Good(s) && |packet| == 42
    ensures Grid.IsGrid(g) && g[25] == s.grid[25]
  {
    if s.locked then Grid.Write(s.grid, 0, 31, packet[33..]) else Grid.Write(s.grid, 0, 8, packet[10..])
  }

  /** The grid after a matching header: white at (0, 7), then rows 1..24 blanked if `erase`. */
  function Marked(g: seq<seq<byte>>, erase: bool): (r: seq<seq<byte>>)
    requires Grid.IsGrid(g)
    ensures Grid.IsGrid(r) && r[25] == g[25]
  {
    var marked := Grid.Write(g, 0, 7, [PageSelect.AlphaWhite]);
    if erase then Grid.ClearPage(marked) else marked
  }

  /** `process_button`. Buttons never touch the header flags' `matched` half or the body rows. */
  function ButtonStep(c: Coding, s: DecoderState, b: Keymap.Button): (r: DecoderState)
    requires Good(s)
    ensures Good(r)
    ensures r.matched == s.matched
    ensures forall i :: 1 <= i < Grid.Rows ==> r.grid[i] == s.grid[i]
  {
    match b
    case Digit(x) =>
      var e := PageSelect.Typed(c, s.entry, x);
      s.(entry := e, locked := false, grid := Grid.Write(s.grid, 0, 2, e.indicator))
    case Hold => HoldStep(c, s)
    case Reveal => s.(revealed := !s.revealed)
    case Mix => s.(mix := !s.mix)
    case Fastext(_) => s
    case PageNext => s
    case PagePrev => s
    case TimedPage => s
  }

  /** The hold arm of `process_button`: toggle, show the indicator, and on release unlock and mark (0, 7) green. */
  function HoldStep(c: Coding, s: DecoderState): (r: DecoderState)
    requires Good(s)
    ensures Good(r)
  {
    var e := PageSelect.HoldToggled(c, s.entry);
    var shown := s.(entry := e, grid := Grid.Write(s.grid, 0, 2, e.indicator));
    if !e.hold then shown.(locked := false, grid := Grid.Write(shown.grid, 0, 7, [PageSelect.AlphaGreen]))
    else shown
  }

  /**
   * The grid rows `process_packet` renders, in order: one per write that
   * changes a cell. A packet renders only its own row, at most twice, and
   * never row 25.
   */
  function PacketRedraws(c: Coding, s: DecoderState, packet: seq<byte>): (r: seq<int>)
    requires Good(s) && |packet| == 42
    ensures |r| <= 2
    ensures forall i :: 0 <= i < |r| ==> r[i] == Address(c, packet).1 as int && r[i] < 25
  {
    var (mag, row) := Address(c, packet);
    if !Accepted(c, s, packet) then []
    else if row == 0 then HeaderRedraws(c, s, packet)
    else if row <= 24 && s.matched then Grid.Redrawn(s.grid, row as int, 0, packet[2..])
    else []
  }

  /** The grid rows the header arm renders: for the header text, then for the white attribute; row 0 only. */
  function HeaderRedraws(c: Coding, s: DecoderState, packet: seq<byte>): (r: seq<int>)
    requires Good(s) && |packet| == 42
    ensures |r| <= 2 && forall i :: 0 <= i < |r| ==> r[i] == 0
    ensures HeaderPage(c, packet) != s.entry.page ==> r == HeaderTextRedraws(s, packet)
  {
    HeaderTextRedraws(s, packet)
    + (if HeaderPage(c, packet) == s.entry.page then Grid.Redrawn(HeaderText(s, packet), 0, 7, [PageSelect.AlphaWhite]) else [])
  }

  /** The grid row the header text renders: row 0, exactly when the text changes a cell. */
  function HeaderTextRedraws(s: DecoderState, packet: seq<byte>): (r: seq<int>)
    requires Good(s) && |packet| == 42
    ensures r == [] || r == [0]
    ensures r == [] <==> HeaderText(s, packet) == s.grid
  {
    if s.locked then Grid.Redrawn(s.grid, 0, 31, packet[33..]) else Grid.Redrawn(s.grid, 0, 8, packet[10..])
  }

  /** The grid rows `process_button` renders, in order; `ButtonRedrawRows` says which they can be. */
  function ButtonRedraws(c: Coding, s: DecoderState, b: Keymap.Button): (r: seq<int>)
    requires Good(s)
  {
    match b
    case Digit(x) => Grid.Redrawn(s.grid, 0, 2, PageSelect.Typed(c, s.entry, x).indicator)
    case Hold => HoldRedraws(c, s)
    case Reveal => Chargen.Upto(25)
    case Mix => Chargen.Upto(25)
    case Fastext(_) => []
    case PageNext => []
    case PagePrev => []
    case TimedPage => []
  }

  /**
   * The grid rows the hold arm renders: for the indicator, then for the green
   * attribute on release. The green write never renders, since the indicator
   * `cancel` shows already ends in green: row 0 at most once.
   */
  function HoldRedraws(c: Coding, s: DecoderState): (r: seq<int>)
    requires Good(s)
    ensures r == [] || r == [0]
    ensures r == [] <==> Grid.Write(s.grid, 0, 2, PageSelect.HoldToggled(c, s.entry).indicator) == s.grid
  {
    var e := PageSelect.HoldToggled(c, s.entry);
    var shown := Grid.Write(s.grid, 0, 2, e.indicator);
    assert !e.hold ==> shown[0][7] == Grid.Slice(shown, 0, 2, 6)[5] == PageSelect.AlphaGreen;
    assert !e.hold ==> Grid.Slice(shown, 0, 7, 1) == [PageSelect.AlphaGreen];
    Grid.Redrawn(s.grid, 0, 2, e.indicator)
    + (if !e.hold then Grid.Redrawn(Grid.Write(s.grid, 0, 2, e.indicator), 0, 7, [PageSelect.AlphaGreen]) else [])
  }

  /**
   * A button never renders row 25: Digit and Hold render row 0 at most once,
   * Reveal and Mix rows 0..24 in order, and the others nothing.
   */
  lemma ButtonRedrawRows(c: Coding, s: DecoderState, b: Keymap.Button)
    requires Good(s)
    ensures forall i :: 0 <= i < |ButtonRedraws(c, s, b)| ==> 0 <= ButtonRedraws(c, s, b)[i] < 25
    ensures b.Digit? || b.Hold? ==> ButtonRedraws(c, s, b) == [] || ButtonRedraws(c, s, b) == [0]
    ensures b.Reveal? || b.Mix? ==> |ButtonRedraws(c, s, b)| == 25
    ensures b.Fastext? || b.PageNext? || b.PagePrev? || b.TimedPage? ==> ButtonRedraws(c, s, b) == []
  {
  }

  /** The packets `ps` processed in order. */
  function Packets(c: Coding, s: DecoderState, ps: seq<seq<byte>>): (r: DecoderState)
    requires Good(s) && forall i :: 0 <= i < |ps| ==> |ps[i]| == 42
    ensures Good(r)
    decreases |ps|
  {
    if ps == [] then s else Packets(c, PacketStep(c, s, ps[0]), ps[1..])
  }

  /** The buttons `bs` pressed in order. */
  function Buttons(c: Coding, s: DecoderState, bs: seq<Keymap.Button>): (r: DecoderState)
    requires Good(s)
    ensures Good(r)
    decreases |bs|
  {
    if bs == [] then s else Buttons(c, ButtonStep(c, s, bs[0]), bs[1..])
  }

  /** The state `Decoder::new` leaves: the default entry shown at (0, 2) on a blank grid. */
  function Initial(): (s: DecoderState)
    ensures Good(s)
  {
    var e := PageSelect.DefaultEntry();
    DecoderState(e, false, false, Grid.Write(Grid.Blank(), 0, 2, e.indicator), false, false)
  }

  /** The new decoder shows " P100" and a green attribute at the top left, and nothing else. */
  lemma InitialShowsPage100()
    ensures Grid.Slice(Initial().grid, 0, 2, 6) == [0x20, 0x50, 0x31, 0x30, 0x30, 0x02]
    ensures forall i, j :: 0 <= i < Grid.Rows && 0 <= j < Grid.Cols && !(i == 0 && 2 <= j < 8) ==> Initial().grid[i][j] == 0
    ensures Grid.Slice(Grid.Blank(), 0, 2, 6) != PageSelect.DefaultEntry().indicator
  {
    assert Grid.Slice(Grid.Blank(), 0, 2, 6)[0] == 0;
  }

  /** A packet is ignored while held, when its magazine is not the one in force, or when its row is above 24. */
  lemma IgnoredPackets(c: Coding, s: DecoderState, packet: seq<byte>)
    requires Good(s) && |packet| == 42
    ensures s.entry.hold ==> PacketStep(c, s, packet) == s
    ensures Address(c, packet).0 != s.entry.mag ==> PacketStep(c, s, packet) == s
    ensures Address(c, packet).1 > 24 ==> PacketStep(c, s, packet) == s
  {
  }

  /**
   * An accepted header sets `matched` to whether its page is the one in force,
   * and `locked` once it matches; a header for another page leaves `locked` as it was.
   */
  lemma HeaderFlags(c: Coding, s: DecoderState, packet: seq<byte>)
    requires Good(s) && |packet| == 42 && Accepted(c, s, packet) && Address(c, packet).1 == 0
    ensures PacketStep(c, s, packet).matched <==> HeaderPage(c, packet) == s.entry.page
    ensures PacketStep(c, s, packet).locked <==> s.locked || HeaderPage(c, packet) == s.entry.page
  {
  }

  /**
   * An accepted header writes its last 9 bytes at column 31 when locked, its
   * last 32 bytes at column 8 otherwise; a match also writes a white attribute
   * at column 7 and, with the erase bit, blanks rows 1..24. Nothing else changes.
   */
  lemma HeaderCells(c: Coding, s: DecoderState, packet: seq<byte>)
    requires Good(s) && |packet| == 42 && Accepted(c, s, packet) && Address(c, packet).1 == 0
    ensures s.locked ==> Grid.Slice(PacketStep(c, s, packet).grid, 0, 31, 9) == packet[33..]
    ensures s.locked ==> forall j :: 8 <= j < 31 ==> PacketStep(c, s, packet).grid[0][j] == s.grid[0][j]
    ensures !s.locked ==> Grid.Slice(PacketStep(c, s, packet).grid, 0, 8, 32) == packet[10..]
    ensures PacketStep(c, s, packet).grid[0][7] ==
      if HeaderPage(c, packet) == s.entry.page then PageSelect.AlphaWhite else s.grid[0][7]
    ensures forall j :: 0 <= j < 7 ==> PacketStep(c, s, packet).grid[0][j] == s.grid[0][j]
    ensures forall i :: 1 <= i < 25 ==>
      PacketStep(c, s, packet).grid[i] == (if HeaderPage(c, packet) == s.entry.page && ErasePage(c, packet) then Grid.BlankRow() else s.grid[i])
  {
    var text := if s.locked then Grid.Write(s.grid, 0, 31, packet[33..]) else Grid.Write(s.grid, 0, 8, packet[10..]);
    if HeaderPage(c, packet) == s.entry.page {
      var marked := Grid.Write(text, 0, 7, [PageSelect.AlphaWhite]);
      assert marked[0][7] == Grid.Slice(marked, 0, 7, 1)[0];
      if s.locked {
        assert Grid.Slice(marked, 0, 31, 9) == Grid.Slice(text, 0, 31, 9);
      } else {
        assert Grid.Slice(marked, 0, 8, 32) == Grid.Slice(text, 0, 8, 32);
      }
    }
  }

  /**
   * An accepted body row 1..24 is written whole, from byte 2, exactly when
   * `matched` is set; no flag and no other row changes.
   */
  lemma BodyRowGatedOnMatched(c: Coding, s: DecoderState, packet: seq<byte>)
    requires Good(s) && |packet| == 42 && Accepted(c, s, packet)
    requires 1 <= Address(c, packet).1 <= 24
    ensures var r, row := PacketStep(c, s, packet), Address(c, packet).1 as int;
      && r.grid[row] == (if s.matched then packet[2..] else s.grid[row])
      && (forall i :: 0 <= i < Grid.Rows && i != row ==> r.grid[i] == s.grid[i])
      && r.matched == s.matched && r.locked == s.locked
  {
    var r, row := PacketStep(c, s, packet), Address(c, packet).1 as int;
    if s.matched {
      BodyRowStep(c, s, packet);
      var w := Grid.Write(s.grid, row, 0, packet[2..]);
      assert r.grid == w;
      assert w[row] == Grid.Slice(w, row, 0, 40);
    } else {
      assert r == s;
    }
  }

  /** With `matched` set, an accepted body row is one write of bytes 2..41 at column 0. */
  lemma BodyRowStep(c: Coding, s: DecoderState, packet: seq<byte>)
    requires Good(s) && |packet| == 42 && Accepted(c, s, packet) && s.matched
    requires 1 <= Address(c, packet).1 <= 24
    ensures PacketStep(c, s, packet) == s.(grid := Grid.Write(s.grid, Address(c, packet).1 as int, 0, packet[2..]))
  {
  }

  /** `locked` goes on only through a header of the page in force. */
  lemma LockRequiresMatch(c: Coding, s: DecoderState, packet: seq<byte>)
    requires Good(s) && |packet| == 42 && !s.locked && PacketStep(c, s, packet).locked
    ensures Accepted(c, s, packet) && Address(c, packet).1 == 0 && HeaderPage(c, packet) == s.entry.page
  {
  }

  /** No packet sequence ever writes row 25. */
  lemma {:induction false} Row25Untouched(c: Coding, s: DecoderState, ps: seq<seq<byte>>)
    requires Good(s) && forall i :: 0 <= i < |ps| ==> |ps[i]| == 42
    ensures Packets(c, s, ps).grid[25] == s.grid[25]
    decreases |ps|
  {
    if ps != [] {
      Row25Untouched(c, PacketStep(c, s, ps[0]), ps[1..]);
    }
  }

  /** While the hold is on, no packet sequence changes anything. */
  lemma {:induction false} HoldSuppressesPackets(c: Coding, s: DecoderState, ps: seq<seq<byte>>)
    requires Good(s) && s.entry.hold && forall i :: 0 <= i < |ps| ==> |ps[i]| == 42
    ensures Packets(c, s, ps) == s
    decreases |ps|
  {
    if ps != [] {
      assert PacketStep(c, s, ps[0]) == s;
      HoldSuppressesPackets(c, s, ps[1..]);
    }
  }

  /** Without a matching header, packets that are not headers change nothing at all. */
  lemma {:induction false} UnmatchedBodyRowsStay(c: Coding, s: DecoderState, ps: seq<seq<byte>>)
    requires Good(s) && !s.matched
    requires forall i :: 0 <= i < |ps| ==> |ps[i]| == 42 && Address(c, ps[i]).1 != 0
    ensures Packets(c, s, ps) == s
    decreases |ps|
  {
    if ps != [] {
      assert PacketStep(c, s, ps[0]) == s;
      UnmatchedBodyRowsStay(c, s, ps[1..]);
    }
  }

  /**
   * Selecting a new page does not clear `matched`: body rows of the newly
   * selected magazine are written as soon as it is committed, before any
   * header of the new page has been seen.
   */
  lemma StaleMatchWritesBody(c: Coding, s: DecoderState, d1: byte, hi: byte, lo: byte, packet: seq<byte>)
    requires ValidCoding(c) && Good(s) && s.matched && s.entry.pos == 2 && !s.entry.manualHold
    requires 1 <= d1 <= 8 && hi <= 0xf && lo <= 0xf && |packet| == 42
    requires Address(c, packet).0 == d1 & 0x7 && 1 <= Address(c, packet).1 <= 24
    ensures Buttons(c, s, [Keymap.Digit(d1), Keymap.Digit(hi), Keymap.Digit(lo)]).entry.page == (hi << 4) | lo
    ensures Buttons(c, s, [Keymap.Digit(d1), Keymap.Digit(hi), Keymap.Digit(lo)]).matched
    ensures PacketStep(c, Buttons(c, s, [Keymap.Digit(d1), Keymap.Digit(hi), Keymap.Digit(lo)]), packet)
      .grid[Address(c, packet).1] == packet[2..]
  {
    var s1 := ButtonStep(c, s, Keymap.Digit(d1));
    var s2 := ButtonStep(c, s1, Keymap.Digit(hi));
    var s3 := ButtonStep(c, s2, Keymap.Digit(lo));
    assert s1.entry == PageSelect.Typed(c, s.entry, d1);
    assert s2.entry == PageSelect.Typed(c, s1.entry, hi);
    assert s3.entry == PageSelect.Typed(c, s2.entry, lo);
    assert Buttons(c, s, [Keymap.Digit(d1), Keymap.Digit(hi), Keymap.Digit(lo)]) == Buttons(c, s1, [Keymap.Digit(hi), Keymap.Digit(lo)]);
    assert Buttons(c, s1, [Keymap.Digit(hi), Keymap.Digit(lo)]) == Buttons(c, s2, [Keymap.Digit(lo)]);
    assert Buttons(c, s2, [Keymap.Digit(lo)]) == s3;
    PageSelect.CommitOnThirdDigit(c, s.entry, d1, hi, lo);
    assert PageSelect.TypedAll(c, s.entry, [d1, hi, lo]) == s3.entry by {
      assert PageSelect.TypedAll(c, s.entry, [d1, hi, lo]) == PageSelect.TypedAll(c, s1.entry, [hi, lo]);
      assert PageSelect.TypedAll(c, s1.entry, [hi, lo]) == PageSelect.TypedAll(c, s2.entry, [lo]);
      assert PageSelect.TypedAll(c, s2.entry, [lo]) == PageSelect.TypedAll(c, s3.entry, []);
    }
    BodyRowGatedOnMatched(c, s3, packet);
  }

  /** Fastext, page up and down, and timed page do nothing. */
  lemma ButtonNoOps(c: Coding, s: DecoderState, b: Keymap.Button)
    requires Good(s) && (b.Fastext? || b.PageNext? || b.PagePrev? || b.TimedPage?)
    ensures ButtonStep(c, s, b) == s
    ensures ButtonRedraws(c, s, b) == []
  {
  }

  /** Reveal and Mix flip their own mode only, and redraw rows 0..24. */
  lemma ModeButtons(c: Coding, s: DecoderState)
    requires Good(s)
    ensures ButtonStep(c, s, Keymap.Reveal) == s.(revealed := !s.revealed)
    ensures ButtonStep(c, s, Keymap.Mix) == s.(mix := !s.mix)
    ensures ButtonRedraws(c, s, Keymap.Reveal) == Chargen.Upto(25) && ButtonRedraws(c, s, Keymap.Mix) == Chargen.Upto(25)
  {
  }

  /** A digit unlocks the header and shows the new indicator at (0, 2); only row 0, columns 2..7, change. */
  lemma DigitButton(c: Coding, s: DecoderState, x: byte)
    requires Good(s)
    ensures ButtonStep(c, s, Keymap.Digit(x)).entry == PageSelect.Typed(c, s.entry, x)
    ensures !ButtonStep(c, s, Keymap.Digit(x)).locked
    ensures Grid.Slice(ButtonStep(c, s, Keymap.Digit(x)).grid, 0, 2, 6) == PageSelect.Typed(c, s.entry, x).indicator
    ensures forall i, j :: 0 <= i < Grid.Rows && 0 <= j < Grid.Cols && !(i == 0 && 2 <= j < 8) ==>
      ButtonStep(c, s, Keymap.Digit(x)).grid[i][j] == s.grid[i][j]
  {
  }

  /**
   * Releasing the hold unlocks the header and leaves a green attribute at
   * (0, 7). The explicit write of that attribute never changes a cell: the
   * indicator written just before already ends with it.
   */
  lemma HoldRelease(c: Coding, s: DecoderState)
    requires Good(s) && s.entry.manualHold
    ensures !ButtonStep(c, s, Keymap.Hold).entry.hold && !ButtonStep(c, s, Keymap.Hold).locked
    ensures ButtonStep(c, s, Keymap.Hold).grid[0][7] == PageSelect.AlphaGreen
    ensures ButtonStep(c, s, Keymap.Hold).grid == Grid.Write(s.grid, 0, 2, PageSelect.HoldToggled(c, s.entry).indicator)
  {
    var e := PageSelect.HoldToggled(c, s.entry);
    var shown := Grid.Write(s.grid, 0, 2, e.indicator);
    assert shown[0][7] == Grid.Slice(shown, 0, 2, 6)[5];
    assert Grid.Slice(shown, 0, 7, 1) == [PageSelect.AlphaGreen];
    Grid.WriteNoChange(shown, 0, 7, [PageSelect.AlphaGreen]);
  }

  /** Pressing Hold with the manual hold off shows HOLD in red, stops packets, and keeps `locked`. */
  lemma HoldPress(c: Coding, s: DecoderState)
    requires Good(s) && !s.entry.manualHold
    ensures ButtonStep(c, s, Keymap.Hold).entry.hold
    ensures ButtonStep(c, s, Keymap.Hold).locked == s.locked
    ensures Grid.Slice(ButtonStep(c, s, Keymap.Hold).grid, 0, 2, 6) == [0x01, 0x48, 0x4F, 0x4C, 0x44, 0x07]
  {
  }

  /**
   * `Decoder`: the two header flags, the page number entry and the character
   * generator, updated in place.
   */
  class Decoder {
    var headerMatched: bool
    var headerLocked: bool
    const pageInput: PageSelect.PageInput
    const chargen: Chargen.CharGen
    const coding: Coding

    ghost predicate Valid()
      reads pageInput
    {
      pageInput.Valid() && chargen.Valid() && pageInput.coding == coding
    }

    /** The decoder as a value. */
    ghost function State(): (s: DecoderState)
      reads this, pageInput, pageInput.input, chargen, chargen.grid
      requires Valid()
      ensures Good(s)
    {
      DecoderState(pageInput.State(), headerMatched, headerLocked, chargen.Contents(), chargen.mix, chargen.revealed)
    }

    constructor Init(pageInput: PageSelect.PageInput, chargen: Chargen.CharGen, coding: Coding)
      ensures this.pageInput == pageInput && this.chargen == chargen && this.coding == coding
      ensures !headerMatched && !headerLocked
    {
      this.pageInput, this.chargen, this.coding := pageInput, chargen, coding;
      headerMatched, headerLocked := false, false;
    }

    /**
     * `Decoder::new`: fails as `CharGen::new` does; otherwise the default entry
     * is shown, row 0 is drawn for it, and the margins are set and the page drawn.
     */
    static method New(term: Chargen.Terminal, ttx: Render.Teletext, coding: Coding) returns (r: Option<Decoder>)
      modifies term
      ensures r.None? <==> term.cols < 41 || term.rows < 25
      ensures r.None? ==> term.raw == old(term.raw) && term.log == old(term.log) && term.drawn == old(term.drawn)
      ensures r.Some? ==> r.value.Valid() && r.value.State() == Initial()
      ensures r.Some? ==> r.value.chargen.term == term && r.value.chargen.ttx == ttx && r.value.coding == coding
      ensures r.Some? ==> r.value.chargen.left == Render.LeftMargin(term.cols) && r.value.chargen.top == Render.TopMargin(term.rows)
      ensures r.Some? ==> term.raw
      ensures r.Some? ==>
        term.log == old(term.log) + Chargen.SetupCmds + Render.RowCmds(ttx, Initial().grid[0], false, false, 0, 0, 0) + r.value.chargen.RedrawOutput()
      ensures r.Some? ==> fresh(r.value) && fresh(r.value.pageInput) && fresh(r.value.pageInput.input)
      ensures r.Some? ==> fresh(r.value.chargen) && fresh(r.value.chargen.grid)
      ensures r.Some? ==> term.drawn == old(term.drawn) + [0] + Chargen.Upto(25)
    {
      var pageInput := new PageSelect.PageInput.Default(coding);
      var created := Chargen.CharGen.New(term, ttx);
      if created.None? {
        return None;
      }
      var chargen := created.value;
      var decoder := new Decoder.Init(pageInput, chargen, coding);
      InitialShowsPage100();
      chargen.InsertData(0, 2, pageInput.input[..]);
      chargen.AutoMargins();
      return Some(decoder);
    }

    /** `process_packet`, for a packet of 42 bytes. */
    method ProcessPacket(packet: seq<byte>)
      requires Valid() && |packet| == 42
      modifies this, chargen.grid, chargen.term
      ensures Valid() && State() == PacketStep(coding, old(State()), packet)
      ensures chargen.term.drawn == old(chargen.term.drawn) + PacketRedraws(coding, old(State()), packet)
      ensures chargen.term.raw == old(chargen.term.raw)
      ensures !Accepted(coding, old(State()), packet) || Address(coding, packet).1 > 24 ==>
        chargen.term.log == old(chargen.term.log)
    {
      var (mag, row) := coding.mrag(packet[..2]);
      var page := coding.hamming16(packet[2..4]);
      var control := coding.controlBits(packet[4..12]);
      if !pageInput.hold && mag == pageInput.mag {
        if row == 0 {
          ProcessHeader(packet, page, control);
        } else if row <= 24 {
          if headerMatched {
            WriteBodyRow(row as int, packet[2..]);
          }
        }
      }
    }

    /** A body row of a matched page: its 40 bytes written from column 0. */
    method WriteBodyRow(row: nat, data: seq<byte>)
      requires Valid() && 1 <= row <= 24 && |data| == Grid.Cols
      modifies chargen.grid, chargen.term
      ensures Valid() && State() == old(State()).(grid := Grid.Write(old(State()).grid, row, 0, data))
      ensures chargen.term.drawn == old(chargen.term.drawn) + Grid.Redrawn(old(State()).grid, row, 0, data)
      ensures chargen.term.raw == old(chargen.term.raw)
    {
      chargen.InsertData(row, 0, data);
    }

    /** The header arm of `process_packet`, given the header's page number and control bits. */
    method ProcessHeader(packet: seq<byte>, page: byte, control: nat)
      requires Valid() && |packet| == 42
      requires page == HeaderPage(coding, packet) && control == coding.controlBits(packet[4..12])
      modifies this, chargen.grid, chargen.term
      ensures Valid() && State() == Header(coding, old(State()), packet)
      ensures chargen.term.drawn == old(chargen.term.drawn) + HeaderRedraws(coding, old(State()), packet)
      ensures chargen.term.raw == old(chargen.term.raw)
    {
      ghost var drawn := chargen.term.drawn;
      headerMatched := page == pageInput.page;
      WriteHeaderText(packet);
      ghost var text := chargen.Contents();
      ghost var textRedraws := chargen.term.drawn[|drawn|..];
      if headerMatched {
        MarkMatched(control % 2 == 1);
        Chargen.Concat3(drawn, textRedraws, Grid.Redrawn(text, 0, 7, [PageSelect.AlphaWhite]));
      } else {
        assert textRedraws + [] == textRedraws;
      }
    }

    /** The header text: 9 bytes at column 31 once locked, 32 bytes at column 8 before. */
    method WriteHeaderText(packet: seq<byte>)
      requires Valid() && |packet| == 42
      modifies chargen.grid, chargen.term
      ensures Valid() && State() == old(State()).(grid := HeaderText(old(State()), packet))
      ensures chargen.term.drawn == old(chargen.term.drawn) + HeaderTextRedraws(old(State()), packet)
      ensures chargen.term.raw == old(chargen.term.raw)
    {
      if headerLocked {
        chargen.InsertData(0, 31, packet[33..]);
      } else {
        chargen.InsertData(0, 8, packet[10..]);
      }
    }

    /** A matching header: the white attribute at column 7, the lock, and the erase when `erase` is set. */
    method MarkMatched(erase: bool)
      requires Valid()
      modifies this, chargen.grid, chargen.term
      ensures Valid()
      ensures State() == old(State()).(locked := true, grid := Marked(old(State()).grid, erase))
      ensures chargen.term.drawn == old(chargen.term.drawn) + Grid.Redrawn(old(State()).grid, 0, 7, [PageSelect.AlphaWhite])
      ensures chargen.term.raw == old(chargen.term.raw)
    {
      headerLocked := true;
      chargen.InsertData(0, 7, [PageSelect.AlphaWhite]);
      if erase {
        chargen.ClearPage();
      }
    }

    /** `process_button`. */
    method ProcessButton(b: Keymap.Button)
      requires Valid()
      modifies this, pageInput, pageInput.input, chargen, chargen.grid, chargen.term
      ensures Valid() && State() == ButtonStep(coding, old(State()), b)
      ensures chargen.term.drawn == old(chargen.term.drawn) + ButtonRedraws(coding, old(State()), b)
      ensures chargen.term.raw == old(chargen.term.raw)
      ensures chargen.top == old(chargen.top) && chargen.left == old(chargen.left)
      ensures b.Fastext? || b.PageNext? || b.PagePrev? || b.TimedPage? ==> chargen.term.log == old(chargen.term.log)
    {
      match b
      case Digit(x) =>
        PressDigit(x);
      case Hold =>
        PressHold();
      case Reveal =>
        ModeButtons(coding, State());
        chargen.Reveal();
      case Mix =>
        ModeButtons(coding, State());
        chargen.Mix();
      case Fastext(_) =>
        ButtonNoOps(coding, State(), b);
      case PageNext =>
        ButtonNoOps(coding, State(), b);
      case PagePrev =>
        ButtonNoOps(coding, State(), b);
      case TimedPage =>
        ButtonNoOps(coding, State(), b);
    }

    /** The digit arm of `process_button`. */
    method PressDigit(x: byte)
      requires Valid()
      modifies this, pageInput, pageInput.input, chargen.grid, chargen.term
      ensures Valid() && State() == ButtonStep(coding, old(State()), Keymap.Digit(x))
      ensures chargen.term.drawn == old(chargen.term.drawn) + ButtonRedraws(coding, old(State()), Keymap.Digit(x))
      ensures chargen.term.raw == old(chargen.term.raw)
    {
      pageInput.Input(x);
      headerLocked := false;
      ShowEntry();
    }

    /** The entry's indicator, written at (0, 2). */
    method ShowEntry()
      requires Valid()
      modifies chargen.grid, chargen.term
      ensures Valid()
      ensures State() == old(State()).(grid := Grid.Write(old(State()).grid, 0, 2, old(State()).entry.indicator))
      ensures chargen.term.drawn == old(chargen.term.drawn) + Grid.Redrawn(old(State()).grid, 0, 2, old(State()).entry.indicator)
      ensures chargen.term.raw == old(chargen.term.raw)
    {
      chargen.InsertData(0, 2, pageInput.input[..]);
    }

    /** Leaving the hold: the header unlocks and (0, 7) is set to green. */
    method ReleaseHold()
      requires Valid()
      modifies this, chargen.grid, chargen.term
      ensures Valid()
      ensures State() == old(State()).(locked := false, grid := Grid.Write(old(State()).grid, 0, 7, [PageSelect.AlphaGreen]))
      ensures chargen.term.drawn == old(chargen.term.drawn) + Grid.Redrawn(old(State()).grid, 0, 7, [PageSelect.AlphaGreen])
      ensures chargen.term.raw == old(chargen.term.raw)
    {
      headerLocked := false;
      chargen.InsertData(0, 7, [PageSelect.AlphaGreen]);
    }

    /** The hold arm of `process_button`. */
    method PressHold()
      requires Valid()
      modifies this, pageInput, pageInput.input, chargen.grid, chargen.term
      ensures Valid() && State() == HoldStep(coding, old(State()))
      ensures chargen.term.drawn == old(chargen.term.drawn) + HoldRedraws(coding, old(State()))
      ensures chargen.term.raw == old(chargen.term.raw)
    {
      ghost var s0 := State();
      ghost var e := PageSelect.HoldToggled(coding, s0.entry);
      ghost var drawn := chargen.term.drawn;
      pageInput.ToggleHold();
      assert State() == s0.(entry := e);
      ShowEntry();
      ghost var s1 := State();
      assert s1 == s0.(entry := e, grid := Grid.Write(s0.grid, 0, 2, e.indicator));
      ghost var shownRedraws := chargen.term.drawn[|drawn|..];
      if !pageInput.hold {
        ReleaseHold();
        Chargen.Concat3(drawn, shownRedraws, Grid.Redrawn(s1.grid, 0, 7, [PageSelect.AlphaGreen]));
      } else {
        assert shownRedraws + [] == shownRedraws;
      }
    }
  }
}
