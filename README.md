# ttxi core: page selection, packet acceptance and the character grid

This project models the core of ttxi, a terminal teletext viewer, and proves
properties of the model. Three parts of the program are modelled.

- `PageInput` and `Decoder` (src/decoder.rs).
  - `PageInput` is the keypad page-number entry. It has a six-byte on-screen
    indicator, a cursor, the magazine and page in force, and two hold flags.
  - `Decoder` takes 42-byte teletext packets and keypad buttons. It keeps the
    `header_matched` and `header_locked` flags and writes into the grid.
- `CharGen` (src/chargen.rs). It owns the 40 x 26 grid of raw teletext bytes
  and draws it on a terminal. `insert_data` drops writes that change nothing.
  `clear_page` and `clear_all` blank rows. `auto_margins` centres the page.
  `reveal` and `mix` toggle a mode and redraw. `render_row` emits a terminal
  attribute only where it differs from the one in force.
- `Button::from_event` (src/keymap.rs): the total key-to-button table.

Each file follows the form of its source.

- Keymap is pure: `Keymap.FromEvent` with lemmas about the table.
- Page entry and the decoder are classes updated in place. `PageSelect.PageInput`
  keeps the indicator in an `array<byte>`. `PacketDecoder.Decoder` holds a
  `PageInput` and a `CharGen`.
- Every method is proved against a pure function of the old state.
  - `State() == Typed(coding, old(State()), b)`.
  - `State() == PacketStep(coding, old(State()), packet)`.
  - `Contents() == Grid.Write(old(Contents()), row, col, data)`.
- The properties are proved as lemmas about those functions.
- `Chargen.CharGen` keeps the grid in an `array2<byte>`. Its view as a value is
  `Contents()`, specified by module `Grid`.
- The terminal is a `Terminal` object. It has:
  - the size `size()` reports;
  - the raw-mode flag;
  - `log`, the crossterm commands written, in order;
  - a ghost `drawn`, the grid rows rendered so far.

  Every method states the grid rows it renders, as `drawn`. The methods of
  `Chargen.CharGen` also state the exact commands they append to `log`. The
  methods of `PacketDecoder.Decoder` reach the terminal only through them.

The helpers of src/coding.rs are kept uninterpreted. They are `mrag`,
`hamming16_decode`, `control_bits`, `u8_to_ascii` and `ascii_to_u8`.
`Coding.Coding` is a record of function values holding them. The decoder
receives that record. The model assumes only two things about it, stated as
`Coding.ValidCoding`:

- the glyph conversions are mutually inverse on the nibbles 0..15;
- the digits 0..9 have their ASCII glyphs.

A packet address carries a magazine in 3 bits and a row in 5 bits
(`Coding.Mag`, `Coding.Row`).

The teletext crate is also kept abstract, as `Render.Teletext`. Its decoding
state is reset for every row and fed the row's bytes left to right, so the
model takes it to be determined by the bytes already consumed.

Bytes are `bv8`, so `>>`, `<<`, `&` and `|` truncate as Rust's `u8` does.

Behaviour of the code that the model keeps and the lemmas make explicit:

- **Body rows are gated on `header_matched`, not `header_locked`** (src/decoder.rs:142).
  - One might expect body rows to wait for `header_locked`, which only a
    header of the selected page sets. The code tests `header_matched`, and the
    model follows the code.
  - Selecting a new page clears `header_locked` but not `header_matched`. Body
    rows of the new magazine are therefore written before any header of the
    new page has been seen (`PacketDecoder.StaleMatchWritesBody`).
- **`cancel` never clears `manual_hold` or `hold`.**
  - A digit typed during manual hold does not leave the hold
    (src/decoder.rs:37-40). It first cancels, which sends the cursor back to
    the magazine position, and the digit is then read there
    (src/decoder.rs:41-51).
  - The digits 0 and 9..15 stop at the cancel. The digits 1..8 start a new
    entry shown as `P<d>..` in place of HOLD, with the cursor at 3 and both
    hold flags still on (`PageSelect.MagazineDigit`). The next digit cancels
    that entry again.
  - So while manual hold is on, no sequence of digits changes the magazine or
    the page (`PageSelect.ManualHoldFreezesPage`). The model follows the code.
- **The cursor is only ever 2, 3 or 4.** This is `PageSelect.WellFormed`,
  kept by every operation. The units digit moves it to 5
  (src/decoder.rs:54-58), but it is reset to 2 within the same call.
- **Magazine 8 is stored as 0**, as it is carried on the air.
  - The indicator shows `8` right after the commit.
  - A later `cancel` shows `0` (`PageSelect.Magazine8ShownAsZero`).
- **Releasing the hold writes the green attribute at (0, 7) twice.** The
  second write never changes a cell and so never renders
  (`PacketDecoder.HoldRelease`).

## Model

| member | source | states |
|---|---|---|
| Keymap.HexValue | src/keymap.rs:24-28 | `to_digit(16)` of a lower-case hex digit is below 16 |
| Keymap.ValueOfKey | src/keymap.rs:24-28 | the key `HexKey(d)` for a nibble d is a hex digit whose `to_digit(16)` is d |
| Keymap.KeyOfValue | src/keymap.rs:24-28 | every hex digit is the key `HexKey` gives for its own `to_digit(16)` |
| Keymap.FromEvent | src/keymap.rs:21-43 | a button needs no modifier or exactly Shift; digits are below 16 and unmodified; fastext numbers are below 7 and need Shift |
| Keymap.DigitKeys | src/keymap.rs:27-28 | `Digit(d)` comes exactly from the unmodified key typing nibble d ('0'..'9', 'a'..'f') |
| Keymap.FastextKeys | src/keymap.rs:23-26 | `Fastext(n)` comes exactly from Shift with '0'..'6', n < 7 |
| Keymap.NamedKeys | src/keymap.rs:30-37 | 'h' and ' ' give Hold, 'r' Reveal, 't' TimedPage, 'm' Mix; Up/Right/PageUp give PageNext, Down/Left/PageDown PagePrev |
| Keymap.UnmappedKeys | src/keymap.rs:39-41 | any other modifier set, any shifted key but '0'..'6', any other key code, and every unmodified character other than a lower-case hex digit, 'h', ' ', 'r', 't' and 'm' (so 'q' and 'A'..'F' too) give no button |
| Coding.GlyphsDistinct | src/decoder.rs:71-73 | under the inverse assumption, distinct nibbles are shown with distinct glyphs |
| Grid.BlankRow | src/chargen.rs:115 | a blank row is 40 zero bytes |
| Grid.Blank | src/chargen.rs:63 | the initial grid is 26 rows of 40 zero bytes |
| Grid.Slice | src/chargen.rs:252 | the compared slice of a row has the data's length |
| Grid.Write | src/chargen.rs:251-253 | after the copy the slice holds `data`, every other row is unchanged, and every other cell of the row is unchanged |
| Grid.ClearPage | src/chargen.rs:128-130 | rows 1..24 become blank; rows 0 and 25 are kept |
| Grid.Redrawn | src/chargen.rs:251-258 | `insert_data` renders its own row once, exactly when the write changes the grid, and nothing otherwise |
| Grid.WriteNoChange | src/chargen.rs:252-257 | a write leaves the grid unchanged exactly when the slice already holds the data (both directions) |
| Grid.WriteIdempotent | src/chargen.rs:251-258 | repeating a write changes nothing more and renders no row: the same write renders at most once |
| Render.TermColor | src/chargen.rs:161-184 | total; never `Reset`; white exactly for 7 and above; 0 is black and 1 red |
| Render.TermColorInjective | src/chargen.rs:174-183 | the colours of 0..6 differ from each other and from white |
| Render.DefaultBg | src/chargen.rs:103-109 | `Reset` exactly in mix mode, teletext black otherwise |
| Render.LeftMargin | src/chargen.rs:83-87 | 0 below 41 columns; otherwise the 41 drawn columns fit and the spare columns split evenly, the odd one on the right |
| Render.TopMargin | src/chargen.rs:88-92 | 0 below 26 rows; otherwise the 26 rows fit and the top takes the larger half of the spare rows |
| Render.Initial | src/chargen.rs:188-195 | a row starts red on the default background (`Reset` exactly in mix mode), nothing hidden or blinking |
| Render.Derive | src/chargen.rs:201-227 | the attributes a cell asks for: foreground never `Reset`; background `Reset` exactly in mix mode for an unboxed cell; hidden only if concealed and not revealed; flash as the cell's |
| Render.Elements | src/chargen.rs:196-199 | one element per byte, each decoded from a fresh state fed the bytes before it |
| Render.MixOnlyChangesBackground | src/chargen.rs:201-205 | mix mode changes only the background, only of unboxed cells, and to `Reset` |
| Render.RevealUnconceals | src/chargen.rs:217 | effective conceal is the cell's conceal without reveal and false with it; nothing else depends on reveal |
| Render.AttrCmds | src/chargen.rs:206-235 | at most four commands, and all of them colour or attribute settings |
| Render.AttrCmdsOnChange | src/chargen.rs:206-235 | a cell emits a command for an attribute exactly when the derived value differs from the one in force, none when nothing differs |
| Render.Cells | src/chargen.rs:198-240 | the cells' commands, threading the attributes in force: one to five per cell, never a cursor move or a clear |
| Render.RowCmds | src/chargen.rs:186-249 | a row's output starts with the one cursor move to screen line `top + row`, has at least one command per byte, no other move and no clear, and ends with the five-space pad |
| Render.CellsPrintGlyphs | src/chargen.rs:198-240 | the texts a row's cells print are exactly one glyph per cell, in order |
| Render.PrintedCell | src/chargen.rs:237-238 | one cell prints exactly its glyph |
| Render.RowGlyphsIgnoreModes | src/chargen.rs:198-240 | the printed glyphs of a row do not depend on mix or reveal |
| Chargen.CharGen.ClearLines | src/chargen.rs:128-135 | `clear_page` sends 48 commands for the body rows, a move and a line clear per row |
| Chargen.CharGen.Init | src/chargen.rs:62-68 | a blank grid, mix and reveal off, margins 0 |
| Chargen.CharGen.New | src/chargen.rs:56-79 | fails exactly when the terminal is below 41 x 25, then touching nothing; otherwise a blank grid, modes off, margins 0, raw mode on and the setup commands sent |
| Chargen.CharGen.AutoMargins | src/chargen.rs:81-94 | the margins become `LeftMargin(cols)` and `TopMargin(rows)`, modes kept, then a full redraw |
| Chargen.CharGen.SetMargins | src/chargen.rs:97-101 | the margins become exactly the arguments, then a full redraw |
| Chargen.CharGen.ClearAll | src/chargen.rs:112-121 | all 26 rows zero; the background set and the screen cleared; no row rendered |
| Chargen.CharGen.ClearPage | src/chargen.rs:124-137 | the grid becomes `Grid.ClearPage` of the old one; the background set and lines 1..24 cleared; no row rendered |
| Chargen.CharGen.Redraw | src/chargen.rs:139-149 | a clear, then rows 0..24 rendered in order, never row 25 |
| Chargen.CharGen.RenderNext | src/chargen.rs:144-147 | one turn of the redraw loop renders the next row after the rows before it |
| Chargen.CharGen.Reveal | src/chargen.rs:151-154 | flips only reveal mode, leaves the grid and margins, and redraws rows 0..24 |
| Chargen.CharGen.Mix | src/chargen.rs:156-159 | flips only mix mode, leaves the grid and margins, and redraws rows 0..24 |
| Chargen.CharGen.RenderRow | src/chargen.rs:186-249 | writes the row's move, initial colours, left margin, cell commands and trailing pad, and records the row as drawn |
| Chargen.CharGen.InsertData | src/chargen.rs:251-258 | the grid becomes `Grid.Write` of the old one; when the cells already hold the data nothing is written or rendered, otherwise the row is rendered once |
| Chargen.RenderCells | src/chargen.rs:188-240 | the loop's commands are the attribute fold over the row's elements, starting from the row's initial colours |
| Chargen.CellStep | src/chargen.rs:199-239 | one iteration: the attributes in force become the cell's derived ones, and the commands are the changed attributes then the glyph |
| PageSelect.DefaultEntry | src/decoder.rs:22-33 | the default entry is well formed |
| PageSelect.Cancelled | src/decoder.rs:68-76 | cancel resets the cursor to 2 and shows " P" and a green attribute, keeping magazine, page and both hold flags |
| PageSelect.Typed | src/decoder.rs:36-66 | a typed digit keeps the entry well formed and never changes the manual hold |
| PageSelect.Taken | src/decoder.rs:41-65 | the digit-and-position match keeps the entry well formed and the manual hold |
| PageSelect.HoldToggled | src/decoder.rs:78-91 | flips the manual hold, makes the hold follow it, keeps magazine and page; switching on shows red "HOLD" then white and keeps the cursor; switching off shows what `cancel` shows, at position 2 |
| PageSelect.TypedAll | src/decoder.rs:36-66 | digits typed in turn keep the entry well formed |
| PageSelect.DefaultIsCancelled | src/decoder.rs:22-33 | the default indicator is what cancel shows for magazine 1, page 00 |
| PageSelect.RejectedDigit | src/decoder.rs:41-64 | 0 or more than 8 at the magazine position, or above 0xF at a page position, changes nothing but the forced cancel |
| PageSelect.MagazineDigit | src/decoder.rs:36-51 | 1..8 at the magazine position, or any position under manual hold after the forced cancel, shows green "P<d>.." then white, moves to 3, sets hold, keeps manual hold, magazine and page |
| PageSelect.CommitOnThirdDigit | src/decoder.rs:52-62 | magazine digit then two nibbles commit magazine `d1 & 7` and page `hi << 4 \| lo`, clear hold, return to 2, and show the digits typed |
| PageSelect.PageChangesOnlyOnCommit | src/decoder.rs:36-66 | magazine and page change only for a nibble at the units position without manual hold |
| PageSelect.CancelShowsPage | src/decoder.rs:68-76 | reading back the glyphs cancel shows gives the magazine and the page |
| PageSelect.ManualHoldFreezesPage | src/decoder.rs:36-40 | while manual hold is on, no digit sequence changes magazine or page, and the manual hold stays on |
| PageSelect.SyncedPreserved | src/decoder.rs:36-91 | hold equals "manual hold or an entry pending", kept by every digit and by the toggle |
| PageSelect.ToggleHoldTwice | src/decoder.rs:78-91 | two toggles restore the manual hold and leave the hold equal to it; an entry pending before is abandoned, the cursor back at position 2 |
| PageSelect.CancelDistinguishesPages | src/decoder.rs:68-76 | under the inverse assumption, different magazines or pages in force give different indicators after `cancel` |
| PageSelect.ToggleTwiceRestoresIdle | src/decoder.rs:78-91 | with nothing pending and the page on show, two toggles restore the entry exactly |
| PageSelect.EnterPage32A | src/decoder.rs:41-62 | typing 3, 2, A from the start selects magazine 3, page 0x2A |
| PageSelect.Magazine8ShownAsZero | src/decoder.rs:59 | selecting magazine 8 stores 0: shown as '8' after the commit, as '0' after a later cancel |
| PageSelect.PageInput.State | src/decoder.rs:13-20 | the fields as a well-formed entry |
| PageSelect.PageInput.Default | src/decoder.rs:22-33 | the new entry is `DefaultEntry()` |
| PageSelect.PageInput.Show | src/decoder.rs:43-48 | the indicator buffer becomes the six bytes given |
| PageSelect.PageInput.Put | src/decoder.rs:53 | one indicator byte replaced, the others kept |
| PageSelect.PageInput.Cancel | src/decoder.rs:68-76 | the state becomes `Cancelled` of the old one |
| PageSelect.PageInput.Input | src/decoder.rs:36-66 | the state becomes `Typed` of the old one and the digit |
| PageSelect.PageInput.ToggleHold | src/decoder.rs:78-91 | the state becomes `HoldToggled` of the old one |
| PacketDecoder.Accepted | src/decoder.rs:120 | a packet is looked at only without hold and for the magazine in force (its effect is `IgnoredPackets`) |
| PacketDecoder.ErasePage | src/decoder.rs:133-134 | the erase bit is bit 0 of the header's control bits (its effect is in `HeaderCells`) |
| PacketDecoder.PacketStep | src/decoder.rs:118-150 | a packet keeps the entry and both modes, and never changes row 25 |
| PacketDecoder.Header | src/decoder.rs:122-137 | a header keeps the entry and both modes and never changes row 25 |
| PacketDecoder.HeaderText | src/decoder.rs:125-129 | writing the header text never changes row 25 |
| PacketDecoder.Marked | src/decoder.rs:130-137 | marking a match and erasing never changes row 25 |
| PacketDecoder.ButtonStep | src/decoder.rs:152-175 | a button never changes `matched` or rows 1..25 |
| PacketDecoder.HoldStep | src/decoder.rs:162-170 | the hold arm keeps the state well formed |
| PacketDecoder.Packets | src/decoder.rs:118-150 | packets processed in turn keep the state well formed |
| PacketDecoder.Buttons | src/decoder.rs:152-175 | buttons pressed in turn keep the state well formed |
| PacketDecoder.Initial | src/decoder.rs:105-116 | the state after `new` is well formed |
| PacketDecoder.InitialShowsPage100 | src/decoder.rs:105-116 | the new decoder shows " P100" and a green attribute at (0, 2..7), all else zero, and that write does render |
| PacketDecoder.IgnoredPackets | src/decoder.rs:120-147 | under hold, for another magazine, or for rows above 24, a packet changes nothing |
| PacketDecoder.HeaderFlags | src/decoder.rs:122-132 | an accepted header sets `matched` exactly when its page is in force; `locked` becomes on exactly when it was on or the page matches |
| PacketDecoder.HeaderCells | src/decoder.rs:122-137 | header text at column 31 when locked, at 8 otherwise; white at (0, 7) exactly on a match; columns 0..6 kept, and 8..30 too when locked; rows 1..24 blank exactly on a match with the erase bit, kept otherwise |
| PacketDecoder.BodyRowGatedOnMatched | src/decoder.rs:141-145 | an accepted body row is written whole from byte 2 exactly when `matched`; no other row and no flag changes |
| PacketDecoder.BodyRowStep | src/decoder.rs:141-145 | with `matched`, a body row is one write at column 0 |
| PacketDecoder.LockRequiresMatch | src/decoder.rs:130-131 | `locked` goes on only through an accepted header of the page in force |
| PacketDecoder.Row25Untouched | src/decoder.rs:118-150 | no packet sequence changes row 25 |
| PacketDecoder.HoldSuppressesPackets | src/decoder.rs:120 | while hold is on, no packet sequence changes anything |
| PacketDecoder.UnmatchedBodyRowsStay | src/decoder.rs:141-145 | without `matched`, packets other than headers change nothing |
| PacketDecoder.StaleMatchWritesBody | src/decoder.rs:141-145 | after selecting a new page, `matched` survives and a body row of the new magazine is written before any header |
| PacketDecoder.ButtonNoOps | src/decoder.rs:159-173 | Fastext, PageNext, PagePrev and TimedPage change nothing and render nothing |
| PacketDecoder.ModeButtons | src/decoder.rs:171-172 | Reveal and Mix flip only their own mode and render rows 0..24 |
| PacketDecoder.PacketRedraws | src/decoder.rs:118-150 | a packet renders only its own row, at most twice, and never row 25 |
| PacketDecoder.HeaderRedraws | src/decoder.rs:125-132 | a header renders row 0 at most twice: once for the text, once for the white mark; only the text on a mismatch |
| PacketDecoder.HeaderTextRedraws | src/decoder.rs:125-129 | the header text renders row 0 exactly when it changes the grid |
| PacketDecoder.ButtonRedraws | src/decoder.rs:152-175 | the rows a button renders, in order (their bounds are `ButtonRedrawRows`) |
| PacketDecoder.ButtonRedrawRows | src/decoder.rs:152-175 | a button never renders row 25: Digit and Hold render row 0 at most once, Reveal and Mix 25 rows, the others none |
| PacketDecoder.HoldRedraws | src/decoder.rs:162-169 | Hold renders row 0 at most once, exactly when the indicator changes the grid; the green write on release never renders |
| PacketDecoder.DigitButton | src/decoder.rs:154-158 | a digit types into the entry, unlocks, shows the new indicator at (0, 2..7), and changes no other cell |
| PacketDecoder.HoldRelease | src/decoder.rs:162-170 | releasing the hold clears hold and `locked` and leaves green at (0, 7); the second write changes no cell |
| PacketDecoder.HoldPress | src/decoder.rs:162-170 | pressing Hold sets hold, keeps `locked`, and shows red "HOLD" then white |
| PacketDecoder.Decoder.State | src/decoder.rs:96-101 | the decoder's fields and its character generator as a well-formed value |
| PacketDecoder.Decoder.Init | src/decoder.rs:106-111 | both header flags start off |
| PacketDecoder.Decoder.New | src/decoder.rs:105-116 | fails exactly as `CharGen::new` does, then touching nothing; otherwise the state is `Initial()`, raw mode is on, the margins are `LeftMargin(cols)` and `TopMargin(rows)`, and the terminal gets the setup commands, row 0 drawn without margins, and the full redraw |
| PacketDecoder.Decoder.ProcessPacket | src/decoder.rs:118-150 | the state becomes `PacketStep`; the rows rendered are exactly those whose writes change a cell; an ignored packet writes nothing to the terminal |
| PacketDecoder.Decoder.WriteBodyRow | src/decoder.rs:143 | one body row written from column 0 and rendered if changed |
| PacketDecoder.Decoder.ProcessHeader | src/decoder.rs:122-137 | the state becomes `Header`; the rows rendered are exactly those of the text write and the white mark that change a cell |
| PacketDecoder.Decoder.WriteHeaderText | src/decoder.rs:125-129 | the grid becomes `HeaderText` of the old state |
| PacketDecoder.Decoder.MarkMatched | src/decoder.rs:130-137 | sets `locked`, writes white at (0, 7), and erases rows 1..24 when asked |
| PacketDecoder.Decoder.ProcessButton | src/decoder.rs:152-175 | the state becomes `ButtonStep`; the margins are kept; the rows rendered are stated exactly; the no-op buttons write nothing to the terminal |
| PacketDecoder.Decoder.PressDigit | src/decoder.rs:154-158 | the digit arm: the state becomes `ButtonStep` for the digit |
| PacketDecoder.Decoder.ShowEntry | src/decoder.rs:157 | the entry's indicator written at (0, 2) |
| PacketDecoder.Decoder.ReleaseHold | src/decoder.rs:165-168 | unlocks and writes green at (0, 7) |
| PacketDecoder.Decoder.PressHold | src/decoder.rs:162-170 | the state becomes `HoldStep` of the old one |

## Left out

- src/main.rs is not part of this model: the threads, the channel, the sockets and files, and the read loops are concurrency and I/O.
- The `Drop` of `CharGen` (src/chargen.rs:44-53), which restores the terminal, is not modelled. The model has no destructor.
- `io::Result` errors from terminal writes and from `size()` are not modelled. Every write succeeds. The early return of `?` after a failed write is therefore not modelled either.
- `size()` is read from the `Terminal` object's `cols` and `rows`. Nothing in the core changes them, so they are constants there.
- The queuing and flushing of `queue!` and `execute!` are not distinguished: `log` holds the commands in the order issued.
- The teletext crate (`State::next`, `to_char`, the character set) is a parameter (`Render.Teletext`), not modelled.
- The Hamming 8/4 decoding of src/coding.rs is not modelled: the helpers are uninterpreted function values (`Coding.Coding`). src/coding.rs is not part of this model.
- Colours are an enumeration. The RGB triples of `term_color` matter only through their equality.
- `MoveTo(0, top + row)` is computed on unbounded integers. The `u16` overflow for margins near 65535 is not modelled.
- PacketDecoder.Decoder.ProcessPacket: the terminal commands are stated only for ignored packets. For the others, the rows rendered are stated exactly, and the commands per row follow from `Chargen.CharGen.InsertData`.
- PacketDecoder.Decoder.ProcessButton: the commands are stated for the no-op buttons only. For Reveal and Mix, `Chargen.CharGen.Reveal` and `Chargen.CharGen.Mix` state the full redraw, and the rows rendered are stated here.
- PacketDecoder.Decoder.ProcessHeader: states the rows rendered, not the terminal commands.
- PacketDecoder.Decoder.WriteBodyRow: states the rows rendered, not the terminal commands.
- PacketDecoder.Decoder.WriteHeaderText: states the rows rendered, not the terminal commands.
- PacketDecoder.Decoder.MarkMatched: states the rows rendered, not the terminal commands.
- PacketDecoder.Decoder.PressDigit: states the rows rendered, not the terminal commands.
- PacketDecoder.Decoder.ShowEntry: states the rows rendered, not the terminal commands.
- PacketDecoder.Decoder.ReleaseHold: states the rows rendered, not the terminal commands.
- PacketDecoder.Decoder.PressHold: states the rows rendered, not the terminal commands.
- Button values reach `ProcessButton` as `Keymap.Button` values. The quit key handled in src/main.rs is not modelled.
