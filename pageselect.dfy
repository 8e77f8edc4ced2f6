/**
 * The page number entry of src/decoder.rs (`PageInput`): three digits typed
 * on the keypad select a magazine and a page, while a six-byte indicator at
 * the top left of the screen shows what has been typed so far, the page in
 * force, or HOLD.
 *
 * The functions below say what each operation does to the whole entry state;
 * the class `PageInput` does it in place and is proved against them.
 */
module PageSelect {
  import opened Base
  import opened Coding

  /** The indicator bytes: teletext spacing attributes and ASCII letters. */
  const AlphaRed: byte := 0x01
  const AlphaGreen: byte := 0x02
  const AlphaWhite: byte := 0x07
  const Space: byte := 0x20
  const LetterP: byte := 0x50
  const Dot: byte := 0x2E

  /** The indicator while manual hold is on: HOLD in red, then back to white. */
  const HoldShown: seq<byte> := [AlphaRed, 0x48, 0x4F, 0x4C, 0x44, AlphaWhite]

  /** The whole state of a `PageInput`, as a value. */
  datatype Entry = Entry(
    mag: byte,             // magazine of the page in force
    page: byte,            // page number of the page in force, two nibbles
    hold: bool,            // packets are not accepted
    manualHold: bool,      // the Hold button is on
    indicator: seq<byte>,  // the six bytes shown at row 0, columns 2..7
    pos: nat)              // where the next digit goes: 2 magazine, 3 tens, 4 units

  /** What every reachable entry state satisfies. */
  predicate WellFormed(e: Entry)
  {
    |e.indicator| == 6 && 2 <= e.pos <= 4
  }

  /** `PageInput::default`: page 100 in force, nothing typed, no hold. */
  function DefaultEntry(): (e: Entry)
    ensures WellFormed(e)
  {
    Entry(1, 0, false, false, [Space, LetterP, 0x31, 0x30, 0x30, AlphaGreen], 2)
  }

  /**
   * `cancel`: abandon what has been typed and show the page in force. Only the
   * indicator and the position change; neither hold flag is touched.
   */
  function Cancelled(c: Coding, e: Entry): (r: Entry)
    ensures WellFormed(r) && r.pos == 2
    ensures r.mag == e.mag && r.page == e.page && r.hold == e.hold && r.manualHold == e.manualHold
    ensures r.indicator[0] == Space && r.indicator[1] == LetterP && r.indicator[5] == AlphaGreen
  {
    e.(indicator := [Space, LetterP, c.toAscii(e.mag), c.toAscii(e.page >> 4), c.toAscii(e.page & 0xf), AlphaGreen],
       pos := 2)
  }

  /**
   * `input`: one digit typed. Manual hold is first cancelled (which resets the
   * position but leaves the hold on). At position 2 only 1..8 is taken, as the
   * magazine; at positions 3 and 4 any nibble is taken, and the third digit
   * commits the new magazine and page. Any other digit is ignored.
   */
  function Typed(c: Coding, e: Entry, b: byte): (r: Entry)
    requires WellFormed(e)
    ensures WellFormed(r)
    ensures r.manualHold == e.manualHold
  {
    Taken(c, if e.manualHold then Cancelled(c, e) else e, b)
  }

  /** The `match` of `input` on the digit and the position, after the forced `cancel`. */
  function Taken(c: Coding, e: Entry, b: byte): (r: Entry)
    requires WellFormed(e)
    ensures WellFormed(r)
    ensures r.manualHold == e.manualHold
  {
    if 1 <= b <= 8 && e.pos == 2 then
      e.(indicator := [AlphaGreen, LetterP, c.toAscii(b), Dot, Dot, AlphaWhite], pos := 3, hold := true)
    else if b <= 0xf && (e.pos == 3 || e.pos == 4) then
      var shown := e.indicator[e.pos := c.toAscii(b)];
      if e.pos + 1 == 5 then
        e.(indicator := shown[0 := Space][5 := AlphaGreen], pos := 2,
           mag := c.fromAscii(shown[2]) & 0x7,
           page := (c.fromAscii(shown[3]) << 4) | c.fromAscii(shown[4]),
           hold := false)
      else
        e.(indicator := shown, pos := e.pos + 1)
    else
      e
  }

  /** `toggle_hold`: flip the manual hold, make the hold follow it, and show HOLD or the page in force. */
  function HoldToggled(c: Coding, e: Entry): (r: Entry)
    requires WellFormed(e)
    ensures WellFormed(r)
    ensures r.manualHold == !e.manualHold && r.hold == r.manualHold
    ensures r.mag == e.mag && r.page == e.page
    ensures !e.manualHold ==> r.indicator == HoldShown && r.pos == e.pos
    ensures e.manualHold ==> r.indicator == Cancelled(c, e).indicator && r.pos == 2
  {
    var on := !e.manualHold;
    var e1 := e.(manualHold := on, hold := on);
    if !on then Cancelled(c, e1)
    else e1.(indicator := HoldShown)
  }

  /** The digits `ds` typed one after the other. */
  function TypedAll(c: Coding, e: Entry, ds: seq<byte>): (r: Entry)
    requires WellFormed(e)
    ensures WellFormed(r)
    decreases |ds|
  {
    if ds == [] then e else TypedAll(c, Typed(c, e, ds[0]), ds[1..])
  }

  /** The default indicator is exactly what `cancel` shows for magazine 1, page 00. */
  lemma DefaultIsCancelled(c: Coding)
    requires ValidCoding(c)
    ensures Cancelled(c, DefaultEntry()) == DefaultEntry()
  {
    var e := DefaultEntry();
    assert c.toAscii(1) == 0x31 && c.toAscii(0) == 0x30;
    assert e.page >> 4 == 0 && e.page & 0xf == 0;
  }

  /**
   * A digit that is not taken changes nothing but the forced `cancel`: 0 or
   * more than 8 for the magazine, more than 0xF for the page digits.
   */
  lemma RejectedDigit(c: Coding, e: Entry, b: byte)
    requires WellFormed(e)
    ensures (e.pos == 2 || e.manualHold) && (b == 0 || b > 8) ==>
      Typed(c, e, b) == if e.manualHold then Cancelled(c, e) else e
    ensures !e.manualHold && e.pos != 2 && b > 0xf ==> Typed(c, e, b) == e
  {
  }

  /**
   * A magazine digit 1..8, typed with nothing pending or while manual hold is
   * on, shows "P<d>.." in green and moves to the tens; the hold goes on and the
   * page in force stays.
   */
  lemma MagazineDigit(c: Coding, e: Entry, b: byte)
    requires WellFormed(e) && (e.pos == 2 || e.manualHold) && 1 <= b <= 8
    ensures Typed(c, e, b).indicator == [AlphaGreen, LetterP, c.toAscii(b), Dot, Dot, AlphaWhite]
    ensures Typed(c, e, b).pos == 3 && Typed(c, e, b).hold
    ensures Typed(c, e, b).manualHold == e.manualHold
    ensures Typed(c, e, b).mag == e.mag && Typed(c, e, b).page == e.page
  {
  }

  /**
   * From an entry with nothing pending, a magazine digit and two nibbles
   * commit: magazine `d1 & 7` (8 becomes 0), page `hi:lo`, the hold released,
   * and the typed digits left on show.
   */
  lemma CommitOnThirdDigit(c: Coding, e: Entry, d1: byte, hi: byte, lo: byte)
    requires ValidCoding(c) && WellFormed(e) && e.pos == 2 && !e.manualHold
    requires 1 <= d1 <= 8 && hi <= 0xf && lo <= 0xf
    ensures TypedAll(c, e, [d1, hi, lo]).mag == d1 & 0x7
    ensures TypedAll(c, e, [d1, hi, lo]).page == (hi << 4) | lo
    ensures !TypedAll(c, e, [d1, hi, lo]).hold && TypedAll(c, e, [d1, hi, lo]).pos == 2
    ensures TypedAll(c, e, [d1, hi, lo]).indicator == [Space, LetterP, c.toAscii(d1), c.toAscii(hi), c.toAscii(lo), AlphaGreen]
  {
    var e1 := Typed(c, e, d1);
    var e2 := Typed(c, e1, hi);
    var e3 := Typed(c, e2, lo);
    assert TypedAll(c, e, [d1, hi, lo]) == TypedAll(c, e1, [hi, lo]);
    assert TypedAll(c, e1, [hi, lo]) == TypedAll(c, e2, [lo]);
    assert TypedAll(c, e2, [lo]) == e3;
    assert e3.indicator[2] == c.toAscii(d1) && e3.indicator[3] == c.toAscii(hi) && e3.indicator[4] == c.toAscii(lo);
    assert c.fromAscii(c.toAscii(d1)) == d1;
    assert c.fromAscii(c.toAscii(hi)) == hi;
    assert c.fromAscii(c.toAscii(lo)) == lo;
  }

  /** The magazine and page change only when a nibble is typed at the units position with no manual hold. */
  lemma PageChangesOnlyOnCommit(c: Coding, e: Entry, b: byte)
    requires WellFormed(e)
    ensures !(e.pos == 4 && !e.manualHold && b <= 0xf) ==>
      Typed(c, e, b).mag == e.mag && Typed(c, e, b).page == e.page
  {
  }

  /** `cancel` shows the magazine and the two nibbles of the page: reading the glyphs back gives them again. */
  lemma CancelShowsPage(c: Coding, e: Entry)
    requires ValidCoding(c) && e.mag <= 0xf
    ensures c.fromAscii(Cancelled(c, e).indicator[2]) == e.mag
    ensures (c.fromAscii(Cancelled(c, e).indicator[3]) << 4) | c.fromAscii(Cancelled(c, e).indicator[4]) == e.page
  {
    var hi, lo := e.page >> 4, e.page & 0xf;
    Nibbles(e.page);
    assert c.fromAscii(c.toAscii(e.mag)) == e.mag;
    assert c.fromAscii(c.toAscii(hi)) == hi;
    assert c.fromAscii(c.toAscii(lo)) == lo;
  }

  /** A byte is its high nibble shifted back up, joined with its low nibble. */
  lemma Nibbles(p: byte)
    ensures p >> 4 <= 0xf && p & 0xf <= 0xf
    ensures ((p >> 4) << 4) | (p & 0xf) == p
  {
  }

  /**
   * While manual hold is on, no digits whatever change the magazine or the
   * page: `cancel` runs before every digit and sends the entry back to the
   * magazine position, so the third digit is never reached.
   */
  lemma {:induction false} ManualHoldFreezesPage(c: Coding, e: Entry, ds: seq<byte>)
    requires WellFormed(e) && e.manualHold
    ensures TypedAll(c, e, ds).mag == e.mag && TypedAll(c, e, ds).page == e.page
    ensures TypedAll(c, e, ds).manualHold
    decreases |ds|
  {
    if ds != [] {
      var e1 := Typed(c, e, ds[0]);
      assert e1.mag == e.mag && e1.page == e.page && e1.manualHold;
      ManualHoldFreezesPage(c, e1, ds[1..]);
    }
  }

  /**
   * The hold flag is on exactly while the manual hold is on or an entry is
   * pending; every operation keeps this.
   */
  predicate Synced(e: Entry)
  {
    e.hold == (e.manualHold || e.pos != 2)
  }

  lemma SyncedPreserved(c: Coding, e: Entry, b: byte)
    requires WellFormed(e) && Synced(e)
    ensures Synced(Typed(c, e, b))
    ensures Synced(HoldToggled(c, e))
  {
  }

  /**
   * Two presses of Hold give back the manual hold and leave the hold equal to
   * it; an entry pending before is abandoned, the cursor back at position 2.
   */
  lemma ToggleHoldTwice(c: Coding, e: Entry)
    requires WellFormed(e)
    ensures HoldToggled(c, HoldToggled(c, e)).manualHold == e.manualHold
    ensures HoldToggled(c, HoldToggled(c, e)).hold == e.manualHold
    ensures !e.manualHold ==> HoldToggled(c, HoldToggled(c, e)).pos == 2
  {
  }

  /** Different pages in force are told apart by what `cancel` shows. */
  lemma {:induction false} CancelDistinguishesPages(c: Coding, e1: Entry, e2: Entry)
    requires ValidCoding(c) && e1.mag < 16 && e2.mag < 16
    requires e1.mag != e2.mag || e1.page != e2.page
    ensures Cancelled(c, e1).indicator != Cancelled(c, e2).indicator
  {
    var i1, i2 := Cancelled(c, e1).indicator, Cancelled(c, e2).indicator;
    if e1.mag != e2.mag {
      GlyphsDistinct(c, e1.mag, e2.mag);
      assert i1[2] != i2[2];
    } else if e1.page >> 4 != e2.page >> 4 {
      GlyphsDistinct(c, e1.page >> 4, e2.page >> 4);
      assert i1[3] != i2[3];
    } else {
      assert e1.page & 0xf != e2.page & 0xf;
      GlyphsDistinct(c, e1.page & 0xf, e2.page & 0xf);
      assert i1[4] != i2[4];
    }
  }

  /** With nothing pending and the page in force on show, two presses of Hold restore the entry exactly. */
  lemma ToggleTwiceRestoresIdle(c: Coding, e: Entry)
    requires WellFormed(e) && !e.manualHold && !e.hold && e.pos == 2
    requires e.indicator == Cancelled(c, e).indicator
    ensures HoldToggled(c, HoldToggled(c, e)) == e
  {
  }

  /** Typing 3, 2, A from the start selects magazine 3, page 0x2A. */
  lemma EnterPage32A(c: Coding)
    requires ValidCoding(c)
    ensures TypedAll(c, DefaultEntry(), [3, 2, 0xA]).mag == 3
    ensures TypedAll(c, DefaultEntry(), [3, 2, 0xA]).page == 0x2A
  {
    CommitOnThirdDigit(c, DefaultEntry(), 3, 2, 0xA);
  }

  /**
   * Magazine 8 is carried as 0 on the air, so selecting it stores 0: the
   * indicator shows "8" right after the commit, but `cancel` later shows "0".
   */
  lemma Magazine8ShownAsZero(c: Coding, e: Entry, hi: byte, lo: byte)
    requires ValidCoding(c) && WellFormed(e) && e.pos == 2 && !e.manualHold && hi <= 0xf && lo <= 0xf
    ensures TypedAll(c, e, [8, hi, lo]).mag == 0
    ensures TypedAll(c, e, [8, hi, lo]).indicator[2] == 0x38
    ensures Cancelled(c, TypedAll(c, e, [8, hi, lo])).indicator[2] == 0x30
  {
    CommitOnThirdDigit(c, e, 8, hi, lo);
  }

  /**
   * `PageInput`: the entry state updated in place, with the indicator as a
   * six-byte buffer.
   */
  class PageInput {
    var mag: byte
    var page: byte
    var hold: bool
    var manualHold: bool
    const input: array<byte>
    var inputPos: nat
    const coding: Coding

    ghost predicate Valid()
      reads this
    {
      input.Length == 6 && 2 <= inputPos <= 4
    }

    /** The state as a value. */
    ghost function State(): (e: Entry)
      reads this, input
      requires Valid()
      ensures WellFormed(e)
    {
      Entry(mag, page, hold, manualHold, input[..], inputPos)
    }

    /** `PageInput::default`. */
    constructor Default(coding: Coding)
      ensures Valid() && fresh(input) && this.coding == coding
      ensures State() == DefaultEntry()
    {
      this.coding := coding;
      mag, page, hold, manualHold := 1, 0, false, false;
      input := new byte[6] [Space, LetterP, 0x31, 0x30, 0x30, AlphaGreen];
      inputPos := 2;
    }

    /** The six assignments to `input[0]` .. `input[5]` that replace the whole indicator. */
    method Show(b0: byte, b1: byte, b2: byte, b3: byte, b4: byte, b5: byte)
      requires input.Length == 6
      modifies input
      ensures input[..] == [b0, b1, b2, b3, b4, b5]
    {
      input[0] := b0;
      input[1] := b1;
      input[2] := b2;
      input[3] := b3;
      input[4] := b4;
      input[5] := b5;
    }

    /** `cancel`. */
    method Cancel()
      requires Valid()
      modifies this, input
      ensures Valid() && State() == Cancelled(coding, old(State()))
    {
      Show(Space, LetterP, coding.toAscii(mag), coding.toAscii(page >> 4), coding.toAscii(page & 0xf), AlphaGreen);
      inputPos := 2;
    }

    /** `input`. */
    method Input(b: byte)
      requires Valid()
      modifies this, input
      ensures Valid() && State() == Typed(coding, old(State()), b)
    {
      if manualHold {
        Cancel();
      }
      var glyph := coding.toAscii(b);
      if 1 <= b <= 8 && inputPos == 2 {
        Show(AlphaGreen, LetterP, glyph, Dot, Dot, AlphaWhite);
        inputPos := inputPos + 1;
        hold := true;
      } else if b <= 0xf && (inputPos == 3 || inputPos == 4) {
        Put(inputPos, glyph);
        inputPos := inputPos + 1;
        if inputPos == 5 {
          Put(0, Space);
          Put(5, AlphaGreen);
          inputPos := 2;
          mag := coding.fromAscii(input[2]) & 0x7;
          page := (coding.fromAscii(input[3]) << 4) | coding.fromAscii(input[4]);
          hold := false;
        }
      }
    }

    /** One assignment `input[i] = x`. */
    method Put(i: nat, x: byte)
      requires input.Length == 6 && i < 6
      modifies input
      ensures input[..] == old(input[..])[i := x]
    {
      input[i] := x;
    }

    /** `toggle_hold`. */
    method ToggleHold()
      requires Valid()
      modifies this, input
      ensures Valid() && State() == HoldToggled(coding, old(State()))
    {
      manualHold := !manualHold;
      hold := manualHold;
      if !hold {
        Cancel();
      } else {
        Show(AlphaRed, 0x48, 0x4F, 0x4C, 0x44, AlphaWhite);
      }
    }
  }
}
