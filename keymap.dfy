/** The key-to-button table of src/keymap.rs. */
module Keymap {
  import opened Base

  /** The key codes the table distinguishes; every other key is `Other`. */
  datatype KeyCode =
    | Char(c: char)
    | Up | Down | Left | Right | PageUp | PageDown
    | Other(id: nat)

  /** The modifier flags of a key event; a set of them is one `KeyModifiers` value. */
  datatype Modifier = Shift | Control | Alt | Super | Hyper | Meta

  datatype KeyEvent = KeyEvent(code: KeyCode, modifiers: set<Modifier>)

  datatype Button =
    | Digit(d: byte)
    | Fastext(n: byte)
    | PageNext
    | PagePrev
    | Hold
    | Reveal
    | TimedPage
    | Mix

  predicate IsHexDigit(c: char)
  {
    '0' <= c <= '9' || 'a' <= c <= 'f'
  }

  /** `char::to_digit(16)` on a lower-case hex digit. */
  function HexValue(c: char): (v: byte)
    requires IsHexDigit(c)
    ensures v < 16
  {
    if c <= '9' then (c as int - '0' as int) as byte else (c as int - 'a' as int + 10) as byte
  }

  /** The lower-case key that types nibble `d`, written independently of `HexValue`. */
  function HexKey(d: byte): char
    requires d < 16
  {
    if d < 10 then ('0' as int + d as int) as char else ('a' as int + d as int - 10) as char
  }

  /** `Button::from_event`: a total mapping from key events to buttons. */
  function FromEvent(ev: KeyEvent): (r: Option<Button>)
    ensures r.Some? ==> ev.modifiers == {} || ev.modifiers == {Shift}
    ensures r.Some? && r.value.Digit? ==> r.value.d < 16 && ev.modifiers == {}
    ensures r.Some? && r.value.Fastext? ==> r.value.n < 7 && ev.modifiers == {Shift}
  {
    if ev.modifiers == {Shift} then
      match ev.code
      case Char(c) => if '0' <= c <= '6' then Some(Fastext(HexValue(c))) else None
      case _ => None
    else if ev.modifiers == {} then
      match ev.code
      case Char(c) =>
        if IsHexDigit(c) then Some(Digit(HexValue(c)))
        else if c == 'h' || c == ' ' then Some(Hold)
        else if c == 'r' then Some(Reveal)
        else if c == 't' then Some(TimedPage)
        else if c == 'm' then Some(Mix)
        else None
      case Up => Some(PageNext)
      case Right => Some(PageNext)
      case PageUp => Some(PageNext)
      case Down => Some(PagePrev)
      case Left => Some(PagePrev)
      case PageDown => Some(PagePrev)
      case Other(_) => None
    else
      None
  }

  /** The key for a nibble is a hex digit that reads back as that nibble. */
  lemma ValueOfKey(d: byte)
    requires d < 16
    ensures IsHexDigit(HexKey(d)) && HexValue(HexKey(d)) == d
  {
    var k := HexKey(d);
    if d < 10 {
      assert k as int == '0' as int + d as int;
    } else {
      assert k as int == 'a' as int + d as int - 10;
    }
  }

  /** A hex digit is the key for the nibble it reads as. */
  lemma KeyOfValue(c: char)
    requires IsHexDigit(c)
    ensures HexKey(HexValue(c)) == c
  {
    var v := HexValue(c);
    if c <= '9' {
      assert v as int == c as int - '0' as int;
    } else {
      assert v as int == c as int - 'a' as int + 10;
    }
  }

  /** Digit buttons come exactly from the unmodified keys 0-9 and a-f, each with its value. */
  lemma DigitKeys(ev: KeyEvent, d: byte)
    requires d < 16
    ensures FromEvent(ev) == Some(Digit(d)) <==> ev == KeyEvent(Char(HexKey(d)), {})
  {
    ValueOfKey(d);
    if FromEvent(ev) == Some(Digit(d)) {
      KeyOfValue(ev.code.c);
    }
  }

  /** Fastext buttons come exactly from Shift with the keys 0-6. */
  lemma FastextKeys(ev: KeyEvent, n: byte)
    ensures FromEvent(ev) == Some(Fastext(n)) <==> n < 7 && ev == KeyEvent(Char(HexKey(n)), {Shift})
  {
    if n < 7 && ev == KeyEvent(Char(HexKey(n)), {Shift}) {
      assert '0' <= HexKey(n) <= '6';
    }
  }

  /** Letters and navigation keys, without modifiers. */
  lemma NamedKeys()
    ensures FromEvent(KeyEvent(Char('h'), {})) == Some(Hold)
    ensures FromEvent(KeyEvent(Char(' '), {})) == Some(Hold)
    ensures FromEvent(KeyEvent(Char('r'), {})) == Some(Reveal)
    ensures FromEvent(KeyEvent(Char('t'), {})) == Some(TimedPage)
    ensures FromEvent(KeyEvent(Char('m'), {})) == Some(Mix)
    ensures forall k :: k in {Up, Right, PageUp} ==> FromEvent(KeyEvent(k, {})) == Some(PageNext)
    ensures forall k :: k in {Down, Left, PageDown} ==> FromEvent(KeyEvent(k, {})) == Some(PagePrev)
  {
  }

  /** Every modifier set other than none or Shift alone, and every unlisted key, gives no button. */
  lemma UnmappedKeys(ev: KeyEvent)
    ensures ev.modifiers != {} && ev.modifiers != {Shift} ==> FromEvent(ev) == None
    ensures ev.modifiers == {} && ev.code.Char? && !IsHexDigit(ev.code.c)
      && ev.code.c != 'h' && ev.code.c != ' ' && ev.code.c != 'r' && ev.code.c != 't' && ev.code.c != 'm'
      ==> FromEvent(ev) == None
    ensures ev.modifiers == {Shift} && !(ev.code.Char? && '0' <= ev.code.c <= '6') ==> FromEvent(ev) == None
    ensures ev.code.Other? ==> FromEvent(ev) == None
    ensures ev.code == Char('q') || (ev.code.Char? && 'A' <= ev.code.c <= 'F') ==> FromEvent(ev) == None
  {
  }
}
