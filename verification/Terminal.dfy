/** A terminal as far as half-block pictures need one: it reads bytes, follows SGR sequences (select graphic
    rendition), and writes three-byte glyphs in the current colours. */
module Terminal {
  import opened Common
  import opened Text

  datatype Colour = Default | Direct(r: nat, g: nat, b: nat) | Indexed(index: nat) | Basic(index: nat)

  datatype Cell = Cell(glyph: string, fg: Colour, bg: Colour)

  /** Between characters, after ESC, inside "ESC [" with the parameters so far, inside a glyph. */
  datatype Mode = Ground | Escape | Params(text: string) | Glyph(bytes: string)

  /** The lines above, the current line, and the current colours. */
  datatype Screen = Screen(mode: Mode, above: seq<seq<Cell>>, line: seq<Cell>, fg: Colour, bg: Colour)

  const ESC: char := 27 as char

  // ----- SGR parameters -----

  /** An empty parameter counts as zero, one that is no number is ignored like an unknown one. */
  function Number(s: string): nat {
    if s == "" then 0 else if Digits(s) then Value(s) else 1
  }

  function Numbers(parts: seq<string>): seq<nat> {
    if parts == [] then [] else [Number(parts[0])] + Numbers(parts[1..])
  }

  datatype Pen = Pen(fg: Colour, bg: Colour)

  function SetColour(p: Pen, fg: bool, c: Colour): Pen {
    if fg then p.(fg := c) else p.(bg := c)
  }

  /** The colours after the parameters `ns`. */
  function Paint(p: Pen, ns: seq<nat>): Pen
    decreases |ns|
  {
    if ns == [] then p
    else
      var n, rest := ns[0], ns[1..];
      if n == 0 then Paint(Pen(Default, Default), rest)
      else if (n == 38 || n == 48) && |rest| >= 4 && rest[0] == 2 then
        Paint(SetColour(p, n == 38, Direct(rest[1], rest[2], rest[3])), rest[4..])
      else if (n == 38 || n == 48) && |rest| >= 2 && rest[0] == 5 then
        Paint(SetColour(p, n == 38, Indexed(rest[1])), rest[2..])
      else if 30 <= n < 38 then Paint(SetColour(p, true, Basic(n - 30)), rest)
      else if 40 <= n < 48 then Paint(SetColour(p, false, Basic(n - 40)), rest)
      else if 90 <= n < 98 then Paint(SetColour(p, true, Basic(n - 82)), rest)
      else if 100 <= n < 108 then Paint(SetColour(p, false, Basic(n - 92)), rest)
      else Paint(p, rest)
  }

  lemma PaintOneNumber(p: Pen, n: nat)
    ensures 30 <= n <= 37 ==> Paint(p, [n]) == p.(fg := Basic(n - 30))
    ensures 40 <= n <= 47 ==> Paint(p, [n]) == p.(bg := Basic(n - 40))
    ensures 90 <= n <= 97 ==> Paint(p, [n]) == p.(fg := Basic(n - 90 + 8))
    ensures 100 <= n <= 107 ==> Paint(p, [n]) == p.(bg := Basic(n - 100 + 8))
    ensures n == 0 ==> Paint(p, [n]) == Pen(Default, Default)
  {
    assert [n][1..] == [];
    assert Paint(Pen(Default, Default), []) == Pen(Default, Default);
    assert n > 0 ==> Paint(SetColour(p, true, Basic(0)), []) == p.(fg := Basic(0));
  }

  /** The numbers of the SGR sequences: 30 to 37 and 90 to 97 for the sixteen foreground colours, 40 to 47 and 100 to 107
      for the background, 38 and 48 for an entry of the 256 colours (5) or for red, green and blue (2), 0 for none. */
  lemma SgrNumbers(p: Pen, n: nat, r: nat, g: nat, b: nat)
    ensures Paint(p, [38, 5, n]) == p.(fg := Indexed(n)) && Paint(p, [48, 5, n]) == p.(bg := Indexed(n))
    ensures Paint(p, [38, 2, r, g, b]) == p.(fg := Direct(r, g, b)) && Paint(p, [48, 2, r, g, b]) == p.(bg := Direct(r, g, b))
  {
    assert [38, 5, n][1..][2..] == [] && [48, 5, n][1..][2..] == [];
    assert [38, 2, r, g, b][1..][4..] == [] && [48, 2, r, g, b][1..][4..] == [];
  }

  // ----- Bytes -----

  predicate IsParameter(c: char) { '0' <= c <= '?' }

  function PenOf(s: Screen): Pen { Pen(s.fg, s.bg) }

  function WithPen(s: Screen, p: Pen): Screen { s.(fg := p.fg, bg := p.bg) }

  function Read(s: Screen, c: char): Screen {
    match s.mode
    case Ground =>
      if c == ESC then s.(mode := Escape)
      else if c == '\n' then s.(above := s.above + [s.line], line := [])
      else if c as int >= 0xE0 then s.(mode := Glyph([c]))
      else s.(line := s.line + [Cell([c], s.fg, s.bg)])
    case Escape => s.(mode := if c == '[' then Params("") else Ground)
    case Params(text) =>
      if IsParameter(c) then s.(mode := Params(text + [c]))
      else if c == 'm' then WithPen(s, Paint(PenOf(s), Numbers(Split(text, ';')))).(mode := Ground)
      else s.(mode := Ground)
    case Glyph(bytes) =>
      if |bytes| < 2 then s.(mode := Glyph(bytes + [c]))
      else s.(mode := Ground, line := s.line + [Cell(bytes + [c], s.fg, s.bg)])
  }

  function Feed(s: Screen, text: string): Screen
    decreases |text|
  {
    if text == "" then s else Feed(Read(s, text[0]), text[1..])
  }

  lemma {:induction false} FeedTwo(s: Screen, a: string, b: string)
    ensures Feed(s, a + b) == Feed(Feed(s, a), b)
    decreases |a|
  {
    if a == "" {
      assert a + b == b;
    } else {
      assert (a + b)[1..] == a[1..] + b;
      FeedTwo(Read(s, a[0]), a[1..], b);
    }
  }

  // ----- One sequence -----

  /** Numbers as SGR writes them. */
  function Codes(ns: seq<nat>): seq<string> {
    if ns == [] then [] else [Itoa(ns[0])] + Codes(ns[1..])
  }

  function Joined(ns: seq<nat>): string
    requires ns != []
  {
    Join(Codes(ns), ';')
  }

  function Sgr(text: string): string { [ESC, '['] + text + "m" }

  lemma CodeIsNumber(n: nat)
    ensures Number(Itoa(n)) == n && ';' !in Itoa(n)
  {
    ValueOfItoa(n);
  }

  lemma {:induction false} CodesAreNumbers(ns: seq<nat>)
    ensures |Codes(ns)| == |ns| && Numbers(Codes(ns)) == ns
    ensures forall i :: 0 <= i < |ns| ==> ';' !in Codes(ns)[i]
  {
    if ns != [] {
      CodesAreNumbers(ns[1..]);
      CodeIsNumber(ns[0]);
      var codes := Codes(ns);
      assert codes[1..] == Codes(ns[1..]);
    }
  }

  lemma JoinedFirst(ns: seq<nat>)
    requires |ns| > 1
    ensures Joined(ns) == Itoa(ns[0]) + ";" + Joined(ns[1..])
  {
    assert Codes(ns)[1..] == Codes(ns[1..]);
  }

  lemma {:induction false} CodesAreParameters(ns: seq<nat>)
    requires ns != []
    ensures forall i :: 0 <= i < |Joined(ns)| ==> IsParameter(Joined(ns)[i])
  {
    assert Digits(Itoa(ns[0]));
    if |ns| == 1 {
      assert Codes(ns) == [Itoa(ns[0])];
    } else {
      CodesAreParameters(ns[1..]);
      JoinedFirst(ns);
    }
  }

  lemma {:induction false} FeedParameters(s: Screen, done: string, text: string)
    requires s.mode == Params(done) && forall i :: 0 <= i < |text| ==> IsParameter(text[i])
    ensures Feed(s, text) == s.(mode := Params(done + text))
    decreases |text|
  {
    if text == "" {
      assert done + text == done;
    } else {
      FeedParameters(s.(mode := Params(done + [text[0]])), done + [text[0]], text[1..]);
      assert done + [text[0]] + text[1..] == done + text;
    }
  }

  /** An SGR sequence paints with the numbers it was written from. */
  lemma FeedSgr(s: Screen, ns: seq<nat>)
    requires s.mode == Ground && ns != []
    ensures Feed(s, Sgr(Joined(ns))) == WithPen(s, Paint(PenOf(s), ns))
  {
    var text := Joined(ns);
    var open, inside := s.(mode := Params("")), s.(mode := Params(text));
    FeedTwo(s, [ESC, '['] + text, "m");
    FeedTwo(s, [ESC, '['], text);
    assert Feed(s, [ESC, '[']) == open by {
      assert [ESC, '['][1..] == ['['];
      assert Feed(s.(mode := Escape), ['[']) == Feed(open, "");
    }
    CodesAreParameters(ns);
    FeedParameters(open, "", text);
    assert "" + text == text;
    CodesAreNumbers(ns);
    SplitUndoesJoin(Codes(ns), ';');
    assert Feed(inside, "m") == Read(inside, 'm');
  }

  lemma {:induction false} JoinedTwo(a: seq<nat>, b: seq<nat>)
    requires a != [] && b != []
    ensures Joined(a + b) == Joined(a) + ";" + Joined(b)
    decreases |a|
  {
    var all := a + b;
    JoinedFirst(all);
    if |a| == 1 {
      assert all[1..] == b;
      assert Codes(a) == [Itoa(a[0])];
    } else {
      assert all[1..] == a[1..] + b;
      JoinedTwo(a[1..], b);
      JoinedFirst(a);
    }
  }

  lemma JoinedIsInjective(a: seq<nat>, b: seq<nat>)
    requires a != [] && b != [] && Joined(a) == Joined(b)
    ensures a == b
  {
    CodesAreNumbers(a);
    CodesAreNumbers(b);
    SplitUndoesJoin(Codes(a), ';');
    SplitUndoesJoin(Codes(b), ';');
  }

  lemma FeedGlyph(s: Screen, g: string)
    requires s.mode == Ground && |g| == 3 && g[0] as int >= 0xE0
    ensures Feed(s, g) == s.(line := s.line + [Cell(g, s.fg, s.bg)])
  {
    var s1, s2 := s.(mode := Glyph(g[..1])), s.(mode := Glyph(g[..2]));
    assert g[..1] == [g[0]] && g[..1] + [g[1]] == g[..2] && g[..2] + [g[2]] == g;
    assert Feed(s, g) == Feed(s1, g[1..]);
    assert Feed(s1, g[1..]) == Feed(s2, g[2..]) by {
      assert g[1..][1..] == g[2..];
    }
    assert Feed(s2, g[2..]) == Feed(Read(s2, g[2]), "") by {
      assert g[2..][1..] == "";
    }
  }
}
