/** Half-block pictures as SGR text (cmd/ansiconvert/main.go and internal/imaging/halfblock.go): each cell is
    an upper half block, its foreground the upper of two pixels and its background the lower; a colour that
    stays is not written again.

    Text is bytes; scaling the image is not modelled. */
module AnsiConvert {
  import opened Common
  import opened Text
  import opened Palette
  import opened Dither
  import opened Terminal

  /** The parameters of one colour, as text, for the foreground or the background. */
  type Sgrs = (bool, Rgb) -> string

  type Numbered = (bool, Rgb) -> seq<nat>

  /** What the terminal makes of a colour. */
  type Meaning = Rgb -> Colour

  /** U+2580 in UTF-8. */
  const BLOCK: string := [0xE2 as char, 0x96 as char, 0x80 as char]

  const RESET: string := [ESC, '[', '0', 'm']

  // ----- The text -----

  /** What is written before a cell: only the colours that differ from the last ones. */
  function Transition(fg: string, bg: string, lastFg: string, lastBg: string): string {
    if fg != lastFg && bg != lastBg then Sgr(fg + ";" + bg)
    else if fg != lastFg then Sgr(fg)
    else if bg != lastBg then Sgr(bg) else ""
  }

  function RowText(top: seq<Pixel>, bottom: seq<Pixel>, lastFg: string, lastBg: string, sgr: Sgrs): string
    requires |top| == |bottom|
  {
    if top == [] then ""
    else
      var fg, bg := sgr(true, top[0].rgb), sgr(false, bottom[0].rgb);
      Transition(fg, bg, lastFg, lastBg) + BLOCK + RowText(top[1..], bottom[1..], fg, bg, sgr)
  }

  /** The texts that change are all a transition holds besides its frame: ESC [, m, and a ; between two. */
  ghost predicate WritesChanges(text: string, fg: string, bg: string, lastFg: string, lastBg: string) {
    && (fg == lastFg && bg == lastBg ==> text == [])
    && (fg != lastFg && bg == lastBg ==> text == [0x1B as char, '['] + fg + ['m'])
    && (fg == lastFg && bg != lastBg ==> text == [0x1B as char, '['] + bg + ['m'])
    && (fg != lastFg && bg != lastBg ==> text == [0x1B as char, '['] + (fg + [';'] + bg) + ['m'])
  }

  /** While the colours stay, a cell costs its three bytes and nothing more. */
  lemma {:induction false} RunsAreBare(top: seq<Pixel>, bottom: seq<Pixel>, fg: string, bg: string, sgr: Sgrs)
    requires |top| == |bottom|
    requires forall x :: 0 <= x < |top| ==> sgr(true, top[x].rgb) == fg && sgr(false, bottom[x].rgb) == bg
    ensures |RowText(top, bottom, fg, bg, sgr)| == 3 * |top|
    ensures forall x :: 0 <= x < 3 * |top| ==>
                          RowText(top, bottom, fg, bg, sgr)[x] == [0xE2 as char, 0x96 as char, 0x80 as char][x % 3]
    decreases |top|
  {
    if top != [] {
      RunsAreBare(top[1..], bottom[1..], fg, bg, sgr);
      var rest := RowText(top[1..], bottom[1..], fg, bg, sgr);
      assert RowText(top, bottom, fg, bg, sgr) == BLOCK + rest;
      forall x | 3 <= x < 3 * |top| ensures (BLOCK + rest)[x] == [0xE2 as char, 0x96 as char, 0x80 as char][x % 3] {
        assert (BLOCK + rest)[x] == rest[x - 3] && (x - 3) % 3 == x % 3;
      }
    }
  }

  ghost predicate Rectangular(img: Picture, w: nat) {
    forall y :: 0 <= y < |img| ==> |img[y]| == w
  }

  /** Two rows of pixels make a line; an odd last row is not shown. */
  ghost function ImageText(img: Picture, w: nat, sgr: Sgrs): string
    requires Rectangular(img, w)
    decreases |img|
  {
    if |img| < 2 then ""
    else RowText(img[0], img[1], "", "", sgr) + RESET + "\n" + ImageText(img[2..], w, sgr)
  }

  // ----- The screen it stands for -----

  function CellsOf(top: seq<Pixel>, bottom: seq<Pixel>, meaning: Meaning): seq<Cell>
    requires |top| == |bottom|
  {
    if top == [] then []
    else [Cell(BLOCK, meaning(top[0].rgb), meaning(bottom[0].rgb))] + CellsOf(top[1..], bottom[1..], meaning)
  }

  ghost function LinesOf(img: Picture, w: nat, meaning: Meaning): seq<seq<Cell>>
    requires Rectangular(img, w)
    decreases |img|
  {
    if |img| < 2 then [] else [CellsOf(img[0], img[1], meaning)] + LinesOf(img[2..], w, meaning)
  }

  lemma {:induction false} CellAt(top: seq<Pixel>, bottom: seq<Pixel>, meaning: Meaning, x: nat)
    requires |top| == |bottom|
    ensures |CellsOf(top, bottom, meaning)| == |top|
    ensures x < |top| ==> CellsOf(top, bottom, meaning)[x] == Cell(BLOCK, meaning(top[x].rgb), meaning(bottom[x].rgb))
    decreases |top|
  {
    if top != [] {
      CellAt(top[1..], bottom[1..], meaning, if x > 0 then x - 1 else 0);
    }
  }

  /** Cell (x, y) shows pixels (x, 2y) and (x, 2y + 1). */
  lemma {:induction false} LineAt(img: Picture, w: nat, meaning: Meaning, x: nat, y: nat)
    requires Rectangular(img, w)
    ensures |LinesOf(img, w, meaning)| == |img| / 2
    ensures y < |img| / 2 && x < w ==>
              && |LinesOf(img, w, meaning)[y]| == w
              && LinesOf(img, w, meaning)[y][x]
                 == Cell(BLOCK, meaning(img[2 * y][x].rgb), meaning(img[2 * y + 1][x].rgb))
    decreases |img|
  {
    if |img| >= 2 {
      LineAt(img[2..], w, meaning, x, if y > 0 then y - 1 else 0);
      CellAt(img[0], img[1], meaning, x);
      if 0 < y < |img| / 2 {
        assert img[2..][2 * (y - 1)] == img[2 * y] && img[2..][2 * (y - 1) + 1] == img[2 * y + 1];
      }
    }
  }

  // ----- Decoding -----

  /** The texts are numbers, and as parameters each of them sets its own colour and nothing else. */
  ghost predicate Faithful(sgr: Sgrs, code: Numbered, meaning: Meaning) {
    && (forall fg, c :: code(fg, c) != [] && sgr(fg, c) == Joined(code(fg, c)))
    && (forall fg, c, p, rest :: Paint(p, code(fg, c) + rest) == Paint(SetColour(p, fg, meaning(c)), rest))
  }

  lemma PaintOne(sgr: Sgrs, code: Numbered, meaning: Meaning, fg: bool, c: Rgb, p: Pen)
    requires Faithful(sgr, code, meaning)
    ensures Paint(p, code(fg, c)) == SetColour(p, fg, meaning(c))
  {
    assert code(fg, c) + [] == code(fg, c);
    assert Paint(p, code(fg, c) + []) == Paint(SetColour(p, fg, meaning(c)), []);
  }

  lemma PaintBoth(sgr: Sgrs, code: Numbered, meaning: Meaning, c: Rgb, d: Rgb, p: Pen)
    requires Faithful(sgr, code, meaning)
    ensures Paint(p, code(true, c) + code(false, d)) == Pen(meaning(c), meaning(d))
  {
    assert Paint(p, code(true, c) + code(false, d)) == Paint(SetColour(p, true, meaning(c)), code(false, d));
    PaintOne(sgr, code, meaning, false, d, SetColour(p, true, meaning(c)));
  }

  /** Equal texts mean equal colours. */
  lemma SameTextSameColour(sgr: Sgrs, code: Numbered, meaning: Meaning, fg: bool, c: Rgb, d: Rgb)
    requires Faithful(sgr, code, meaning) && sgr(fg, c) == sgr(fg, d)
    ensures meaning(c) == meaning(d)
  {
    JoinedIsInjective(code(fg, c), code(fg, d));
    var p := Pen(Default, Default);
    PaintOne(sgr, code, meaning, fg, c, p);
    PaintOne(sgr, code, meaning, fg, d, p);
  }

  function LastText(sgr: Sgrs, fg: bool, last: Option<Rgb>): string {
    match last case None => "" case Some(c) => sgr(fg, c)
  }

  /** The colours last written are the ones in force. */
  predicate InForce(s: Screen, lastFg: Option<Rgb>, lastBg: Option<Rgb>, meaning: Meaning) {
    && (lastFg.Some? ==> s.fg == meaning(lastFg.value))
    && (lastBg.Some? ==> s.bg == meaning(lastBg.value))
  }

  /** Whatever a transition leaves out is in force already. */
  lemma TransitionPaints(s: Screen, c: Rgb, d: Rgb, lastFg: Option<Rgb>, lastBg: Option<Rgb>, sgr: Sgrs,
                         code: Numbered, meaning: Meaning)
    requires s.mode == Ground && Faithful(sgr, code, meaning) && InForce(s, lastFg, lastBg, meaning)
    ensures Feed(s, Transition(sgr(true, c), sgr(false, d), LastText(sgr, true, lastFg), LastText(sgr, false, lastBg)))
         == s.(fg := meaning(c), bg := meaning(d))
  {
    var fg, bg := sgr(true, c), sgr(false, d);
    assert fg == Joined(code(true, c)) && bg == Joined(code(false, d));
    if fg != LastText(sgr, true, lastFg) {
      if bg != LastText(sgr, false, lastBg) {
        JoinedTwo(code(true, c), code(false, d));
        FeedSgr(s, code(true, c) + code(false, d));
        PaintBoth(sgr, code, meaning, c, d, PenOf(s));
      } else {
        LastIsColour(sgr, code, meaning, false, d, lastBg);
        FeedSgr(s, code(true, c));
        PaintOne(sgr, code, meaning, true, c, PenOf(s));
      }
    } else {
      LastIsColour(sgr, code, meaning, true, c, lastFg);
      if bg != LastText(sgr, false, lastBg) {
        FeedSgr(s, code(false, d));
        PaintOne(sgr, code, meaning, false, d, PenOf(s));
      } else {
        LastIsColour(sgr, code, meaning, false, d, lastBg);
      }
    }
  }

  lemma TextIsNotEmpty(ns: seq<nat>)
    requires ns != []
    ensures Joined(ns) != ""
  {
    assert Codes(ns)[0] != "";
  }

  lemma LastIsColour(sgr: Sgrs, code: Numbered, meaning: Meaning, fg: bool, c: Rgb, last: Option<Rgb>)
    requires Faithful(sgr, code, meaning) && sgr(fg, c) == LastText(sgr, fg, last)
    ensures last.Some? && meaning(last.value) == meaning(c)
  {
    assert sgr(fg, c) == Joined(code(fg, c));
    TextIsNotEmpty(code(fg, c));
    SameTextSameColour(sgr, code, meaning, fg, c, last.value);
  }

  function PenAfter(p: Pen, top: seq<Pixel>, bottom: seq<Pixel>, meaning: Meaning): Pen
    requires |top| == |bottom|
  {
    if top == [] then p
    else Pen(meaning(top[|top| - 1].rgb), meaning(bottom[|top| - 1].rgb))
  }

  lemma OneMoreCell(line: seq<Cell>, cell: Cell, cells: seq<Cell>)
    ensures line + [cell] + cells == line + ([cell] + cells)
  {
  }

  lemma CellDecodes(s: Screen, c: Rgb, d: Rgb, lastFg: Option<Rgb>, lastBg: Option<Rgb>, sgr: Sgrs, code: Numbered,
                    meaning: Meaning)
    requires s.mode == Ground && Faithful(sgr, code, meaning) && InForce(s, lastFg, lastBg, meaning)
    ensures var fg, bg := LastText(sgr, true, lastFg), LastText(sgr, false, lastBg);
            Feed(s, Transition(sgr(true, c), sgr(false, d), fg, bg) + BLOCK)
            == s.(fg := meaning(c), bg := meaning(d), line := s.line + [Cell(BLOCK, meaning(c), meaning(d))])
  {
    var step := Transition(sgr(true, c), sgr(false, d), LastText(sgr, true, lastFg), LastText(sgr, false, lastBg));
    FeedTwo(s, step, BLOCK);
    TransitionPaints(s, c, d, lastFg, lastBg, sgr, code, meaning);
    FeedGlyph(s.(fg := meaning(c), bg := meaning(d)), BLOCK);
  }

  /** Fed to a terminal, a row's text writes the row's cells. */
  lemma {:induction false} RowDecodes(s: Screen, top: seq<Pixel>, bottom: seq<Pixel>, lastFg: Option<Rgb>,
                                      lastBg: Option<Rgb>, sgr: Sgrs, code: Numbered, meaning: Meaning)
    requires s.mode == Ground && |top| == |bottom|
    requires Faithful(sgr, code, meaning) && InForce(s, lastFg, lastBg, meaning)
    ensures Feed(s, RowText(top, bottom, LastText(sgr, true, lastFg), LastText(sgr, false, lastBg), sgr))
         == WithPen(s.(line := s.line + CellsOf(top, bottom, meaning)), PenAfter(PenOf(s), top, bottom, meaning))
    decreases |top|
  {
    if top == [] {
      assert s.line + [] == s.line;
    } else {
      var c, d := top[0].rgb, bottom[0].rgb;
      var step := Transition(sgr(true, c), sgr(false, d), LastText(sgr, true, lastFg), LastText(sgr, false, lastBg));
      var rest := RowText(top[1..], bottom[1..], sgr(true, c), sgr(false, d), sgr);
      var cell, cells := Cell(BLOCK, meaning(c), meaning(d)), CellsOf(top[1..], bottom[1..], meaning);
      var shown := s.(fg := meaning(c), bg := meaning(d), line := s.line + [cell]);
      FeedTwo(s, step + BLOCK, rest);
      CellDecodes(s, c, d, lastFg, lastBg, sgr, code, meaning);
      RowDecodes(shown, top[1..], bottom[1..], Some(c), Some(d), sgr, code, meaning);
      OneMoreCell(s.line, cell, cells);
    }
  }

  lemma ResetClears(s: Screen)
    requires s.mode == Ground
    ensures Feed(s, RESET) == s.(fg := Default, bg := Default)
  {
    assert Itoa(0) == "0";
    assert Codes([0]) == ["0"];
    assert RESET == Sgr(Joined([0]));
    FeedSgr(s, [0]);
    assert Paint(PenOf(s), [0]) == Pen(Default, Default);
  }

  predicate Blank(s: Screen) {
    s.mode == Ground && s.line == [] && s.fg == Default && s.bg == Default
  }

  /** A row and its reset, on a fresh line. */
  lemma LineDecodes(s: Screen, top: seq<Pixel>, bottom: seq<Pixel>, sgr: Sgrs, code: Numbered, meaning: Meaning)
    requires Blank(s) && |top| == |bottom| && Faithful(sgr, code, meaning)
    ensures Feed(s, RowText(top, bottom, "", "", sgr) + RESET) == s.(line := CellsOf(top, bottom, meaning))
  {
    var text := RowText(top, bottom, "", "", sgr);
    RowDecodes(s, top, bottom, None, None, sgr, code, meaning);
    FeedTwo(s, text, RESET);
    ResetClears(Feed(s, text));
    assert [] + CellsOf(top, bottom, meaning) == CellsOf(top, bottom, meaning);
  }

  lemma LineEnds(s: Screen, top: seq<Pixel>, bottom: seq<Pixel>, sgr: Sgrs, code: Numbered, meaning: Meaning)
    requires Blank(s) && |top| == |bottom| && Faithful(sgr, code, meaning)
    ensures Feed(s, RowText(top, bottom, "", "", sgr) + RESET + "\n")
         == s.(above := s.above + [CellsOf(top, bottom, meaning)])
  {
    var line, cells := RowText(top, bottom, "", "", sgr) + RESET, CellsOf(top, bottom, meaning);
    FeedTwo(s, line, "\n");
    LineDecodes(s, top, bottom, sgr, code, meaning);
    assert Feed(s.(line := cells), "\n") == Terminal.Read(s.(line := cells), '\n');
  }

  lemma OneMoreLine(lines: seq<seq<Cell>>, line: seq<Cell>, rest: seq<seq<Cell>>)
    ensures lines + [line] + rest == lines + ([line] + rest)
  {
  }

  /** The text of a picture, fed to a terminal, shows the picture line by line. */
  lemma {:induction false} ImageDecodes(s: Screen, img: Picture, w: nat, sgr: Sgrs, code: Numbered, meaning: Meaning)
    requires Blank(s) && Rectangular(img, w) && Faithful(sgr, code, meaning)
    ensures Feed(s, ImageText(img, w, sgr)) == s.(above := s.above + LinesOf(img, w, meaning))
    decreases |img|
  {
    if |img| < 2 {
      assert s.above + [] == s.above;
    } else {
      var text, rest := RowText(img[0], img[1], "", "", sgr) + RESET + "\n", ImageText(img[2..], w, sgr);
      var cells := CellsOf(img[0], img[1], meaning);
      FeedTwo(s, text, rest);
      LineEnds(s, img[0], img[1], sgr, code, meaning);
      ImageDecodes(s.(above := s.above + [cells]), img[2..], w, sgr, code, meaning);
      OneMoreLine(s.above, cells, LinesOf(img[2..], w, meaning));
    }
  }

  // ----- The three depths -----

  function Base(fg: bool): nat { if fg then 38 else 48 }

  /** ansi16Code. */
  function Basic16(fg: bool, idx: nat): nat {
    if idx < 8 then (if fg then 30 + idx else 40 + idx) else if fg then 90 + idx - 8 else 100 + idx - 8
  }

  /** The parameters of a colour, given its entry in the palette. */
  function Code(d: Depth, fg: bool, c: Rgb, idx: nat): seq<nat> {
    match d
    case Truecolor => [Base(fg), 2, c.r, c.g, c.b]
    case Depth256 => [Base(fg), 5, idx]
    case Depth16 => [Basic16(fg, idx)]
  }

  function ColourOf(d: Depth, c: Rgb, idx: nat): Colour {
    match d
    case Truecolor => Direct(c.r, c.g, c.b)
    case Depth256 => Indexed(idx)
    case Depth16 => Basic(idx)
  }

  /** The palette in use; truecolor has none. */
  function PaletteOf(d: Depth): (p: seq<Rgb>)
    ensures d == Truecolor <==> p == []
    ensures d == Depth16 ==> |p| == 16
    ensures d == Depth256 ==> |p| == 256
  {
    match d case Truecolor => [] case Depth256 => Palette256() case Depth16 => PALETTE16
  }

  function Entry(p: seq<Rgb>, c: Rgb): nat { if p == [] then 0 else Nearest(p, c) }

  function CodeOf(d: Depth): Numbered { (fg, c) => Code(d, fg, c, Entry(PaletteOf(d), c)) }

  function MeaningOf(d: Depth): Meaning { c => ColourOf(d, c, Entry(PaletteOf(d), c)) }

  /** sgrColor. */
  function SgrText(d: Depth, fg: bool, c: Rgb, idx: nat): string {
    match d
    case Truecolor => (if fg then "38" else "48") + ";2;" + Itoa(c.r) + ";" + Itoa(c.g) + ";" + Itoa(c.b)
    case Depth256 => (if fg then "38" else "48") + ";5;" + Itoa(idx)
    case Depth16 => Itoa(Basic16(fg, idx))
  }

  function SgrOf(d: Depth): Sgrs { (fg, c) => SgrText(d, fg, c, Entry(PaletteOf(d), c)) }

  lemma BaseText(fg: bool)
    ensures Itoa(Base(fg)) == if fg then "38" else "48"
  {
    assert Itoa(3) == "3" && Itoa(4) == "4";
    assert Itoa(38) == Itoa(3) + "8" && Itoa(48) == Itoa(4) + "8";
  }

  lemma SmallText()
    ensures Itoa(2) == "2" && Itoa(5) == "5"
  {
  }

  lemma Joined2(a: nat, b: nat)
    ensures Joined([a, b]) == Itoa(a) + ";" + Itoa(b)
  {
    Joined1(b);
    JoinedFirst([a, b]);
    assert [a, b][1..] == [b];
  }

  lemma Regroup3(a: string, b: string, c: string)
    ensures a + ";" + (b + ";" + c) == a + ";" + b + ";" + c
  {
  }

  lemma Joined3(a: nat, b: nat, c: nat)
    ensures Joined([a, b, c]) == Itoa(a) + ";" + Itoa(b) + ";" + Itoa(c)
  {
    Joined2(b, c);
    JoinedFirst([a, b, c]);
    assert [a, b, c][1..] == [b, c];
    Regroup3(Itoa(a), Itoa(b), Itoa(c));
  }

  lemma Joined1(a: nat)
    ensures Joined([a]) == Itoa(a)
  {
    assert Codes([a]) == [Itoa(a)];
  }

  lemma DirectText(base: string, r: string, g: string, b: string)
    ensures base + ";2;" + r + ";" + g + ";" + b == base + ";" + "2" + ";" + (r + ";" + g + ";" + b)
  {
    assert ";2;" == ";" + "2" + ";";
  }

  lemma DirectIsCode(base: nat, r: nat, g: nat, b: nat)
    ensures Joined([base, 2, r, g, b]) == Itoa(base) + ";2;" + Itoa(r) + ";" + Itoa(g) + ";" + Itoa(b)
  {
    SmallText();
    Joined3(r, g, b);
    Joined2(base, 2);
    JoinedTwo([base, 2], [r, g, b]);
    assert [base, 2] + [r, g, b] == [base, 2, r, g, b];
    DirectText(Itoa(base), Itoa(r), Itoa(g), Itoa(b));
  }

  lemma IndexedIsCode(base: nat, idx: nat)
    ensures Joined([base, 5, idx]) == Itoa(base) + ";5;" + Itoa(idx)
  {
    SmallText();
    Joined3(base, 5, idx);
    assert ";5;" == ";" + "5" + ";";
  }

  /** The text of a colour is its parameters. */
  lemma TextIsCode(d: Depth, fg: bool, c: Rgb, idx: nat)
    ensures SgrText(d, fg, c, idx) == Joined(Code(d, fg, c, idx))
  {
    BaseText(fg);
    match d
    case Truecolor => DirectIsCode(Base(fg), c.r, c.g, c.b);
    case Depth256 => IndexedIsCode(Base(fg), idx);
    case Depth16 => Joined1(Basic16(fg, idx));
  }

  /** A terminal takes the parameters of a colour for that colour, whatever follows. */
  lemma CodePaints(d: Depth, fg: bool, c: Rgb, idx: nat, p: Pen, rest: seq<nat>)
    requires d == Depth16 ==> idx < 16
    ensures Paint(p, Code(d, fg, c, idx) + rest) == Paint(SetColour(p, fg, ColourOf(d, c, idx)), rest)
  {
    var ns := Code(d, fg, c, idx) + rest;
    match d
    case Truecolor => assert ns[1..][4..] == rest;
    case Depth256 => assert ns[1..][2..] == rest;
    case Depth16 => assert ns[1..] == rest;
  }

  lemma DepthIsFaithful(d: Depth)
    ensures Faithful(SgrOf(d), CodeOf(d), MeaningOf(d))
  {
    forall fg, c ensures CodeOf(d)(fg, c) != [] && SgrOf(d)(fg, c) == Joined(CodeOf(d)(fg, c)) {
      TextIsCode(d, fg, c, Entry(PaletteOf(d), c));
    }
    forall fg, c, p, rest
      ensures Paint(p, CodeOf(d)(fg, c) + rest) == Paint(SetColour(p, fg, MeaningOf(d)(c)), rest)
    {
      CodePaints(d, fg, c, Entry(PaletteOf(d), c), p, rest);
    }
  }

  /** The colour a terminal of the right palette shows. */
  function Displayed(c: Colour): Option<Rgb> {
    match c
    case Default => None
    case Direct(r, g, b) => if r < 256 && g < 256 && b < 256 then Some(Rgb(r, g, b)) else None
    case Indexed(i) => if i < 256 then Some(Xterm(i)) else None
    case Basic(i) => if i < 16 then Some(PALETTE16[i]) else None
  }

  lemma XtermEntry(k: nat)
    requires k < 256
    ensures Palette256()[k] == Xterm(k)
  {
  }

  lemma EntryIsNearest(p: seq<Rgb>, c: Rgb)
    requires p != []
    ensures Entry(p, c) < |p| && p[Entry(p, c)] == Quantised(p, c)
  {
  }

  /** A pixel is shown as its nearest palette colour; in truecolor, as itself. */
  lemma ShowsNearest(d: Depth, c: Rgb)
    ensures Displayed(MeaningOf(d)(c)) == Some(Quantised(PaletteOf(d), c))
  {
    var p := PaletteOf(d);
    if d != Truecolor {
      EntryIsNearest(p, c);
      var k := Entry(p, c);
      if d == Depth256 {
        XtermEntry(k);
        assert Displayed(Indexed(k)) == Some(p[k]);
      } else {
        assert Displayed(Basic(k)) == Some(p[k]);
      }
    }
  }

  // ----- The whole picture -----

  ghost predicate ShowsPair(cell: Cell, top: Rgb, bottom: Rgb, q: seq<Rgb>) {
    && cell.glyph == BLOCK
    && Displayed(cell.fg) == Some(Quantised(q, top)) && Displayed(cell.bg) == Some(Quantised(q, bottom))
  }

  /** Cell (x, y) shows the nearest palette colours of pixels (x, 2y) and (x, 2y + 1). */
  ghost predicate ShowsAt(lines: seq<seq<Cell>>, img: Picture, w: nat, q: seq<Rgb>, x: nat, y: nat)
    requires Rectangular(img, w) && |lines| == |img| / 2 && x < w && y < |lines|
  {
    |lines[y]| == w && ShowsPair(lines[y][x], img[2 * y][x].rgb, img[2 * y + 1][x].rgb, q)
  }

  ghost predicate Shows(lines: seq<seq<Cell>>, img: Picture, w: nat, q: seq<Rgb>)
    requires Rectangular(img, w)
  {
    |lines| == |img| / 2 && forall x: nat, y: nat :: x < w && y < |lines| ==> ShowsAt(lines, img, w, q, x, y)
  }

  lemma LinesShow(img: Picture, w: nat, meaning: Meaning, q: seq<Rgb>)
    requires Rectangular(img, w) && forall c :: Displayed(meaning(c)) == Some(Quantised(q, c))
    ensures Shows(LinesOf(img, w, meaning), img, w, q)
  {
    var lines := LinesOf(img, w, meaning);
    LineAt(img, w, meaning, 0, 0);
    forall x: nat, y: nat | x < w && y < |lines| ensures ShowsAt(lines, img, w, q, x, y) {
      LineAt(img, w, meaning, x, y);
    }
  }

  /** The bytes emitted for a picture, read by a terminal, show the picture and leave the terminal as it was. */
  lemma EmittedPictureIsShown(s: Screen, img: Picture, w: nat, d: Depth)
    requires Blank(s) && Rectangular(img, w)
    ensures Feed(s, ImageText(img, w, SgrOf(d))) == s.(above := s.above + LinesOf(img, w, MeaningOf(d)))
    ensures Shows(LinesOf(img, w, MeaningOf(d)), img, w, PaletteOf(d))
  {
    DepthIsFaithful(d);
    ImageDecodes(s, img, w, SgrOf(d), CodeOf(d), MeaningOf(d));
    forall c ensures Displayed(MeaningOf(d)(c)) == Some(Quantised(PaletteOf(d), c)) {
      ShowsNearest(d, c);
    }
    LinesShow(img, w, MeaningOf(d), PaletteOf(d));
  }

  /** Cell (x, y) shows pixels (x, 2y) and (x, 2y + 1) as they are. */
  ghost predicate ExactAt(lines: seq<seq<Cell>>, img: Picture, w: nat, x: nat, y: nat)
    requires Rectangular(img, w) && |lines| == |img| / 2 && x < w && y < |lines|
  {
    && |lines[y]| == w && lines[y][x].glyph == BLOCK
    && Displayed(lines[y][x].fg) == Some(img[2 * y][x].rgb)
    && Displayed(lines[y][x].bg) == Some(img[2 * y + 1][x].rgb)
  }

  ghost predicate Exactly(lines: seq<seq<Cell>>, img: Picture, w: nat)
    requires Rectangular(img, w)
  {
    |lines| == |img| / 2 && forall x: nat, y: nat :: x < w && y < |lines| ==> ExactAt(lines, img, w, x, y)
  }

  ghost predicate InPalette(img: Picture, w: nat, q: seq<Rgb>)
    requires Rectangular(img, w)
  {
    forall y, x :: 0 <= y < |img| && 0 <= x < w ==> img[y][x].rgb in q
  }

  /** A picture of palette colours is shown exactly. */
  lemma PalettePictureIsExact(lines: seq<seq<Cell>>, img: Picture, w: nat, q: seq<Rgb>)
    requires Rectangular(img, w) && Shows(lines, img, w, q) && InPalette(img, w, q)
    ensures Exactly(lines, img, w)
  {
    forall x: nat, y: nat | x < w && y < |lines| ensures ExactAt(lines, img, w, x, y) {
      assert ShowsAt(lines, img, w, q, x, y);
      assert img[2 * y][x].rgb in q && img[2 * y + 1][x].rgb in q;
    }
  }

  // ----- Buffered writing -----

  class BufWriter {
    const capacity: nat
    /** Everything the underlying writer was given. */
    var sink: string
    var buf: string

    constructor ()
      ensures Valid() && Written() == "" && sink == ""
    {
      capacity, sink, buf := 4096, "", "";
    }

    ghost predicate Valid()
      reads this
    {
      |buf| <= capacity
    }

    ghost function Written(): string
      reads this
    {
      sink + buf
    }

    method WriteString(s: string)
      requires Valid()
      modifies this
      ensures Valid() && Written() == old(Written()) + s
    {
      if |buf| + |s| > capacity {
        sink := sink + buf;
        buf := "";
        if |s| > capacity {
          sink := sink + s;
          return;
        }
      }
      buf := buf + s;
    }

    method Flush()
      requires Valid()
      modifies this
      ensures Valid() && sink == old(Written()) && Written() == sink
    {
      if |buf| > 0 {
        sink := sink + buf;
        buf := "";
      }
    }
  }

  // ----- Emitting -----

  method SgrColor(d: Depth, fg: bool, c: Rgb, palette: array<Rgb>) returns (s: string)
    requires palette[..] == Palette256()
    ensures s == SgrOf(d)(fg, c)
  {
    var base := if fg then "38" else "48";
    match d {
      case Truecolor =>
        s := base + ";2;" + Itoa(c.r) + ";" + Itoa(c.g) + ";" + Itoa(c.b);
      case Depth256 =>
        var idx := NearestIndex(palette[..], c);
        s := base + ";5;" + Itoa(idx);
      case Depth16 =>
        var idx := NearestIndex(PALETTE16, c);
        s := Ansi16Code(fg, idx);
    }
  }

  method Ansi16Code(fg: bool, idx: nat) returns (s: string)
    ensures s == Itoa(Basic16(fg, idx))
  {
    if idx < 8 {
      if fg {
        return Itoa(30 + idx);
      }
      return Itoa(40 + idx);
    }
    if fg {
      return Itoa(90 + idx - 8);
    }
    return Itoa(100 + idx - 8);
  }

  /** The text before a cell, by the same three cases. */
  method TransitionText(fg: string, bg: string, lastFg: string, lastBg: string) returns (sgr: string)
    ensures sgr == Transition(fg, bg, lastFg, lastBg)
    ensures WritesChanges(sgr, fg, bg, lastFg, lastBg)
  {
    sgr := "";
    if fg != lastFg && bg != lastBg {
      sgr := [ESC, '['] + (fg + ";" + bg) + "m";
    } else if fg != lastFg {
      sgr := [ESC, '['] + fg + "m";
    } else if bg != lastBg {
      sgr := [ESC, '['] + bg + "m";
    }
  }

  method EmitCell(bw: BufWriter, top: Pixel, bottom: Pixel, d: Depth, palette: array<Rgb>, lastFg: string, lastBg: string)
    returns (fg: string, bg: string)
    requires bw.Valid() && palette[..] == Palette256()
    modifies bw
    ensures bw.Valid() && fg == SgrOf(d)(true, top.rgb) && bg == SgrOf(d)(false, bottom.rgb)
    ensures bw.Written() == old(bw.Written()) + Transition(fg, bg, lastFg, lastBg) + BLOCK
  {
    fg := SgrColor(d, true, top.rgb, palette);
    bg := SgrColor(d, false, bottom.rgb, palette);
    var sgr := TransitionText(fg, bg, lastFg, lastBg);
    bw.WriteString(sgr);
    bw.WriteString(BLOCK);
  }

  /** The cells of one line. */
  method EmitRow(bw: BufWriter, img: array2<Pixel>, ghost rows: Picture, cy: nat, d: Depth, palette: array<Rgb>)
    requires bw.Valid() && palette[..] == Palette256() && 2 * cy + 1 < img.Length0
    requires Rectangular(rows, img.Length1) && |rows| == img.Length0
    requires forall y, x :: 0 <= y < img.Length0 && 0 <= x < img.Length1 ==> img[y, x] == rows[y][x]
    modifies bw
    ensures bw.Valid()
    ensures bw.Written() == old(bw.Written()) + RowText(rows[2 * cy], rows[2 * cy + 1], "", "", SgrOf(d))
  {
    ghost var top, bottom, sgr := rows[2 * cy], rows[2 * cy + 1], SgrOf(d);
    var lastFg, lastBg := "", "";
    ghost var rest := RowText(top, bottom, "", "", sgr);
    ghost var all := bw.Written() + rest;
    assert top[0..] == top && bottom[0..] == bottom;
    for cx := 0 to img.Length1
      invariant bw.Valid()
      invariant rest == RowText(top[cx..], bottom[cx..], lastFg, lastBg, sgr)
      invariant all == bw.Written() + rest
    {
      RowTextNext(top, bottom, cx, lastFg, lastBg, sgr);
      ghost var before := bw.Written();
      var fg, bg := EmitCell(bw, img[2 * cy, cx], img[2 * cy + 1, cx], d, palette, lastFg, lastBg);
      rest := RowText(top[cx + 1..], bottom[cx + 1..], fg, bg, sgr);
      Regroup(before, Transition(fg, bg, lastFg, lastBg), rest);
      lastFg, lastBg := fg, bg;
    }
    assert rest == "";
  }

  lemma RowTextNext(top: seq<Pixel>, bottom: seq<Pixel>, cx: nat, lastFg: string, lastBg: string, sgr: Sgrs)
    requires |top| == |bottom| && cx < |top|
    ensures var fg, bg := sgr(true, top[cx].rgb), sgr(false, bottom[cx].rgb);
            RowText(top[cx..], bottom[cx..], lastFg, lastBg, sgr)
            == Transition(fg, bg, lastFg, lastBg) + BLOCK + RowText(top[cx + 1..], bottom[cx + 1..], fg, bg, sgr)
  {
    assert top[cx..][1..] == top[cx + 1..] && bottom[cx..][1..] == bottom[cx + 1..];
  }

  lemma Regroup(a: string, b: string, c: string)
    ensures a + (b + BLOCK + c) == a + b + BLOCK + c
  {
  }

  method Emit(bw: BufWriter, img: array2<Pixel>, ghost rows: Picture, d: Depth, palette: array<Rgb>)
    requires bw.Valid() && palette[..] == Palette256()
    requires Rectangular(rows, img.Length1) && |rows| == img.Length0
    requires forall y, x :: 0 <= y < img.Length0 && 0 <= x < img.Length1 ==> img[y, x] == rows[y][x]
    modifies bw
    ensures bw.Valid() && bw.sink == old(bw.Written()) + ImageText(rows, img.Length1, SgrOf(d))
  {
    ghost var w, sgr := img.Length1, SgrOf(d);
    ghost var all, rest := bw.Written() + ImageText(rows, w, sgr), ImageText(rows, w, sgr);
    assert rows[0..] == rows;
    for cy := 0 to img.Length0 / 2
      invariant bw.Valid()
      invariant rest == ImageText(rows[2 * cy..], w, sgr)
      invariant all == bw.Written() + rest
    {
      rest := EmitLine(bw, img, rows, cy, d, palette, rest);
    }
    assert rest == "";
    bw.Flush();
  }

  /** A line of cells with its reset; `rest` is the text of the lines from this one on. */
  method EmitLine(bw: BufWriter, img: array2<Pixel>, ghost rows: Picture, cy: nat, d: Depth, palette: array<Rgb>,
                  ghost rest: string) returns (ghost next: string)
    requires bw.Valid() && palette[..] == Palette256() && 2 * cy + 1 < img.Length0
    requires Rectangular(rows, img.Length1) && |rows| == img.Length0
    requires forall y, x :: 0 <= y < img.Length0 && 0 <= x < img.Length1 ==> img[y, x] == rows[y][x]
    requires rest == ImageText(rows[2 * cy..], img.Length1, SgrOf(d))
    modifies bw
    ensures bw.Valid() && next == ImageText(rows[2 * (cy + 1)..], img.Length1, SgrOf(d))
    ensures bw.Written() + next == old(bw.Written()) + rest
  {
    ghost var before, row := bw.Written(), RowText(rows[2 * cy], rows[2 * cy + 1], "", "", SgrOf(d));
    next := ImageText(rows[2 * (cy + 1)..], img.Length1, SgrOf(d));
    ImageTextNext(rows, img.Length1, cy, SgrOf(d));
    EmitRow(bw, img, rows, cy, d, palette);
    bw.WriteString(RESET + "\n");
    RegroupLine(before, row, RESET + "\n", next);
  }

  lemma RegroupLine(a: string, b: string, c: string, d: string)
    ensures a + b + c + d == a + (b + c + d)
  {
  }

  lemma ImageTextNext(rows: Picture, w: nat, cy: nat, sgr: Sgrs)
    requires Rectangular(rows, w) && 2 * cy + 1 < |rows|
    ensures ImageText(rows[2 * cy..], w, sgr)
         == RowText(rows[2 * cy], rows[2 * cy + 1], "", "", sgr) + (RESET + "\n") + ImageText(rows[2 * (cy + 1)..], w, sgr)
  {
    assert rows[2 * cy..][2..] == rows[2 * (cy + 1)..];
  }

  // ----- From the scaled image to the bytes -----

  ghost function Dithered(q: seq<Rgb>, img: Picture, w: nat, h: nat): (r: Picture)
    requires IsPicture(img, w, h)
    ensures IsPicture(r, w, h) && Rectangular(r, w)
    ensures forall y, x :: 0 <= y < h && 0 <= x < w ==> r[y][x] == Settled(q, Before(q, img, w, h, x, y))
  {
    seq(h, y requires 0 <= y < h => seq(w, x requires 0 <= x < w => Settled(q, Before(q, img, w, h, x, y))))
  }

  /** The picture that is emitted. */
  ghost function Emitted(d: Depth, floyd: bool, img: Picture, w: nat, h: nat): (r: Picture)
    requires IsPicture(img, w, h)
    ensures Rectangular(r, w) && |r| == h
  {
    if floyd && d != Truecolor then Dithered(PaletteOf(d), img, w, h) else img
  }

  method Convert(d: Depth, floyd: bool, img: Picture, w: nat, h: nat, bw: BufWriter)
    requires bw.Valid() && IsPicture(img, w, h)
    modifies bw
    ensures bw.Valid() && bw.sink == old(bw.Written()) + ImageText(Emitted(d, floyd, img, w, h), w, SgrOf(d))
  {
    var palette := BuildPalette256();
    ghost var rows := Emitted(d, floyd, img, w, h);
    var scaled: array2<Pixel>;
    if floyd && d != Truecolor {
      var q := if d == Depth256 then palette[..] else PALETTE16;
      scaled := FloydSteinberg(q, img, w, h);
    } else {
      scaled := new Pixel[h, w]((y, x) requires 0 <= y < h && 0 <= x < w => img[y][x]);
    }
    Emit(bw, scaled, rows, d, palette);
  }

  lemma DitheredInPalette(q: seq<Rgb>, img: Picture, w: nat, h: nat)
    requires IsPicture(img, w, h) && q != []
    ensures InPalette(Dithered(q, img, w, h), w, q)
  {
    var rows: Picture := Dithered(q, img, w, h);
    forall y, x | 0 <= y < h && 0 <= x < w ensures rows[y][x].rgb in q {
      assert Settled(q, Before(q, img, w, h, x, y)).rgb in q;
    }
  }

  /** A picture dithered for its palette and emitted is shown with exactly the dithered colours. */
  lemma ConversionIsExact(s: Screen, d: Depth, img: Picture, w: nat, h: nat)
    requires Blank(s) && IsPicture(img, w, h) && d != Truecolor
    ensures var rows := Emitted(d, true, img, w, h);
            var lines := LinesOf(rows, w, MeaningOf(d));
            && rows == Dithered(PaletteOf(d), img, w, h)
            && Feed(s, ImageText(rows, w, SgrOf(d))) == s.(above := s.above + lines)
            && Exactly(lines, rows, w)
  {
    var rows := Dithered(PaletteOf(d), img, w, h);
    EmittedPictureIsShown(s, rows, w, d);
    DitheredInPalette(PaletteOf(d), img, w, h);
    PalettePictureIsExact(LinesOf(rows, w, MeaningOf(d)), rows, w, PaletteOf(d));
  }
}
