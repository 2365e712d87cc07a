/** Inline chat images (internal/imaging/halfblock.go): one truecolor line of half blocks per two rows of
    pixels. The image is taken as scaled. */
module HalfBlock {
  import opened Common
  import opened Text
  import opened Palette
  import opened Dither
  import opened Terminal
  import opened AnsiConvert

  function LineText(img: Picture, w: nat, cy: nat): string
    requires Rectangular(img, w) && 2 * cy + 1 < |img|
  {
    RowText(img[2 * cy], img[2 * cy + 1], "", "", SgrOf(Truecolor)) + RESET
  }

  ghost predicate AreLines(out: seq<string>, img: Picture, w: nat)
    requires Rectangular(img, w)
  {
    2 * |out| <= |img| && forall cy :: 0 <= cy < |out| ==> out[cy] == LineText(img, w, cy)
  }

  lemma OneMoreLineText(out: seq<string>, line: string, img: Picture, w: nat)
    requires Rectangular(img, w) && AreLines(out, img, w)
    requires 2 * |out| + 1 < |img| && line == LineText(img, w, |out|)
    ensures AreLines(out + [line], img, w)
  {
  }

  method TruecolorSgr(fg: bool, c: Rgb) returns (s: string)
    ensures s == SgrOf(Truecolor)(fg, c)
  {
    var base := "38";
    if !fg {
      base := "48";
    }
    return base + ";2;" + Itoa(c.r) + ";" + Itoa(c.g) + ";" + Itoa(c.b);
  }

  /** One line per two rows of pixels; nothing for an empty image. */
  method RenderToAnsiLines(scaled: Picture, cellW: nat) returns (out: seq<string>)
    requires Rectangular(scaled, cellW)
    ensures |out| == if cellW == 0 then 0 else |scaled| / 2
    ensures AreLines(out, scaled, cellW)
  {
    var cellH := |scaled| / 2;
    if cellW == 0 || cellH == 0 {
      return [];
    }
    out := [];
    for cy := 0 to cellH
      invariant |out| == cy && AreLines(out, scaled, cellW)
    {
      var line := RenderLine(scaled[2 * cy], scaled[2 * cy + 1]);
      OneMoreLineText(out, line, scaled, cellW);
      out := out + [line];
    }
  }

  method RenderLine(top: seq<Pixel>, bottom: seq<Pixel>) returns (b: string)
    requires |top| == |bottom|
    ensures b == RowText(top, bottom, "", "", SgrOf(Truecolor)) + RESET
  {
    b := "";
    var lastFg, lastBg := "", "";
    ghost var sgr := SgrOf(Truecolor);
    ghost var all := RowText(top, bottom, "", "", sgr);
    ghost var rest := all;
    assert top[0..] == top && bottom[0..] == bottom;
    for cx := 0 to |top|
      invariant rest == RowText(top[cx..], bottom[cx..], lastFg, lastBg, sgr)
      invariant all == b + rest
    {
      RowTextNext(top, bottom, cx, lastFg, lastBg, sgr);
      var fg := TruecolorSgr(true, top[cx].rgb);
      var bg := TruecolorSgr(false, bottom[cx].rgb);
      var step := TransitionText(fg, bg, lastFg, lastBg);
      rest := RowText(top[cx + 1..], bottom[cx + 1..], fg, bg, sgr);
      Regroup(b, step, rest);
      b := b + step;
      lastFg, lastBg := fg, bg;
      b := b + BLOCK;
    }
    assert rest == "";
    b := b + RESET;
  }

  /** On a fresh terminal a line shows every pixel's own colour and leaves no colour behind. */
  lemma LineShowsPixels(s: Screen, img: Picture, w: nat, cy: nat, x: nat)
    requires Blank(s) && Rectangular(img, w) && 2 * cy + 1 < |img| && x < w
    ensures var after := Feed(s, LineText(img, w, cy));
            && |after.line| == w && after == s.(line := after.line)
            && after.line[x].glyph == BLOCK
            && Displayed(after.line[x].fg) == Some(img[2 * cy][x].rgb)
            && Displayed(after.line[x].bg) == Some(img[2 * cy + 1][x].rgb)
  {
    DepthIsFaithful(Truecolor);
    LineDecodes(s, img[2 * cy], img[2 * cy + 1], SgrOf(Truecolor), CodeOf(Truecolor), MeaningOf(Truecolor));
    CellAt(img[2 * cy], img[2 * cy + 1], MeaningOf(Truecolor), x);
    ShowsNearest(Truecolor, img[2 * cy][x].rgb);
    ShowsNearest(Truecolor, img[2 * cy + 1][x].rgb);
  }
}
