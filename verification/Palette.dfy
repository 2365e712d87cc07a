/** The colour palettes of cmd/ansiconvert/main.go and the search for the nearest entry. */
module Palette {

  type Byte = x: int | 0 <= x < 256

  datatype Rgb = Rgb(r: Byte, g: Byte, b: Byte)

  /** color.NRGBA. */
  datatype Pixel = Pixel(rgb: Rgb, a: Byte)

  datatype Depth = Truecolor | Depth256 | Depth16

  const PALETTE16: seq<Rgb> := [
    Rgb(0, 0, 0), Rgb(170, 0, 0), Rgb(0, 170, 0), Rgb(170, 85, 0),
    Rgb(0, 0, 170), Rgb(170, 0, 170), Rgb(0, 170, 170), Rgb(170, 170, 170),
    Rgb(85, 85, 85), Rgb(255, 85, 85), Rgb(85, 255, 85), Rgb(255, 255, 85),
    Rgb(85, 85, 255), Rgb(255, 85, 255), Rgb(85, 255, 255), Rgb(255, 255, 255)]

  const CUBE: seq<Byte> := [0, 95, 135, 175, 215, 255]

  /** Entry i of the xterm palette: the sixteen colours, the 6x6x6 cube, the grey ramp. */
  function Xterm(i: nat): Rgb
    requires i < 256
  {
    if i < 16 then PALETTE16[i]
    else if i < 232 then Rgb(CUBE[(i - 16) / 36], CUBE[(i - 16) / 6 % 6], CUBE[(i - 16) % 6])
    else Rgb(8 + (i - 232) * 10, 8 + (i - 232) * 10, 8 + (i - 232) * 10)
  }

  function Palette256(): (p: seq<Rgb>)
    ensures |p| == 256
  {
    seq(256, i requires 0 <= i < 256 => Xterm(i))
  }

  /** The corners of the cube, the ends of the grey ramp, and the first of the sixteen. */
  lemma XtermLandmarks()
    ensures Xterm(0) == Rgb(0, 0, 0) && Xterm(15) == Rgb(255, 255, 255)
    ensures Xterm(16) == Rgb(0, 0, 0) && Xterm(21) == Rgb(0, 0, 255) && Xterm(46) == Rgb(0, 255, 0) && Xterm(196) == Rgb(255, 0, 0)
    ensures Xterm(231) == Rgb(255, 255, 255) && Xterm(67) == Rgb(95, 135, 175)
    ensures Xterm(232) == Rgb(8, 8, 8) && Xterm(255) == Rgb(238, 238, 238)
  {
  }

  /** The sixteen colours: red, green and blue are the bits of the number, 170 in the dark half and 255 over 85 in the
      bright one, and dark yellow is brown. The cube's levels: zero, then 95 and up in steps of 40. */
  lemma SixteenColours(i: nat)
    requires i < 16
    ensures |PALETTE16| == 16
    ensures i < 8 && i != 3 ==> PALETTE16[i] == Rgb(170 * (i % 2), 170 * (i / 2 % 2), 170 * (i / 4))
    ensures i == 3 ==> PALETTE16[i] == Rgb(170, 85, 0)
    ensures i >= 8 ==> PALETTE16[i] == Rgb(85 + 170 * (i % 2), 85 + 170 * (i / 2 % 2), 85 + 170 * (i / 4 % 2))
    ensures |CUBE| == 6 && (i < 6 ==> CUBE[i] == if i == 0 then 0 else 55 + 40 * i)
  {
  }

  // ----- Nearest entry -----

  function Square(x: int): nat { x * x }

  function Distance(c: Rgb, d: Rgb): nat {
    Square(c.r - d.r) + Square(c.g - d.g) + Square(c.b - d.b)
  }

  lemma DistanceIsZero(c: Rgb, d: Rgb)
    ensures Distance(c, d) == 0 <==> c == d
  {
    SquareIsZero(c.r - d.r);
    SquareIsZero(c.g - d.g);
    SquareIsZero(c.b - d.b);
  }

  lemma SquareIsZero(x: int)
    ensures Square(x) == 0 <==> x == 0
  {
  }

  lemma SquareIsBounded(x: int)
    requires -255 <= x <= 255
    ensures Square(x) <= 65025
  {
    assert (255 - x) * (255 + x) >= 0;
  }

  lemma DistanceIsBounded(c: Rgb, d: Rgb)
    ensures Distance(c, d) < 0x4000_0000
  {
    SquareIsBounded(c.r - d.r);
    SquareIsBounded(c.g - d.g);
    SquareIsBounded(c.b - d.b);
  }

  /** Entry k is at the least distance, and the first such entry. */
  ghost predicate IsNearest(p: seq<Rgb>, c: Rgb, k: nat) {
    && k < |p|
    && (forall j :: 0 <= j < |p| ==> Distance(c, p[k]) <= Distance(c, p[j]))
    && (forall j :: 0 <= j < k ==> Distance(c, p[k]) < Distance(c, p[j]))
  }

  /** `e` is no closer to `c` than `d` is, by the squares of the differences in red, green and blue. */
  predicate NoCloser(c: Rgb, d: Rgb, e: Rgb) {
    (c.r - d.r) * (c.r - d.r) + (c.g - d.g) * (c.g - d.g) + (c.b - d.b) * (c.b - d.b)
    <= (c.r - e.r) * (c.r - e.r) + (c.g - e.g) * (c.g - e.g) + (c.b - e.b) * (c.b - e.b)
  }

  lemma NearestIsNoFarther(p: seq<Rgb>, c: Rgb, k: nat)
    requires IsNearest(p, c, k)
    ensures forall j :: 0 <= j < |p| ==> NoCloser(c, p[k], p[j])
    ensures forall j :: 0 <= j < k ==> !NoCloser(c, p[j], p[k])
  {
    forall j | 0 <= j < |p| ensures NoCloser(c, p[k], p[j]) <==> Distance(c, p[k]) <= Distance(c, p[j]) {
      DistanceOrders(c, p[k], p[j]);
    }
    forall j | 0 <= j < k ensures NoCloser(c, p[j], p[k]) <==> Distance(c, p[j]) <= Distance(c, p[k]) {
      DistanceOrders(c, p[j], p[k]);
    }
  }

  lemma DistanceOrders(c: Rgb, d: Rgb, e: Rgb)
    ensures NoCloser(c, d, e) <==> Distance(c, d) <= Distance(c, e)
  {
  }

  lemma NearestIsUnique(p: seq<Rgb>, c: Rgb, k: nat, l: nat)
    requires IsNearest(p, c, k) && IsNearest(p, c, l)
    ensures k == l
  {
    assert Distance(c, p[k]) <= Distance(c, p[l]);
    assert Distance(c, p[l]) <= Distance(c, p[k]);
  }

  function Nearest(p: seq<Rgb>, c: Rgb): (k: nat)
    requires p != []
    ensures IsNearest(p, c, k)
  {
    if |p| == 1 then 0
    else
      var k := Nearest(p[..|p| - 1], c);
      if Distance(c, p[|p| - 1]) < Distance(c, p[k]) then |p| - 1 else k
  }

  /** The colour a pixel gets: the nearest entry, or itself without a palette. */
  function Quantised(p: seq<Rgb>, c: Rgb): (q: Rgb)
    ensures p != [] ==> q in p
    ensures c in p ==> q == c
  {
    if p == [] then c
    else
      assert c in p ==> p[Nearest(p, c)] == c by {
        if c in p {
          var j :| 0 <= j < |p| && p[j] == c;
          DistanceIsZero(c, p[j]);
          DistanceIsZero(c, p[Nearest(p, c)]);
        }
      }
      p[Nearest(p, c)]
  }

  /** nearest256 and nearest16. */
  method NearestIndex(p: seq<Rgb>, c: Rgb) returns (best: nat)
    requires p != []
    ensures best == Nearest(p, c)
    ensures best < |p| && forall j :: 0 <= j < |p| ==> NoCloser(c, p[best], p[j])
    ensures forall j :: 0 <= j < best ==> !NoCloser(c, p[j], p[best])
  {
    best := 0;
    var bestD := 0x4000_0000;
    for i := 0 to |p|
      invariant i == 0 ==> best == 0 && bestD == 0x4000_0000
      invariant i > 0 ==> IsNearest(p[..i], c, best) && bestD == Distance(c, p[best])
    {
      var dr, dg, db := c.r - p[i].r, c.g - p[i].g, c.b - p[i].b;
      var d := Square(dr) + Square(dg) + Square(db);
      DistanceIsBounded(c, p[i]);
      assert p[..i + 1][..i] == p[..i];
      if d < bestD {
        bestD := d;
        best := i;
      }
    }
    assert p[..|p|] == p;
    NearestIsUnique(p, c, best, Nearest(p, c));
    NearestIsNoFarther(p, c, best);
  }

  // ----- Building the table -----

  method BuildPalette256() returns (palette: array<Rgb>)
    ensures fresh(palette) && palette[..] == Palette256()
  {
    palette := new Rgb[256](_ => Rgb(0, 0, 0));
    for i := 0 to 16
      invariant forall k :: 0 <= k < i ==> palette[k] == Xterm(k)
    {
      palette[i] := PALETTE16[i];
    }
    ghost var table := Palette256();
    CubeOf(table);
    FillCube(palette, table);
    assert forall k :: 0 <= k < 232 ==> palette[k] == Xterm(k) by {
      assert forall k :: 0 <= k < 232 ==> palette[k] == table[k] == Xterm(k);
    }
    for i := 0 to 24
      invariant forall k :: 0 <= k < 232 + i ==> palette[k] == Xterm(k)
    {
      var v: Byte := 8 + i * 10;
      palette[232 + i] := Rgb(v, v, v);
    }
    assert forall k :: 0 <= k < 256 ==> palette[..][k] == Palette256()[k];
  }

  /** The entry of `table` for the digits r, g, b. */
  predicate CubeAt(table: seq<Rgb>, r: int, g: int, b: int) {
    |table| == 256 && 0 <= r < 6 && 0 <= g < 6 && 0 <= b < 6 && table[16 + 36 * r + 6 * g + b] == Rgb(CUBE[r], CUBE[g], CUBE[b])
  }

  lemma CubeOf(table: seq<Rgb>)
    requires |table| == 256 && forall i :: 0 <= i < 256 ==> table[i] == Xterm(i)
    ensures forall r, g, b :: 0 <= r < 6 && 0 <= g < 6 && 0 <= b < 6 ==> CubeAt(table, r, g, b)
  {
    forall r, g, b | 0 <= r < 6 && 0 <= g < 6 && 0 <= b < 6 ensures CubeAt(table, r, g, b) {
      CubeEntry(r, g, b);
    }
  }

  method FillCube(palette: array<Rgb>, ghost table: seq<Rgb>)
    requires palette.Length == 256 == |table|
    requires forall r, g, b :: 0 <= r < 6 && 0 <= g < 6 && 0 <= b < 6 ==> CubeAt(table, r, g, b)
    requires forall k :: 0 <= k < 16 ==> palette[k] == table[k]
    modifies palette
    ensures forall k :: 0 <= k < 232 ==> palette[k] == table[k]
  {
    var idx := 16;
    for r := 0 to 6
      invariant idx == 16 + 36 * r
      invariant forall k :: 0 <= k < idx ==> palette[k] == table[k]
    {
      for g := 0 to 6
        invariant idx == 16 + 36 * r + 6 * g
        invariant forall k :: 0 <= k < idx ==> palette[k] == table[k]
      {
        for b := 0 to 6
          invariant idx == 16 + 36 * r + 6 * g + b
          invariant forall k :: 0 <= k < idx ==> palette[k] == table[k]
        {
          assert CubeAt(table, r, g, b);
          palette[idx] := Rgb(CUBE[r], CUBE[g], CUBE[b]);
          idx := idx + 1;
        }
      }
    }
  }

  lemma CubeDigits(r: nat, g: nat, b: nat)
    requires r < 6 && g < 6 && b < 6
    ensures var n := 36 * r + 6 * g + b; n / 36 == r && n / 6 % 6 == g && n % 6 == b
  {
    var n := 36 * r + 6 * g + b;
    assert n / 6 == 6 * r + g;
  }

  lemma CubeEntry(r: nat, g: nat, b: nat)
    requires r < 6 && g < 6 && b < 6
    ensures Xterm(16 + 36 * r + 6 * g + b) == Rgb(CUBE[r], CUBE[g], CUBE[b])
  {
    CubeDigits(r, g, b);
  }
}
