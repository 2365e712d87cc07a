/** Floyd-Steinberg dithering in place (cmd/ansiconvert/main.go): each pixel is replaced by its nearest
    palette colour and the error pushed to four neighbours not yet visited.

    `Before` says the same from the receiving end: what a pixel has collected when its turn comes. */
module Dither {
  import opened Common
  import opened Palette

  /** Rows of pixels, from the top. */
  type Picture = seq<seq<Pixel>>

  ghost predicate IsPicture(img: Picture, w: nat, h: nat) {
    |img| == h && forall y :: 0 <= y < h ==> |img[y]| == w
  }

  datatype Error = Error(r: int, g: int, b: int)

  /** Division by 16 towards zero. */
  function Sixteenth(n: int): int {
    if n < 0 then 0 - (0 - n) / 16 else n / 16
  }

  function Clip(v: int): Byte {
    if v < 0 then 0 else if v > 0xFF then 0xFF else v
  }

  lemma FullScale(c: Byte, t: int)
    requires 0 <= t <= 255 * c
    ensures 0 <= t * 257 / 255 / 256 <= c
    ensures t == 255 * c ==> t * 257 / 255 / 256 == c
  {
    assert t * 257 / 255 <= 257 * c;
  }

  lemma Scaled(c: Byte, a: Byte)
    ensures 0 <= c * a <= 255 * c
  {
    MulMonotone(c, 0, a);
    MulMonotone(c, a, 255);
  }

  lemma Reordered(c: int, a: int)
    ensures c * 257 * a == c * a * 257
  {
  }

  lemma TwoDivisions(t: nat)
    ensures 65280 * (t / 255 / 256) <= t < 65280 * (t / 255 / 256 + 1)
  {
  }

  /** Eight bits of the alpha-premultiplied component that RGBA() reports. */
  function Premultiplied(c: Byte, a: Byte): (r: Byte)
    ensures a == 255 ==> r == c
    ensures r <= c
    ensures 65280 * r <= 257 * (c * a) < 65280 * (r + 1)
  {
    Scaled(c, a);
    Reordered(c, a);
    FullScale(c, c * a);
    TwoDivisions(257 * (c * a));
    c * 257 * a / 255 / 256
  }

  function Read(p: Pixel): Rgb {
    Rgb(Premultiplied(p.rgb.r, p.a), Premultiplied(p.rgb.g, p.a), Premultiplied(p.rgb.b, p.a))
  }

  /** What quantising pixel `p` with palette `q` leaves over. */
  function Leftover(q: seq<Rgb>, p: Pixel): Error {
    var c, n := Read(p), Quantised(q, Read(p));
    Error(c.r - n.r, c.g - n.g, c.b - n.b)
  }

  function Settled(q: seq<Rgb>, p: Pixel): Pixel {
    Pixel(Quantised(q, Read(p)), 0xFF)
  }

  /** diffuse at one pixel. */
  function Plus(p: Pixel, e: Error, weight: int): Pixel {
    p.(rgb := Rgb(Clip(p.rgb.r + Sixteenth(e.r * weight)), Clip(p.rgb.g + Sixteenth(e.g * weight)),
                  Clip(p.rgb.b + Sixteenth(e.b * weight))))
  }

  // ----- What a share is -----

  /** `m` is n sixteenths, cut off towards zero. */
  predicate CutOff(m: int, n: int) {
    if n >= 0 then 0 <= 16 * m <= n < 16 * m + 16 else 16 * m - 16 < n <= 16 * m <= 0
  }

  /** A channel that goes from `v` to `r` when it gets `weight` sixteenths of the error `e`: it moves by them as
      far as there is room. */
  ghost predicate Moves(v: Byte, r: Byte, e: int, weight: int) {
    exists m :: CutOff(m, e * weight) && MovesBy(v, r, m)
  }

  predicate MovesBy(v: Byte, r: Byte, m: int) {
    && (0 <= v + m <= 255 ==> r == v + m)
    && (v + m < 0 ==> r == 0)
    && (v + m > 255 ==> r == 255)
  }

  ghost predicate GetsShare(p: Pixel, r: Pixel, e: Error, weight: int) {
    && Moves(p.rgb.r, r.rgb.r, e.r, weight) && Moves(p.rgb.g, r.rgb.g, e.g, weight)
    && Moves(p.rgb.b, r.rgb.b, e.b, weight) && r.a == p.a
  }

  lemma SixteenthIsCutOff(n: int)
    ensures CutOff(Sixteenth(n), n)
  {
  }

  /** diffuse adds the share and nothing else. */
  lemma PlusGivesShare(p: Pixel, e: Error, weight: int)
    ensures GetsShare(p, Plus(p, e, weight), e, weight)
  {
    SixteenthIsCutOff(e.r * weight);
    SixteenthIsCutOff(e.g * weight);
    SixteenthIsCutOff(e.b * weight);
    var r := Plus(p, e, weight);
    assert MovesBy(p.rgb.r, r.rgb.r, Sixteenth(e.r * weight));
    assert MovesBy(p.rgb.g, r.rgb.g, Sixteenth(e.g * weight));
    assert MovesBy(p.rgb.b, r.rgb.b, Sixteenth(e.b * weight));
  }

  /** A share is determined: it is the only pixel that meets the description. */
  lemma ShareIsUnique(p: Pixel, r: Pixel, s: Pixel, e: Error, weight: int)
    requires GetsShare(p, r, e, weight) && GetsShare(p, s, e, weight)
    ensures r == s
  {
  }

  /** `n` is what the pixel `p` is settled to: opaque, the nearest palette colour of what it reads as (the first
      of them), or just that without a palette. */
  ghost predicate SettlesTo(q: seq<Rgb>, p: Pixel, n: Pixel) {
    && n.a == 0xFF
    && (q == [] ==> n.rgb == Read(p))
    && (q != [] ==> exists k: nat :: IsNearest(q, Read(p), k) && n.rgb == q[k])
  }

  /** The error between what `p` reads as and the colour it was settled to. */
  function Missed(p: Pixel, n: Pixel): Error {
    Error(Read(p).r - n.rgb.r, Read(p).g - n.rgb.g, Read(p).b - n.rgb.b)
  }

  lemma SettledSettles(q: seq<Rgb>, p: Pixel)
    ensures SettlesTo(q, p, Settled(q, p)) && Leftover(q, p) == Missed(p, Settled(q, p))
  {
    if q != [] {
      assert IsNearest(q, Read(p), Nearest(q, Read(p)));
    }
  }

  /** The share a pixel at (dx, dy) from the settled one gets. */
  function Share(dx: int, dy: int): int {
    if dx == 1 && dy == 0 then 7
    else if dx == -1 && dy == 1 then 3
    else if dx == 0 && dy == 1 then 5
    else if dx == 1 && dy == 1 then 1 else 0
  }

  // ----- From the receiving end -----

  /** Raster order: (x, y) comes before (cx, cy). */
  predicate Earlier(x: int, y: int, cx: int, cy: int) {
    y < cy || (y == cy && x < cx)
  }

  /** The pixel at (x, y) when its turn comes: the original plus, in raster order of its neighbours, a
      sixteenth, five, three and seven sixteenths of what each of them left over. */
  ghost function Before(q: seq<Rgb>, img: Picture, w: nat, h: nat, x: int, y: int): Pixel
    requires IsPicture(img, w, h) && 0 <= x < w && 0 <= y < h
    decreases y, x
  {
    var p0 := img[y][x];
    var p1 := if y > 0 && x > 0 then Plus(p0, Leftover(q, Before(q, img, w, h, x - 1, y - 1)), 1) else p0;
    var p2 := if y > 0 then Plus(p1, Leftover(q, Before(q, img, w, h, x, y - 1)), 5) else p1;
    var p3 := if y > 0 && x + 1 < w then Plus(p2, Leftover(q, Before(q, img, w, h, x + 1, y - 1)), 3) else p2;
    if x > 0 then Plus(p3, Leftover(q, Before(q, img, w, h, x - 1, y)), 7) else p3
  }

  /** The pixel at each place when its turn comes. */
  type Turns = (int, int) -> Pixel

  ghost function TurnsOf(q: seq<Rgb>, img: Picture, w: nat, h: nat): Turns
    requires IsPicture(img, w, h)
  {
    (x, y) => if 0 <= x < w && 0 <= y < h then Before(q, img, w, h, x, y) else Pixel(Rgb(0, 0, 0), 0)
  }

  /** A pixel with its share of what the neighbour at the place given left over. */
  type Pull = (Pixel, int, int, int) -> Pixel

  ghost function PullOf(q: seq<Rgb>, turns: Turns): Pull {
    (p, x, y, weight) => Plus(p, Leftover(q, turns(x, y)), weight)
  }

  /** The share of the neighbour at (x, y), once it has been settled. */
  ghost function Received(pull: Pull, w: nat, h: nat, p: Pixel, x: int, y: int, weight: int, cx: int, cy: int): Pixel {
    if 0 <= x < w && 0 <= y < h && Earlier(x, y, cx, cy) then pull(p, x, y, weight) else p
  }

  /** What the pixel `p` at (x, y) has collected when everything before (cx, cy) is settled. */
  ghost function Collected(pull: Pull, w: nat, h: nat, p: Pixel, x: int, y: int, cx: int, cy: int): Pixel {
    var p1 := Received(pull, w, h, p, x - 1, y - 1, 1, cx, cy);
    var p2 := Received(pull, w, h, p1, x, y - 1, 5, cx, cy);
    var p3 := Received(pull, w, h, p2, x + 1, y - 1, 3, cx, cy);
    Received(pull, w, h, p3, x - 1, y, 7, cx, cy)
  }

  ghost function Meanwhile(q: seq<Rgb>, turns: Turns, w: nat, h: nat, p: Pixel, x: int, y: int, cx: int, cy: int): Pixel
  {
    if Earlier(x, y, cx, cy) then Settled(q, turns(x, y)) else Collected(PullOf(q, turns), w, h, p, x, y, cx, cy)
  }

  ghost function InTurn(pull: Pull, w: nat, p: Pixel, x: int, y: int): Pixel {
    var p1 := if y > 0 && x > 0 then pull(p, x - 1, y - 1, 1) else p;
    var p2 := if y > 0 then pull(p1, x, y - 1, 5) else p1;
    var p3 := if y > 0 && x + 1 < w then pull(p2, x + 1, y - 1, 3) else p2;
    if x > 0 then pull(p3, x - 1, y, 7) else p3
  }

  lemma CollectedInTurn(pull: Pull, w: nat, h: nat, p: Pixel, x: int, y: int)
    requires 0 <= x < w && 0 <= y < h
    ensures Collected(pull, w, h, p, x, y, x, y) == InTurn(pull, w, p, x, y)
  {
  }

  lemma PullIs(q: seq<Rgb>, img: Picture, w: nat, h: nat, p: Pixel, x: int, y: int, weight: int)
    requires IsPicture(img, w, h) && 0 <= x < w && 0 <= y < h
    ensures PullOf(q, TurnsOf(q, img, w, h))(p, x, y, weight) == Plus(p, Leftover(q, Before(q, img, w, h, x, y)), weight)
  {
  }

  lemma BeforeIsInTurn(q: seq<Rgb>, img: Picture, w: nat, h: nat, x: int, y: int)
    requires IsPicture(img, w, h) && 0 <= x < w && 0 <= y < h
    ensures InTurn(PullOf(q, TurnsOf(q, img, w, h)), w, img[y][x], x, y) == Before(q, img, w, h, x, y)
  {
    var pull, p := PullOf(q, TurnsOf(q, img, w, h)), img[y][x];
    forall v: Pixel, i, j, weight | 0 <= i < w && 0 <= j < h
      ensures pull(v, i, j, weight) == Plus(v, Leftover(q, Before(q, img, w, h, i, j)), weight)
    {
      PullIs(q, img, w, h, v, i, j, weight);
    }
  }

  lemma TurnHasCome(q: seq<Rgb>, img: Picture, w: nat, h: nat, x: int, y: int)
    requires IsPicture(img, w, h) && 0 <= x < w && 0 <= y < h
    ensures var turns := TurnsOf(q, img, w, h);
            Meanwhile(q, turns, w, h, img[y][x], x, y, x, y) == Before(q, img, w, h, x, y) == turns(x, y)
  {
    CollectedInTurn(PullOf(q, TurnsOf(q, img, w, h)), w, h, img[y][x], x, y);
    BeforeIsInTurn(q, img, w, h, x, y);
  }

  /** Each share arrives after the ones before it in the chain: the neighbours are settled in that order. */
  lemma CollectedNext(pull: Pull, w: nat, h: nat, p: Pixel, x: int, y: int, cx: int, cy: int)
    requires 0 <= cx < w && 0 <= cy < h && !Earlier(x, y, cx + 1, cy)
    ensures var v, weight := Collected(pull, w, h, p, x, y, cx, cy), Share(x - cx, y - cy);
            Collected(pull, w, h, p, x, y, cx + 1, cy) == if weight != 0 then pull(v, cx, cy, weight) else v
  {
  }

  /** What settling a pixel that holds `p` does to the pixel `v` at (dx, dy) from it. */
  function Pushed(q: seq<Rgb>, v: Pixel, p: Pixel, dx: int, dy: int): Pixel {
    if dx == 0 && dy == 0 then Settled(q, p)
    else if Share(dx, dy) != 0 then Plus(v, Leftover(q, p), Share(dx, dy)) else v
  }

  /** Settling (cx, cy) changes every pixel as the pushes do. */
  lemma OneMoreSettled(q: seq<Rgb>, turns: Turns, w: nat, h: nat, p: Pixel, x: int, y: int, cx: int, cy: int)
    requires 0 <= x < w && 0 <= y < h && 0 <= cx < w && 0 <= cy < h
    ensures Meanwhile(q, turns, w, h, p, x, y, cx + 1, cy)
         == Pushed(q, Meanwhile(q, turns, w, h, p, x, y, cx, cy), turns(cx, cy), x - cx, y - cy)
  {
    if !Earlier(x, y, cx + 1, cy) {
      CollectedNext(PullOf(q, turns), w, h, p, x, y, cx, cy);
    }
  }

  lemma NextRow(q: seq<Rgb>, turns: Turns, w: nat, h: nat, p: Pixel, x: int, y: int, cy: int)
    requires 0 <= x < w && 0 <= y < h
    ensures Meanwhile(q, turns, w, h, p, x, y, w, cy) == Meanwhile(q, turns, w, h, p, x, y, 0, cy + 1)
  {
  }

  // ----- In place -----

  method Diffuse(img: array2<Pixel>, x: int, y: int, e: Error, weight: int)
    modifies img
    ensures forall i, j :: 0 <= i < img.Length0 && 0 <= j < img.Length1 ==>
              img[i, j] == if i == y && j == x then Plus(old(img[i, j]), e, weight) else old(img[i, j])
    ensures 0 <= y < img.Length0 && 0 <= x < img.Length1 ==> GetsShare(old(img[y, x]), img[y, x], e, weight)
  {
    if x < 0 || y < 0 || x >= img.Length1 || y >= img.Length0 {
      return;
    }
    var p := img[y, x];
    PlusGivesShare(p, e, weight);
    img[y, x] := p.(rgb := Rgb(Clip(p.rgb.r + Sixteenth(e.r * weight)), Clip(p.rgb.g + Sixteenth(e.g * weight)),
                               Clip(p.rgb.b + Sixteenth(e.b * weight))));
  }

  /** What one iteration does to the pixel `v` at (dx, dy) from the pixel `p` that is settled to `n`: the neighbour
      to the right gets seven sixteenths of the error, and the three below three, five and one. */
  ghost predicate Shared(v: Pixel, r: Pixel, p: Pixel, n: Pixel, dx: int, dy: int) {
    if dx == 0 && dy == 0 then r == n
    else if dx == 1 && dy == 0 then GetsShare(v, r, Missed(p, n), 7)
    else if dx == -1 && dy == 1 then GetsShare(v, r, Missed(p, n), 3)
    else if dx == 0 && dy == 1 then GetsShare(v, r, Missed(p, n), 5)
    else if dx == 1 && dy == 1 then GetsShare(v, r, Missed(p, n), 1)
    else r == v
  }

  lemma PushedIsShared(q: seq<Rgb>, v: Pixel, p: Pixel, dx: int, dy: int)
    ensures Shared(v, Pushed(q, v, p, dx, dy), p, Settled(q, p), dx, dy)
  {
    SettledSettles(q, p);
    PlusGivesShare(v, Leftover(q, p), Share(dx, dy));
  }

  /** One pixel settled, its error pushed to the four neighbours. */
  method DitherPixel(q: seq<Rgb>, out: array2<Pixel>, x: nat, y: nat)
    requires x < out.Length1 && y < out.Length0
    modifies out
    ensures forall i, j :: 0 <= i < out.Length0 && 0 <= j < out.Length1 ==>
              out[i, j] == Pushed(q, old(out[i, j]), old(out[y, x]), j - x, i - y)
    ensures SettlesTo(q, old(out[y, x]), out[y, x])
    ensures forall i, j :: 0 <= i < out.Length0 && 0 <= j < out.Length1 ==>
              Shared(old(out[i, j]), out[i, j], old(out[y, x]), out[y, x], j - x, i - y)
  {
    ghost var p := out[y, x];
    SettledSettles(q, p);
    forall i, j | 0 <= i < out.Length0 && 0 <= j < out.Length1
      ensures Shared(out[i, j], Pushed(q, out[i, j], p, j - x, i - y), p, Settled(q, p), j - x, i - y)
    {
      PushedIsShared(q, out[i, j], p, j - x, i - y);
    }
    var c := Read(out[y, x]);
    var n := c;
    if |q| > 0 {
      var idx := NearestIndex(q, c);
      n := q[idx];
    }
    var e := Error(c.r - n.r, c.g - n.g, c.b - n.b);
    assert e == Leftover(q, out[y, x]) && n == Quantised(q, c);
    out[y, x] := Pixel(n, 0xFF);
    Diffuse(out, x + 1, y, e, 7);
    Diffuse(out, x - 1, y + 1, e, 3);
    Diffuse(out, x, y + 1, e, 5);
    Diffuse(out, x + 1, y + 1, e, 1);
  }

  /** Everything before (cx, cy) is settled. */
  ghost predicate Stands(out: array2<Pixel>, q: seq<Rgb>, img: Picture, w: nat, h: nat, cx: int, cy: int)
    requires IsPicture(img, w, h) && out.Length0 == h && out.Length1 == w
    reads out
  {
    forall y, x :: 0 <= y < h && 0 <= x < w ==>
      out[y, x] == Meanwhile(q, TurnsOf(q, img, w, h), w, h, img[y][x], x, y, cx, cy)
  }

  method DitherNext(q: seq<Rgb>, out: array2<Pixel>, ghost img: Picture, w: nat, h: nat, cx: nat, cy: nat)
    requires IsPicture(img, w, h) && out.Length0 == h && out.Length1 == w && cx < w && cy < h
    requires Stands(out, q, img, w, h, cx, cy)
    modifies out
    ensures Stands(out, q, img, w, h, cx + 1, cy)
  {
    ghost var turns := TurnsOf(q, img, w, h);
    TurnHasCome(q, img, w, h, cx, cy);
    assert out[cy, cx] == turns(cx, cy);
    DitherPixel(q, out, cx, cy);
    forall y, x | 0 <= y < h && 0 <= x < w
      ensures out[y, x] == Meanwhile(q, turns, w, h, img[y][x], x, y, cx + 1, cy)
    {
      OneMoreSettled(q, turns, w, h, img[y][x], x, y, cx, cy);
    }
  }

  lemma StandsNextRow(out: array2<Pixel>, q: seq<Rgb>, img: Picture, w: nat, h: nat, cy: nat)
    requires IsPicture(img, w, h) && out.Length0 == h && out.Length1 == w && Stands(out, q, img, w, h, w, cy)
    ensures Stands(out, q, img, w, h, 0, cy + 1)
  {
    ghost var turns := TurnsOf(q, img, w, h);
    forall y, x | 0 <= y < h && 0 <= x < w
      ensures out[y, x] == Meanwhile(q, turns, w, h, img[y][x], x, y, 0, cy + 1)
    {
      NextRow(q, turns, w, h, img[y][x], x, y, cy);
    }
  }

  lemma StandsAtStart(out: array2<Pixel>, q: seq<Rgb>, img: Picture, w: nat, h: nat)
    requires IsPicture(img, w, h) && out.Length0 == h && out.Length1 == w
    requires forall y, x :: 0 <= y < h && 0 <= x < w ==> out[y, x] == img[y][x]
    ensures Stands(out, q, img, w, h, 0, 0)
  {
    forall y, x | 0 <= y < h && 0 <= x < w
      ensures out[y, x] == Meanwhile(q, TurnsOf(q, img, w, h), w, h, img[y][x], x, y, 0, 0)
    {
      NothingYet(q, TurnsOf(q, img, w, h), w, h, img[y][x], x, y);
    }
  }

  lemma StandsAtEnd(out: array2<Pixel>, q: seq<Rgb>, img: Picture, w: nat, h: nat)
    requires IsPicture(img, w, h) && out.Length0 == h && out.Length1 == w && Stands(out, q, img, w, h, 0, h)
    ensures forall y, x :: 0 <= y < h && 0 <= x < w ==> out[y, x] == Settled(q, Before(q, img, w, h, x, y))
  {
  }

  // ----- What the picture is -----

  /** What `r` is once the neighbour at (x, y), if there is one, has passed on its share to `p`. */
  ghost predicate Passed(p: Pixel, r: Pixel, turn: Turns, ended: Turns, w: nat, x: int, y: int, weight: int) {
    if 0 <= x < w && 0 <= y then GetsShare(p, r, Missed(turn(x, y), ended(x, y)), weight) else r == p
  }

  /** How the neighbour at a place passes its share on. */
  type Pass = (Pixel, Pixel, int, int, int) -> bool

  ghost function Passing(turn: Turns, ended: Turns, w: nat): Pass {
    (p, r, x, y, weight) => Passed(p, r, turn, ended, w, x, y, weight)
  }

  /** The shares of the four neighbours before (x, y), in the order in which those are settled: a sixteenth, five,
      three and seven. */
  ghost predicate Chain(pass: Pass, p: Pixel, p1: Pixel, p2: Pixel, p3: Pixel, r: Pixel, x: int, y: int) {
    pass(p, p1, x - 1, y - 1, 1) && pass(p1, p2, x, y - 1, 5) && pass(p2, p3, x + 1, y - 1, 3) && pass(p3, r, x - 1, y, 7)
  }

  ghost predicate Chained(pass: Pass, p: Pixel, r: Pixel, x: int, y: int) {
    exists p1, p2, p3 :: Chain(pass, p, p1, p2, p3, r, x, y)
  }

  /** When the turn of (x, y) comes, it has all of them. */
  ghost predicate HoldsShares(p: Pixel, turn: Turns, ended: Turns, w: nat, x: int, y: int) {
    Chained(Passing(turn, ended, w), p, turn(x, y), x, y)
  }

  /** `turn` is what the pixels hold in their turns, and `ended` what they are settled to. */
  ghost predicate Diffusion(q: seq<Rgb>, img: Picture, w: nat, h: nat, turn: Turns, ended: Turns)
    requires IsPicture(img, w, h)
  {
    forall y, x :: 0 <= y < h && 0 <= x < w ==> DiffusionAt(q, img[y][x], w, turn, ended, x, y)
  }

  ghost predicate DiffusionAt(q: seq<Rgb>, p: Pixel, w: nat, turn: Turns, ended: Turns, x: int, y: int) {
    HoldsShares(p, turn, ended, w, x, y) && SettlesTo(q, turn(x, y), ended(x, y))
  }

  ghost function EndsOf(q: seq<Rgb>, turn: Turns): Turns {
    (x, y) => Settled(q, turn(x, y))
  }

  /** The neighbour's share, if there is a neighbour. */
  ghost function Pulled(pull: Pull, w: nat, p: Pixel, x: int, y: int, weight: int): Pixel {
    if 0 <= x < w && 0 <= y then pull(p, x, y, weight) else p
  }

  lemma PullPasses(q: seq<Rgb>, turns: Turns, w: nat, p: Pixel, x: int, y: int, weight: int)
    ensures Passed(p, Pulled(PullOf(q, turns), w, p, x, y, weight), turns, EndsOf(q, turns), w, x, y, weight)
  {
    SettledSettles(q, turns(x, y));
    PlusGivesShare(p, Leftover(q, turns(x, y)), weight);
  }

  lemma InTurnPulls(pull: Pull, w: nat, p: Pixel, x: int, y: int)
    requires 0 <= x < w && 0 <= y
    ensures var p1 := Pulled(pull, w, p, x - 1, y - 1, 1);
            var p2 := Pulled(pull, w, p1, x, y - 1, 5);
            var p3 := Pulled(pull, w, p2, x + 1, y - 1, 3);
            InTurn(pull, w, p, x, y) == Pulled(pull, w, p3, x - 1, y, 7)
  {
  }

  lemma InTurnHoldsShares(q: seq<Rgb>, turns: Turns, w: nat, p: Pixel, x: int, y: int)
    requires 0 <= x < w && 0 <= y && turns(x, y) == InTurn(PullOf(q, turns), w, p, x, y)
    ensures HoldsShares(p, turns, EndsOf(q, turns), w, x, y)
  {
    var pull := PullOf(q, turns);
    var p1 := Pulled(pull, w, p, x - 1, y - 1, 1);
    var p2 := Pulled(pull, w, p1, x, y - 1, 5);
    var p3 := Pulled(pull, w, p2, x + 1, y - 1, 3);
    InTurnPulls(pull, w, p, x, y);
    PullPasses(q, turns, w, p, x - 1, y - 1, 1);
    PullPasses(q, turns, w, p1, x, y - 1, 5);
    PullPasses(q, turns, w, p2, x + 1, y - 1, 3);
    PullPasses(q, turns, w, p3, x - 1, y, 7);
    ChainHolds(p, p1, p2, p3, turns, EndsOf(q, turns), w, x, y);
  }

  lemma ChainHolds(p: Pixel, p1: Pixel, p2: Pixel, p3: Pixel, turn: Turns, ended: Turns, w: nat, x: int, y: int)
    requires Passed(p, p1, turn, ended, w, x - 1, y - 1, 1) && Passed(p1, p2, turn, ended, w, x, y - 1, 5)
    requires Passed(p2, p3, turn, ended, w, x + 1, y - 1, 3) && Passed(p3, turn(x, y), turn, ended, w, x - 1, y, 7)
    ensures HoldsShares(p, turn, ended, w, x, y)
  {
    assert Chain(Passing(turn, ended, w), p, p1, p2, p3, turn(x, y), x, y);
  }

  lemma TurnsDiffuse(q: seq<Rgb>, img: Picture, w: nat, h: nat)
    requires IsPicture(img, w, h)
    ensures Diffusion(q, img, w, h, TurnsOf(q, img, w, h), EndsOf(q, TurnsOf(q, img, w, h)))
  {
    var turns := TurnsOf(q, img, w, h);
    forall y, x | 0 <= y < h && 0 <= x < w
      ensures DiffusionAt(q, img[y][x], w, turns, EndsOf(q, turns), x, y)
    {
      BeforeIsInTurn(q, img, w, h, x, y);
      InTurnHoldsShares(q, turns, w, img[y][x], x, y);
      SettledSettles(q, turns(x, y));
    }
  }

  lemma PassedIsUnique(p: Pixel, r: Pixel, s: Pixel, turn: Turns, ended: Turns, turn': Turns, ended': Turns,
                       w: nat, x: int, y: int, weight: int)
    requires Passed(p, r, turn, ended, w, x, y, weight) && Passed(p, s, turn', ended', w, x, y, weight)
    requires SameAt(turn, ended, turn', ended', w, x, y)
    ensures r == s
  {
    if 0 <= x < w && 0 <= y {
      ShareIsUnique(p, r, s, Missed(turn(x, y), ended(x, y)), weight);
    }
  }

  lemma SettlesToOne(q: seq<Rgb>, p: Pixel, n: Pixel, m: Pixel)
    requires SettlesTo(q, p, n) && SettlesTo(q, p, m)
    ensures n == m
  {
    if q != [] {
      var k: nat :| IsNearest(q, Read(p), k) && n.rgb == q[k];
      var l: nat :| IsNearest(q, Read(p), l) && m.rgb == q[l];
      NearestIsUnique(q, Read(p), k, l);
    }
  }

  ghost predicate SameAt(turn: Turns, ended: Turns, turn': Turns, ended': Turns, w: nat, x: int, y: int) {
    0 <= x < w && 0 <= y ==> turn(x, y) == turn'(x, y) && ended(x, y) == ended'(x, y)
  }

  lemma SameChain(pass: Pass, pass': Pass, p: Pixel, r: Pixel, s: Pixel, x: int, y: int)
    requires Chained(pass, p, r, x, y) && Chained(pass', p, s, x, y)
    requires Agree(pass, pass', x - 1, y - 1, 1) && Agree(pass, pass', x, y - 1, 5)
    requires Agree(pass, pass', x + 1, y - 1, 3) && Agree(pass, pass', x - 1, y, 7)
    ensures r == s
  {
    var p1, p2, p3 :| Chain(pass, p, p1, p2, p3, r, x, y);
    var r1, r2, r3 :| Chain(pass', p, r1, r2, r3, s, x, y);
  }

  /** Both pass on the same. */
  ghost predicate Agree(pass: Pass, pass': Pass, x: int, y: int, weight: int) {
    forall p, r, s :: pass(p, r, x, y, weight) && pass'(p, s, x, y, weight) ==> r == s
  }

  lemma SamePasses(turn: Turns, ended: Turns, turn': Turns, ended': Turns, w: nat, x: int, y: int, weight: int)
    requires SameAt(turn, ended, turn', ended', w, x, y)
    ensures Agree(Passing(turn, ended, w), Passing(turn', ended', w), x, y, weight)
  {
    forall p, r, s | Passed(p, r, turn, ended, w, x, y, weight) && Passed(p, s, turn', ended', w, x, y, weight)
      ensures r == s
    {
      PassedIsUnique(p, r, s, turn, ended, turn', ended', w, x, y, weight);
    }
  }

  lemma SameTurn(q: seq<Rgb>, img: Picture, w: nat, h: nat, turn: Turns, ended: Turns, turn': Turns, ended': Turns,
                 x: int, y: int)
    requires IsPicture(img, w, h) && 0 <= x < w && 0 <= y < h
    requires Diffusion(q, img, w, h, turn, ended) && Diffusion(q, img, w, h, turn', ended')
    requires SameAt(turn, ended, turn', ended', w, x - 1, y - 1) && SameAt(turn, ended, turn', ended', w, x, y - 1)
    requires SameAt(turn, ended, turn', ended', w, x + 1, y - 1) && SameAt(turn, ended, turn', ended', w, x - 1, y)
    ensures SameAt(turn, ended, turn', ended', w, x, y)
  {
    assert DiffusionAt(q, img[y][x], w, turn, ended, x, y) && DiffusionAt(q, img[y][x], w, turn', ended', x, y);
    SamePasses(turn, ended, turn', ended', w, x - 1, y - 1, 1);
    SamePasses(turn, ended, turn', ended', w, x, y - 1, 5);
    SamePasses(turn, ended, turn', ended', w, x + 1, y - 1, 3);
    SamePasses(turn, ended, turn', ended', w, x - 1, y, 7);
    SameChain(Passing(turn, ended, w), Passing(turn', ended', w), img[y][x], turn(x, y), turn'(x, y), x, y);
    SettlesToOne(q, turn(x, y), ended(x, y), ended'(x, y));
  }

  /** The description fixes every pixel: there is one such picture. */
  lemma {:induction false} DiffusionIsUnique(q: seq<Rgb>, img: Picture, w: nat, h: nat, turn: Turns, ended: Turns,
                                             turn': Turns, ended': Turns, x: int, y: int)
    requires IsPicture(img, w, h) && y < h
    requires Diffusion(q, img, w, h, turn, ended) && Diffusion(q, img, w, h, turn', ended')
    ensures SameAt(turn, ended, turn', ended', w, x, y)
    decreases y, x
  {
    if 0 <= x < w && 0 <= y {
      DiffusionIsUnique(q, img, w, h, turn, ended, turn', ended', x - 1, y - 1);
      DiffusionIsUnique(q, img, w, h, turn, ended, turn', ended', x, y - 1);
      DiffusionIsUnique(q, img, w, h, turn, ended, turn', ended', x + 1, y - 1);
      DiffusionIsUnique(q, img, w, h, turn, ended, turn', ended', x - 1, y);
      SameTurn(q, img, w, h, turn, ended, turn', ended', x, y);
    }
  }

  /** The pixels of `out` are those of the one picture described. */
  ghost predicate Diffused(out: array2<Pixel>, q: seq<Rgb>, img: Picture, w: nat, h: nat, turn: Turns, ended: Turns)
    requires IsPicture(img, w, h) && out.Length0 == h && out.Length1 == w
    reads out
  {
    Diffusion(q, img, w, h, turn, ended) && forall y, x :: 0 <= y < h && 0 <= x < w ==> out[y, x] == ended(x, y)
  }

  lemma SettledIsDiffused(out: array2<Pixel>, q: seq<Rgb>, img: Picture, w: nat, h: nat)
    requires IsPicture(img, w, h) && out.Length0 == h && out.Length1 == w
    requires forall y, x :: 0 <= y < h && 0 <= x < w ==> out[y, x] == Settled(q, Before(q, img, w, h, x, y))
    ensures Diffused(out, q, img, w, h, TurnsOf(q, img, w, h), EndsOf(q, TurnsOf(q, img, w, h)))
  {
    TurnsDiffuse(q, img, w, h);
  }

  /** Every pixel ends as the nearest palette colour, fully opaque, of what it had collected in its turn. */
  method FloydSteinberg(q: seq<Rgb>, img: Picture, w: nat, h: nat) returns (out: array2<Pixel>)
    requires IsPicture(img, w, h)
    ensures fresh(out) && out.Length0 == h && out.Length1 == w
    ensures forall y, x :: 0 <= y < h && 0 <= x < w ==> out[y, x] == Settled(q, Before(q, img, w, h, x, y))
    ensures exists turn: Turns, ended: Turns :: Diffused(out, q, img, w, h, turn, ended)
  {
    out := new Pixel[h, w]((y, x) requires 0 <= y < h && 0 <= x < w => img[y][x]);
    StandsAtStart(out, q, img, w, h);
    for y := 0 to h
      invariant Stands(out, q, img, w, h, 0, y)
    {
      for x := 0 to w
        invariant Stands(out, q, img, w, h, x, y)
      {
        DitherNext(q, out, img, w, h, x, y);
      }
      StandsNextRow(out, q, img, w, h, y);
    }
    StandsAtEnd(out, q, img, w, h);
    SettledIsDiffused(out, q, img, w, h);
  }

  lemma NothingYet(q: seq<Rgb>, turns: Turns, w: nat, h: nat, p: Pixel, x: int, y: int)
    requires 0 <= x < w && 0 <= y < h
    ensures Meanwhile(q, turns, w, h, p, x, y, 0, 0) == p
  {
  }

  // ----- Pictures already in the palette -----

  predicate Exact(q: seq<Rgb>, p: Pixel) {
    p.rgb in q && p.a == 255
  }

  lemma NothingLeft(q: seq<Rgb>, n: Pixel, p: Pixel, weight: int)
    requires Exact(q, n)
    ensures Plus(p, Leftover(q, n), weight) == p && Settled(q, n) == n
  {
    assert Read(n) == n.rgb;
    assert Quantised(q, n.rgb) == n.rgb;
    assert 0 * weight == 0;
  }

  lemma NothingPulled(q: seq<Rgb>, img: Picture, w: nat, h: nat, p: Pixel, x: int, y: int, weight: int)
    requires IsPicture(img, w, h) && 0 <= x < w && 0 <= y < h
    requires Before(q, img, w, h, x, y) == img[y][x] && Exact(q, img[y][x])
    ensures PullOf(q, TurnsOf(q, img, w, h))(p, x, y, weight) == p
  {
    PullIs(q, img, w, h, p, x, y, weight);
    NothingLeft(q, img[y][x], p, weight);
  }

  lemma InTurnIdle(pull: Pull, w: nat, p: Pixel, x: int, y: int)
    requires 0 <= x < w && 0 <= y
    requires forall i, j, weight :: 0 <= i < w && 0 <= j && Earlier(i, j, x, y) ==> pull(p, i, j, weight) == p
    ensures InTurn(pull, w, p, x, y) == p
  {
  }

  /** Dithering leaves a picture made of opaque palette colours as it is. */
  lemma {:induction false} PalettePicturesStay(q: seq<Rgb>, img: Picture, w: nat, h: nat, x: int, y: int)
    requires IsPicture(img, w, h) && 0 <= x < w && 0 <= y < h
    requires forall j, i :: 0 <= j < h && 0 <= i < w ==> Exact(q, img[j][i])
    ensures Before(q, img, w, h, x, y) == img[y][x] == Settled(q, img[y][x])
    decreases y, x
  {
    var p, pull := img[y][x], PullOf(q, TurnsOf(q, img, w, h));
    forall i, j, weight | 0 <= i < w && 0 <= j && Earlier(i, j, x, y) ensures pull(p, i, j, weight) == p {
      PalettePicturesStay(q, img, w, h, i, j);
      NothingPulled(q, img, w, h, p, i, j, weight);
    }
    InTurnIdle(pull, w, p, x, y);
    BeforeIsInTurn(q, img, w, h, x, y);
    NothingLeft(q, p, p, 0);
  }
}
