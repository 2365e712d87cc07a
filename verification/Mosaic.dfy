/** The tile cover of internal/providers/maptile/mosaic.go, from the integer origin on: which 256-pixel
    tiles fill a viewport, with longitude wrapping and latitude cut off at the poles. */
module Mosaic {
  import opened Common

  const TILE: int := 256

  datatype TileKey = TileKey(z: nat, x: int, y: int, drawX: int, drawY: int)

  /** Go's `/` and `%`: truncated towards zero. */
  function GoDiv(a: int, b: int): int
    requires b > 0
  {
    if a >= 0 then a / b else -((-a) / b)
  }

  function GoRem(a: int, b: int): int
    requires b > 0
  {
    if a >= 0 then a % b else -((-a) % b)
  }

  /** Division that floors, from division that truncates. */
  function FloorDiv(a: int, b: int): int
    requires b > 0
  {
    var q := GoDiv(a, b);
    if GoRem(a, b) != 0 && a < 0 then q - 1 else q
  }

  /** The floor quotient, also for negative numerators. */
  lemma FloorDivFloors(a: int, b: int)
    requires b > 0
    ensures b * FloorDiv(a, b) <= a < b * FloorDiv(a, b) + b
  {
    if a < 0 {
      var n := -a;
      assert n == b * (n / b) + n % b;
      assert b * -(n / b) == -(b * (n / b));
      if n % b != 0 {
        assert b * (-(n / b) - 1) == b * -(n / b) - b;
      }
    } else {
      assert a == b * (a / b) + a % b;
    }
  }

  /** tx wrapped into [0, n) by two truncating remainders. */
  function Wrap(tx: int, n: int): int
    requires n > 0
  {
    GoRem(GoRem(tx, n) + n, n)
  }

  lemma WrapOfPositive(n: int, q: int, r: int)
    requires n > 0 && q >= 0 && 0 <= r < n
    ensures Wrap(n * q + r, n) == r
  {
    var tx := n * q + r;
    assert n * q >= 0;
    DivModUnique(tx, n, q, r);
    SmallResidue(r, n);
  }

  lemma WrapOfNegative(n: int, q: int, r: int)
    requires n > 0 && q >= 0 && 0 <= r < n && n * q + r > 0
    ensures Wrap(-(n * q + r), n) == if r == 0 then 0 else n - r
  {
    DivModUnique(n * q + r, n, q, r);
    if r == 0 {
      SmallResidue(0, n);
    } else {
      DivModUnique(n - r, n, 0, n - r);
    }
  }

  /** Wrapping is the mathematical residue. */
  lemma WrapIsResidue(tx: int, n: int)
    requires n > 0
    ensures 0 <= Wrap(tx, n) < n
    ensures exists k :: tx == n * k + Wrap(tx, n)
  {
    var q, r := Quotient(if tx >= 0 then tx else -tx, n);
    if tx >= 0 {
      WrapOfPositive(n, q, r);
      assert tx == n * q + r;
    } else {
      WrapOfNegative(n, q, r);
      if r == 0 {
        assert tx == n * -q + 0;
      } else {
        assert tx == n * (-q - 1) + (n - r);
      }
    }
  }

  lemma Quotient(x: int, n: int) returns (q: int, r: int)
    requires n > 0 && x >= 0
    ensures q >= 0 && 0 <= r < n && x == n * q + r
  {
    q, r := x / n, x % n;
  }

  lemma SmallResidue(r: int, n: int)
    requires 0 <= r < n
    ensures (r + n) % n == r
  {
    assert (r + n) / n == 1 by {
      assert n * 1 <= r + n < n * 2;
    }
  }

  // ----- What a cover is -----

  predicate Covers(t: TileKey, px: int, py: int) {
    t.drawX <= px < t.drawX + 256 && t.drawY <= py < t.drawY + 256
  }

  predicate MeetsViewport(t: TileKey, imgW: int, imgH: int) {
    t.drawX < imgW && t.drawX + TILE > 0 && t.drawY < imgH && t.drawY + TILE > 0
  }

  predicate InGrid(t: TileKey) {
    0 <= t.x < Pow2(t.z) && 0 <= t.y < Pow2(t.z)
  }

  /** `t` shows the part of the world it claims to: global pixel (ox + px, oy + py) lies in the tile of
      the slippy grid with the indexes of `t`, the column taken modulo the world's width. */
  ghost predicate ShowsTheWorld(t: TileKey, ox: int, oy: int) {
    && t.drawY + oy == 256 * t.y
    && exists k :: t.drawX + ox == 256 * (Pow2(t.z) * k + t.x)
  }

  function Tile(z: nat, tx: int, ty: int, ox: int, oy: int): TileKey {
    Pow2IsPositive(z);
    TileKey(z, Wrap(tx, Pow2(z)), ty, tx * TILE - ox, ty * TILE - oy)
  }

  lemma TileShowsTheWorld(z: nat, tx: int, ty: int, ox: int, oy: int)
    requires 0 <= ty < Pow2(z)
    ensures InGrid(Tile(z, tx, ty, ox, oy)) && ShowsTheWorld(Tile(z, tx, ty, ox, oy), ox, oy)
  {
    Pow2IsPositive(z);
    WrapIsResidue(tx, Pow2(z));
  }

  ghost predicate IsCovered(tiles: seq<TileKey>, px: int, py: int) {
    exists i :: 0 <= i < |tiles| && Covers(tiles[i], px, py)
  }

  /** All tiles are in the grid and show their own part of the world. */
  ghost predicate Truthful(tiles: seq<TileKey>, ox: int, oy: int, z: nat) {
    forall i :: 0 <= i < |tiles| ==> tiles[i].z == z && InGrid(tiles[i]) && ShowsTheWorld(tiles[i], ox, oy)
  }

  ghost predicate NoOverlap(tiles: seq<TileKey>) {
    forall i, j, px, py :: 0 <= i < |tiles| && 0 <= j < |tiles| && Covers(tiles[i], px, py) && Covers(tiles[j], px, py)
      ==> i == j
  }

  /** Exactly the viewport pixels whose row lies on the grid are covered. */
  ghost predicate CoversTheWorld(tiles: seq<TileKey>, oy: int, z: nat, imgW: int, imgH: int) {
    forall px, py :: 0 <= px < imgW && 0 <= py < imgH
      ==> (0 <= oy + py < TILE * Pow2(z) <==> IsCovered(tiles, px, py))
  }

  /** `tiles` are the tiles at the distinct grid positions `at`. */
  ghost predicate Listed(tiles: seq<TileKey>, at: seq<(int, int)>, z: nat, ox: int, oy: int) {
    && |tiles| == |at|
    && (forall i :: 0 <= i < |at| ==> tiles[i] == Tile(z, at[i].0, at[i].1, ox, oy))
    && (forall i, j :: 0 <= i < j < |at| ==> at[i] != at[j])
  }

  /** `at` holds every position of the viewport's rectangle that is on the grid. */
  ghost predicate FullRectangle(at: seq<(int, int)>, z: nat, ox: int, oy: int, imgW: int, imgH: int) {
    forall c: (int, int) :: c in at
      <==> FloorDiv(ox, TILE) <= c.0 <= FloorDiv(ox + imgW - 1, TILE)
           && FloorDiv(oy, TILE) <= c.1 <= FloorDiv(oy + imgH - 1, TILE) && 0 <= c.1 < Pow2(z)
  }

  lemma ListedIsTruthful(tiles: seq<TileKey>, at: seq<(int, int)>, z: nat, ox: int, oy: int, imgW: int, imgH: int)
    requires Listed(tiles, at, z, ox, oy) && FullRectangle(at, z, ox, oy, imgW, imgH)
    ensures Truthful(tiles, ox, oy, z)
  {
    forall i | 0 <= i < |tiles|
      ensures tiles[i].z == z && InGrid(tiles[i]) && ShowsTheWorld(tiles[i], ox, oy)
    {
      assert at[i] in at;
      TileShowsTheWorld(z, at[i].0, at[i].1, ox, oy);
    }
  }

  lemma ListedDoesNotOverlap(tiles: seq<TileKey>, at: seq<(int, int)>, z: nat, ox: int, oy: int)
    requires Listed(tiles, at, z, ox, oy)
    ensures NoOverlap(tiles)
  {
    forall i, j, px, py | 0 <= i < |tiles| && 0 <= j < |tiles| && Covers(tiles[i], px, py) && Covers(tiles[j], px, py)
      ensures i == j
    {
      assert at[i].0 == at[j].0 && at[i].1 == at[j].1;
    }
  }

  lemma ListedMeetsTheViewport(tiles: seq<TileKey>, at: seq<(int, int)>, z: nat, ox: int, oy: int, imgW: int, imgH: int, i: nat)
    requires Listed(tiles, at, z, ox, oy) && FullRectangle(at, z, ox, oy, imgW, imgH)
    requires imgW > 0 && imgH > 0 && i < |tiles|
    ensures MeetsViewport(tiles[i], imgW, imgH)
  {
    FloorDivFloors(ox, TILE);
    FloorDivFloors(oy, TILE);
    FloorDivFloors(ox + imgW - 1, TILE);
    FloorDivFloors(oy + imgH - 1, TILE);
    assert at[i] in at;
  }

  lemma FloorDivMonotone(a: int, b: int)
    requires a <= b
    ensures FloorDiv(a, TILE) <= FloorDiv(b, TILE)
  {
    FloorDivFloors(a, TILE);
    FloorDivFloors(b, TILE);
  }

  lemma ListedCovers(tiles: seq<TileKey>, at: seq<(int, int)>, z: nat, ox: int, oy: int, imgW: int, imgH: int)
    requires Listed(tiles, at, z, ox, oy) && FullRectangle(at, z, ox, oy, imgW, imgH)
    ensures CoversTheWorld(tiles, oy, z, imgW, imgH)
  {
    forall px, py | 0 <= px < imgW && 0 <= py < imgH
      ensures 0 <= oy + py < TILE * Pow2(z) <==> IsCovered(tiles, px, py)
    {
      var c := (FloorDiv(ox + px, TILE), FloorDiv(oy + py, TILE));
      FloorDivFloors(ox + px, TILE);
      FloorDivFloors(oy + py, TILE);
      FloorDivMonotone(ox, ox + px);
      FloorDivMonotone(ox + px, ox + imgW - 1);
      FloorDivMonotone(oy, oy + py);
      FloorDivMonotone(oy + py, oy + imgH - 1);
      if 0 <= oy + py < TILE * Pow2(z) {
        assert c in at;
        var i :| 0 <= i < |at| && at[i] == c;
        assert Covers(tiles[i], px, py);
      }
      if i :| 0 <= i < |tiles| && Covers(tiles[i], px, py) {
        assert at[i] in at;
      }
    }
  }

  predicate OnGrid(y: int, z: nat) {
    0 <= y < TILE * Pow2(z)
  }

  ghost predicate SomeRowOnGrid(oy: int, z: nat, imgH: int) {
    exists y :: oy <= y < oy + imgH && OnGrid(y, z)
  }

  ghost predicate OnBoundary(o: int) {
    exists k :: o == TILE * k
  }

  lemma EmptyWidth(ox: int)
    ensures FloorDiv(ox - 1, TILE) < FloorDiv(ox, TILE) <==> OnBoundary(ox)
  {
    FloorDivFloors(ox, TILE);
    FloorDivFloors(ox - 1, TILE);
    assert FloorDiv(ox - 1, TILE) < FloorDiv(ox, TILE) ==> ox == TILE * FloorDiv(ox, TILE);
  }

  /** A viewport of no width with a row on the grid gets no tile exactly when its origin sits on a tile boundary. */
  lemma EmptyViewport(tiles: seq<TileKey>, at: seq<(int, int)>, z: nat, ox: int, oy: int, imgH: int)
    requires Listed(tiles, at, z, ox, oy) && FullRectangle(at, z, ox, oy, 0, imgH) && SomeRowOnGrid(oy, z, imgH)
    ensures tiles == [] <==> OnBoundary(ox)
  {
    EmptyWidth(ox);
    var y :| oy <= y < oy + imgH && OnGrid(y, z);
    var c := (FloorDiv(ox, TILE), FloorDiv(y, TILE));
    FloorDivFloors(y, TILE);
    FloorDivMonotone(oy, y);
    FloorDivMonotone(y, oy + imgH - 1);
    assert c in at <==> FloorDiv(ox, TILE) <= FloorDiv(ox - 1, TILE);
    if tiles != [] {
      assert at[0] in at;
    }
  }

  /** For every integer origin, every pixel of the viewport whose row lies on the grid is covered by
      exactly one tile, the right one; rows above or below the world stay empty; and every tile lies in
      the grid and touches the (non-empty) viewport. */
  method ViewportTiles(ox: int, oy: int, z: nat, imgW: int, imgH: int) returns (tiles: seq<TileKey>)
    ensures Truthful(tiles, ox, oy, z)
    ensures NoOverlap(tiles)
    ensures CoversTheWorld(tiles, oy, z, imgW, imgH)
    ensures imgW > 0 && imgH > 0 ==> forall i :: 0 <= i < |tiles| ==> MeetsViewport(tiles[i], imgW, imgH)
    ensures imgW == 0 && SomeRowOnGrid(oy, z, imgH) ==> (tiles == [] <==> OnBoundary(ox))
  {
    var tx0 := FloorDiv(ox, TILE);
    var ty0 := FloorDiv(oy, TILE);
    var tx1 := FloorDiv(ox + imgW - 1, TILE);
    var ty1 := FloorDiv(oy + imgH - 1, TILE);
    Pow2IsPositive(z);
    var nMax := Pow2(z);
    tiles := [];
    ghost var at: seq<(int, int)> := [];
    var ty := ty0;
    while ty <= ty1
      invariant ty0 <= ty && (ty <= ty1 + 1 || ty == ty0)
      invariant Listed(tiles, at, z, ox, oy)
      invariant forall c: (int, int) :: c in at <==> tx0 <= c.0 <= tx1 && ty0 <= c.1 < ty && 0 <= c.1 < nMax
    {
      if ty < 0 || ty >= nMax {
        ty := ty + 1;
        continue;
      }
      tiles, at := Row(tiles, at, ox, oy, z, tx0, tx1, ty, nMax);
      ty := ty + 1;
    }
    ListedIsTruthful(tiles, at, z, ox, oy, imgW, imgH);
    ListedDoesNotOverlap(tiles, at, z, ox, oy);
    ListedCovers(tiles, at, z, ox, oy, imgW, imgH);
    forall i | imgW > 0 && imgH > 0 && 0 <= i < |tiles| ensures MeetsViewport(tiles[i], imgW, imgH) {
      ListedMeetsTheViewport(tiles, at, z, ox, oy, imgW, imgH, i);
    }
    if imgW == 0 && SomeRowOnGrid(oy, z, imgH) {
      EmptyViewport(tiles, at, z, ox, oy, imgH);
    }
  }

  /** The tile at one position of the grid. */
  method OneTile(ox: int, oy: int, z: nat, tx: int, ty: int, nMax: int) returns (t: TileKey)
    requires nMax == Pow2(z) > 0
    ensures t == Tile(z, tx, ty, ox, oy)
  {
    var wrapX := GoRem(GoRem(tx, nMax) + nMax, nMax);
    return TileKey(z, wrapX, ty, tx * 256 - ox, ty * 256 - oy);
  }

  lemma ListedMore(tiles: seq<TileKey>, at: seq<(int, int)>, z: nat, ox: int, oy: int, t: TileKey, c: (int, int))
    requires Listed(tiles, at, z, ox, oy) && c !in at && t == Tile(z, c.0, c.1, ox, oy)
    ensures Listed(tiles + [t], at + [c], z, ox, oy)
  {
  }

  /** The inner loop: one row of tiles. */
  method Row(before: seq<TileKey>, ghost atBefore: seq<(int, int)>, ox: int, oy: int, z: nat,
             tx0: int, tx1: int, ty: int, nMax: int)
    returns (tiles: seq<TileKey>, ghost at: seq<(int, int)>)
    requires nMax == Pow2(z) > 0 && Listed(before, atBefore, z, ox, oy)
    requires forall c: (int, int) :: c in atBefore ==> c.1 < ty
    ensures before <= tiles && |tiles| == |before| + if tx0 <= tx1 then tx1 - tx0 + 1 else 0
    ensures Listed(tiles, at, z, ox, oy)
    ensures forall c: (int, int) :: c in at <==> c in atBefore || (tx0 <= c.0 <= tx1 && c.1 == ty)
  {
    tiles, at := before, atBefore;
    var tx := tx0;
    while tx <= tx1
      invariant tx0 <= tx && (tx <= tx1 + 1 || tx == tx0)
      invariant before <= tiles && |tiles| == |before| + tx - tx0
      invariant Listed(tiles, at, z, ox, oy)
      invariant forall c: (int, int) :: c in at <==> c in atBefore || (tx0 <= c.0 < tx && c.1 == ty)
    {
      var t := OneTile(ox, oy, z, tx, ty, nMax);
      ListedMore(tiles, at, z, ox, oy, t, (tx, ty));
      tiles := tiles + [t];
      at := at + [(tx, ty)];
      tx := tx + 1;
    }
  }
}
