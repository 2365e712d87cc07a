/** The integer line rasteriser of internal/imaging/polyline.go.

    The loops are proved against a closed form that mentions neither an error term nor a loop:
    pixel k of a line is k steps along the longer axis, and along the shorter one the ideal
    height rounded to the nearest integer, halves upwards.  What a canvas looks like afterwards
    is stated with sets of points, so clipping and overdrawing are part of the contracts. */
module Polyline {
  import opened Common

  datatype Point = Point(x: int, y: int)

  datatype Color = Color(r: nat, g: nat, b: nat, a: nat)

  /** image.RGBA: a rectangle of pixels; `Set` outside the rectangle does nothing. */
  class Canvas {
    const minX: int
    const minY: int
    const pix: array2<Color>

    constructor (minX: int, minY: int, width: nat, height: nat, blank: Color)
      ensures this.minX == minX && this.minY == minY && fresh(pix)
      ensures pix.Length0 == height && pix.Length1 == width
      ensures forall p :: InBounds(p) ==> At(p) == blank
    {
      this.minX, this.minY := minX, minY;
      pix := new Color[height, width]((_, _) => blank);
    }

    predicate InBounds(p: Point) {
      minX <= p.x < minX + pix.Length1 && minY <= p.y < minY + pix.Length0
    }

    function At(p: Point): Color
      requires InBounds(p)
      reads pix
    {
      pix[p.y - minY, p.x - minX]
    }

    method Set(x: int, y: int, c: Color)
      modifies pix
      ensures Painted(this, iset{Point(x, y)}, c)
    {
      if InBounds(Point(x, y)) {
        pix[y - minY, x - minX] := c;
      }
    }
  }

  /** Since the old state, exactly the in-bounds points of `marks` were given colour `c`. */
  twostate predicate Painted(dst: Canvas, marks: iset<Point>, c: Color)
    reads dst.pix
  {
    forall p: Point :: dst.InBounds(p) ==> dst.At(p) == if p in marks then c else old(dst.At(p))
  }

  // ----- The ideal line -----

  function Abs(v: int): nat { if v < 0 then -v else v }

  function Max(a: int, b: int): int { if a < b then b else a }

  function Dir(from: int, to: int): int { if from >= to then -1 else 1 }

  /** n/d rounded to the nearest integer, halves upwards. */
  function Round(n: nat, d: nat): nat {
    if d == 0 then 0
    else if n < d then (if 2 * n >= d then 1 else 0)
    else 1 + Round(n - d, d)
  }

  /** The coordinate `i` steps from `from` in the direction of `to`. */
  function Along(from: int, to: int, i: nat): int {
    if from >= to then from - i else from + i
  }

  /** How far pixel `k` of a line spanning `a` by `b` has moved on each axis. */
  function Offset(a: nat, b: nat, k: nat): (nat, nat) {
    if a >= b then (k, Round(k * b, a)) else (Round(k * a, b), k)
  }

  datatype Line = Line(p: Point, q: Point) {
    function Width(): nat { Abs(q.x - p.x) }

    function Height(): nat { Abs(q.y - p.y) }

    function Steps(): nat { Max(Width(), Height()) }

    function Pixel(k: nat): Point {
      var (i, j) := Offset(Width(), Height(), k);
      Point(Along(p.x, q.x, i), Along(p.y, q.y, j))
    }

    /** The error term when pixel `k` is reached. */
    function Err(k: nat): int {
      var (i, j) := Offset(Width(), Height(), k);
      Width() - Height() + Width() * j - Height() * i
    }

    ghost function Trace(): iset<Point> {
      iset k: nat | k <= Steps() :: Pixel(k)
    }
  }

  ghost function Disk(center: Point, radius: int): iset<Point> {
    iset p: Point | (p.x - center.x) * (p.x - center.x) + (p.y - center.y) * (p.y - center.y) <= radius * radius
  }

  ghost predicate InSomeDisk(marks: iset<Point>, radius: int, p: Point) {
    exists m :: m in marks && p in Disk(m, radius)
  }

  ghost function Thick(marks: iset<Point>, radius: int): iset<Point> {
    iset p: Point | InSomeDisk(marks, radius, p)
  }

  /** The segments that connect `pts` in order. */
  function Segments(pts: seq<Point>): seq<Line> {
    if |pts| < 2 then [] else Segments(pts[..|pts| - 1]) + [Line(pts[|pts| - 2], pts[|pts| - 1])]
  }

  ghost predicate OnSomeSegment(pts: seq<Point>, p: Point) {
    exists s :: s in Segments(pts) && p in s.Trace()
  }

  ghost function PolylineTrace(pts: seq<Point>): iset<Point> {
    iset p: Point | OnSomeSegment(pts, p)
  }

  // ----- What the closed form promises -----

  lemma {:induction false} RoundIsNearest(n: nat, d: nat, r: nat)
    requires d > 0
    ensures Round(n, d) == r <==> 2 * (d * r) - d <= 2 * n < 2 * (d * r) + d
    decreases n
  {
    if n >= d {
      if r > 0 {
        MulSucc(d, r - 1);
        RoundIsNearest(n - d, d, r - 1);
      }
    } else if r > 1 {
      MulMonotone(d, 2, r);
    }
  }

  lemma MulSucc(c: int, x: int)
    ensures c * (x + 1) == c * x + c
  {
  }

  /** Rounding after one more step: `n` grows by `e`, at most one unit of `d`. */
  lemma RoundStep(n: nat, e: nat, d: nat, r: nat, dr: int)
    requires d > 0 && e <= d && r == Round(n, d) && dr == d * r
    ensures 2 * dr - d <= 2 * n < 2 * dr + d
    ensures Round(n + e, d) == if 2 * n + 2 * e - 2 * dr >= d then r + 1 else r
  {
    RoundIsNearest(n, d, r);
    MulSucc(d, r);
    if 2 * n + 2 * e - 2 * dr >= d {
      RoundIsNearest(n + e, d, r + 1);
    } else {
      RoundIsNearest(n + e, d, r);
    }
  }

  /** Rounding never passes the far end: the ideal height at the last step is the height itself. */
  lemma RoundBelow(n: nat, e: nat, d: nat, r: nat, dr: int, k: nat)
    requires d > 0 && e <= d && n == k * e && k < d && dr == d * r
    requires 2 * n + 2 * e - 2 * dr >= d
    ensures r < e
  {
    MulSucc(e, k);
    MulMonotone(e, k + 1, d);
    if r >= e {
      MulMonotone(d, e, r);
    }
  }

  /** One step along the longer side `a`, whose ideal height times `a` is n = k * b. */
  lemma AdvanceLong(a: nat, b: nat, k: nat, n: nat, j: nat, aj: int)
    requires b <= a && k < a && n == k * b && j == Round(n, a) && aj == a * j
    ensures var e2 := 2 * (a - b + aj - n);
            && e2 + b >= 0 && (e2 <= a ==> j < b)
            && Round(n + b, a) == if e2 <= a then j + 1 else j
  {
    RoundStep(n, b, a, j, aj);
    if 2 * n + 2 * b - 2 * aj >= a {
      RoundBelow(n, b, a, j, aj, k);
    }
  }

  /** The same where `b` is the longer side. */
  lemma AdvanceTall(a: nat, b: nat, k: nat, n: nat, i: nat, bi: int)
    requires a < b && k < b && n == k * a && i == Round(n, b) && bi == b * i
    ensures var e2 := 2 * (a - b + n - bi);
            && e2 <= a && (e2 + b >= 0 ==> i < a)
            && Round(n + a, b) == if e2 + b >= 0 then i + 1 else i
  {
    RoundStep(n, a, b, i, bi);
    if 2 * n + 2 * a - 2 * bi >= b {
      RoundBelow(n, a, b, i, bi, k);
    }
  }

  /** Where the loop's comparisons lead from offset (i, j), and that they stop at neither side. */
  predicate Advances(a: nat, b: nat, i: nat, j: nat, aj: int, bi: int, next: (nat, nat)) {
    var e2 := 2 * (a - b + aj - bi);
    && (e2 + b >= 0 ==> i < a)
    && (e2 <= a ==> j < b)
    && next == (if e2 + b >= 0 then i + 1 else i, if e2 <= a then j + 1 else j)
  }

  lemma LongOffset(a: nat, b: nat, k: nat)
    requires a >= b
    ensures Offset(a, b, k) == (k, Round(k * b, a)) && Offset(a, b, k + 1) == (k + 1, Round(k * b + b, a))
  {
    assert (k + 1) * b == k * b + b;
  }

  lemma TallOffset(a: nat, b: nat, k: nat)
    requires a < b
    ensures Offset(a, b, k) == (Round(k * a, b), k) && Offset(a, b, k + 1) == (Round(k * a + a, b), k + 1)
  {
    assert (k + 1) * a == k * a + a;
  }

  /** One iteration of the loop: comparing the doubled error term with dy and dx moves from pixel k
      to pixel k + 1 of the closed form, and neither guarded early return can be taken. */
  lemma Advance(a: nat, b: nat, k: nat, i: nat, j: nat, aj: int, bi: int)
    requires k < Max(a, b) && (i, j) == Offset(a, b, k) && aj == a * j && bi == b * i
    ensures Advances(a, b, i, j, aj, bi, Offset(a, b, k + 1))
  {
    if a >= b {
      LongOffset(a, b, k);
      AdvanceFrom(a, b, k, j, aj, bi, Offset(a, b, k + 1));
    } else {
      TallOffset(a, b, k);
      AdvanceUp(a, b, k, i, aj, bi, Offset(a, b, k + 1));
    }
  }

  lemma AdvanceFrom(a: nat, b: nat, k: nat, j: nat, aj: int, bi: int, next: (nat, nat))
    requires b <= a && k < a && bi == b * k && j == Round(k * b, a) && aj == a * j
    requires next == (k + 1, Round(k * b + b, a))
    ensures Advances(a, b, k, j, aj, bi, next)
  {
    AdvanceLong(a, b, k, k * b, j, aj);
  }

  lemma AdvanceUp(a: nat, b: nat, k: nat, i: nat, aj: int, bi: int, next: (nat, nat))
    requires a < b && k < b && aj == a * k && i == Round(k * a, b) && bi == b * i
    requires next == (Round(k * a + a, b), k + 1)
    ensures Advances(a, b, i, k, aj, bi, next)
  {
    AdvanceTall(a, b, k, k * a, i, bi);
  }

  /** The walk starts and ends at the two given points, whatever their order or direction. */
  lemma LineJoinsItsEndpoints(l: Line)
    ensures l.Pixel(0) == l.p
    ensures l.Pixel(l.Steps()) == l.q
  {
    var a, b := l.Width(), l.Height();
    if a >= b {
      if a > 0 {
        RoundIsNearest(0, a, 0);
        RoundIsNearest(a * b, a, b);
      }
    } else {
      RoundIsNearest(0, b, 0);
      RoundIsNearest(b * a, b, a);
    }
  }

  lemma DiagonalOffset(a: nat, k: nat)
    requires a > 0
    ensures Offset(a, a, k) == (k, k)
  {
    RoundIsNearest(k * a, a, k);
  }

  /** Consecutive pixels touch: at most one apart on each axis, exactly one on the longer axis. */
  lemma LineIsConnected(l: Line, k: nat)
    requires k < l.Steps()
    ensures var (u, v) := (l.Pixel(k), l.Pixel(k + 1));
            && Abs(v.x - u.x) <= 1 && Abs(v.y - u.y) <= 1
            && (l.Width() >= l.Height() ==> Abs(v.x - u.x) == 1)
            && (l.Height() >= l.Width() ==> Abs(v.y - u.y) == 1)
  {
    var a, b := l.Width(), l.Height();
    var (i, j) := Offset(a, b, k);
    Advance(a, b, k, i, j, a * j, b * i);
    if a == b {
      DiagonalOffset(a, k);
      DiagonalOffset(a, k + 1);
    }
  }

  lemma OffsetIsNearTheLine(a: nat, b: nat, k: nat, i: nat, j: nat, ja: int, ib: int)
    requires k <= Max(a, b) && (i, j) == Offset(a, b, k) && ja == j * a && ib == i * b
    ensures 0 - Max(a, b) <= 2 * (ja - ib) <= Max(a, b)
    ensures i <= a && j <= b
  {
    assert ja == a * j && ib == b * i;
    if a >= b && a > 0 {
      RoundIsNearest(k * b, a, j);
      MulMonotone(b, k, a);
      if j > b {
        MulMonotone(a, b + 1, j);
        MulSucc(a, b);
      }
    } else if b > a {
      RoundIsNearest(k * a, b, i);
      MulMonotone(a, k, b);
      if i > a {
        MulMonotone(b, a + 1, i);
        MulSucc(b, a);
      }
    }
  }

  /** Every pixel lies within half a pixel of the ideal line, measured along the shorter axis. */
  lemma LineStaysWithinHalfAPixel(l: Line, k: nat)
    requires k <= l.Steps()
    ensures var u := l.Pixel(k);
            var (i, j) := (Abs(u.x - l.p.x), Abs(u.y - l.p.y));
            && 0 - l.Steps() <= 2 * (j * l.Width() - i * l.Height()) <= l.Steps()
            && i <= l.Width() && j <= l.Height()
  {
    var (i, j) := Offset(l.Width(), l.Height(), k);
    OffsetIsNearTheLine(l.Width(), l.Height(), k, i, j, j * l.Width(), i * l.Height());
  }

  // ----- The loops -----

  ghost function Marks(s: seq<Point>): iset<Point> {
    iset p | p in s
  }

  /** Pixels and error terms that the loop's comparisons lead through, from `p` to `q`. */
  ghost predicate Walk(path: seq<Point>, errs: seq<int>, p: Point, q: Point) {
    && |path| == |errs| > 0 && path[0] == p && errs[0] == Abs(q.x - p.x) - Abs(q.y - p.y)
    && (forall k :: 0 <= k < |path| ==> (path[k] == q <==> k == |path| - 1))
    && (forall k :: 0 <= k < |path| - 1 ==> Steps(path[k], errs[k], path[k + 1], errs[k + 1], p, q))
  }

  /** One iteration from pixel `u` to pixel `v`; `e` and `f` are their error terms. */
  predicate Steps(u: Point, e: int, v: Point, f: int, p: Point, q: Point) {
    var (dx, dy) := (Abs(q.x - p.x), 0 - Abs(q.y - p.y));
    && (2 * e >= dy ==> u.x != q.x)
    && (2 * e <= dx ==> u.y != q.y)
    && v.x == (if 2 * e >= dy then u.x + Dir(p.x, q.x) else u.x)
    && v.y == (if 2 * e <= dx then u.y + Dir(p.y, q.y) else u.y)
    && f == e + (if 2 * e >= dy then dy else 0) + (if 2 * e <= dx then dx else 0)
  }

  lemma LineWalks(l: Line) returns (path: seq<Point>, errs: seq<int>)
    ensures path == seq(l.Steps() + 1, k requires k >= 0 => l.Pixel(k))
    ensures Walk(path, errs, l.p, l.q) && Marks(path) == l.Trace()
  {
    path := seq(l.Steps() + 1, k requires k >= 0 => l.Pixel(k));
    errs := seq(l.Steps() + 1, k requires k >= 0 => l.Err(k));
    LineStart(l);
    forall k | 0 <= k < |path| ensures path[k] == l.q <==> k == |path| - 1 {
      LastPixelIsTheEnd(l, k);
    }
    forall k | 0 <= k < |path| - 1 ensures Steps(path[k], errs[k], path[k + 1], errs[k + 1], l.p, l.q) {
      LineStep(l, k);
    }
    forall p ensures p in Marks(path) <==> p in l.Trace() {
      if k: nat :| k <= l.Steps() && l.Pixel(k) == p {
        assert path[k] == p;
      }
    }
  }

  lemma MarksNext(path: seq<Point>, k: nat)
    requires k < |path|
    ensures Marks(path[..k + 1]) == Marks(path[..k]) + iset{path[k]}
    ensures k == |path| - 1 ==> path[..k + 1] == path
  {
    assert path[..k + 1] == path[..k] + [path[k]];
  }

  /** The two early returns inside the loop are the empty `then` branches below: they are proved dead. */
  method DrawLine(dst: Canvas, x0: int, y0: int, x1: int, y1: int, c: Color) returns (ghost plots: seq<Point>)
    modifies dst.pix
    ensures var l := Line(Point(x0, y0), Point(x1, y1));
            && plots == seq(l.Steps() + 1, k requires k >= 0 => l.Pixel(k))
            && Painted(dst, l.Trace(), c)
  {
    ghost var path, errs := LineWalks(Line(Point(x0, y0), Point(x1, y1)));
    plots := Trail(dst, x0, y0, x1, y1, c, path, errs);
  }

  /** DrawLine, along pixels and error terms that a walk leads through. */
  method Trail(dst: Canvas, x0: int, y0: int, x1: int, y1: int, c: Color, ghost path: seq<Point>, ghost errs: seq<int>)
    returns (ghost plots: seq<Point>)
    requires Walk(path, errs, Point(x0, y0), Point(x1, y1))
    modifies dst.pix
    ensures plots == path && Painted(dst, Marks(path), c)
  {
    ghost var k := 0;
    plots := [];
    var dx := Abs(x1 - x0);
    var dy := 0 - Abs(y1 - y0);
    var sx := 1;
    if x0 >= x1 {
      sx := -1;
    }
    var sy := 1;
    if y0 >= y1 {
      sy := -1;
    }
    var err := dx + dy;
    var x, y := x0, y0;
    while true
      invariant 0 <= k < |path| && plots == path[..k]
      invariant Point(x, y) == path[k] && err == errs[k]
      invariant Painted(dst, Marks(path[..k]), c)
      decreases |path| - k
    {
      dst.Set(x, y, c);
      plots := plots + [Point(x, y)];
      MarksNext(path, k);
      if x == x1 && y == y1 {
        return;
      }
      assert Steps(path[k], errs[k], path[k + 1], errs[k + 1], Point(x0, y0), Point(x1, y1));
      var e2 := 2 * err;
      if e2 >= dy {
        if x == x1 {
          assert false;
        }
        err := err + dy;
        x := x + sx;
      }
      if e2 <= dx {
        if y == y1 {
          assert false;
        }
        err := err + dx;
        y := y + sy;
      }
      k := k + 1;
    }
  }

  lemma LineStart(l: Line)
    ensures l.Pixel(0) == l.p && l.Err(0) == l.Width() - l.Height()
  {
    LineJoinsItsEndpoints(l);
    assert Offset(l.Width(), l.Height(), 0) == (0, 0);
  }

  /** What one iteration of either walking loop does, in terms of pixels and error terms. */
  lemma LineStep(l: Line, k: nat)
    requires k < l.Steps()
    ensures Steps(l.Pixel(k), l.Err(k), l.Pixel(k + 1), l.Err(k + 1), l.p, l.q)
  {
    var (i, j) := Offset(l.Width(), l.Height(), k);
    Advance(l.Width(), l.Height(), k, i, j, l.Width() * j, l.Height() * i);
    MulSucc(l.Width(), j);
    MulSucc(l.Height(), i);
  }

  lemma LastPixelIsTheEnd(l: Line, k: nat)
    requires k <= l.Steps()
    ensures l.Pixel(k) == l.q <==> k == l.Steps()
  {
    LineJoinsItsEndpoints(l);
  }

  /** The part of a disk that a row-by-row sweep has covered before reaching (dx, dy). */
  ghost function Swept(center: Point, radius: int, dx: int, dy: int): iset<Point> {
    iset p | p in Disk(center, radius)
             && (p.y < center.y + dy || (p.y == center.y + dy && p.x < center.x + dx))
  }

  lemma DiskFitsItsSquare(center: Point, radius: nat, p: Point)
    requires p in Disk(center, radius)
    ensures Abs(p.x - center.x) <= radius && Abs(p.y - center.y) <= radius
  {
    SquareBound(p.x - center.x, p.y - center.y, radius);
    SquareBound(p.y - center.y, p.x - center.x, radius);
  }

  lemma SquareBound(u: int, v: int, r: nat)
    requires u * u + v * v <= r * r
    ensures 0 - r <= u <= r
  {
    assert v * v >= 0;
    var w := Abs(u);
    assert w * w == u * u;
    if w > r {
      MulMonotone(w, r, w);
      MulMonotone(r, r + 1, w);
      MulSucc(w, r);
    }
  }

  /** The two nested loops that DrawMarker and drawThickLine share. */
  method StampDisk(dst: Canvas, x: int, y: int, radius: nat, c: Color)
    modifies dst.pix
    ensures Painted(dst, Disk(Point(x, y), radius), c)
  {
    ghost var o := Point(x, y);
    var r2 := radius * radius;
    var dy := 0 - radius;
    NothingSwept(o, radius);
    while dy <= radius
      invariant 0 - radius <= dy <= radius + 1
      invariant Painted(dst, Swept(o, radius, 0 - radius, dy), c)
    {
      var dx := 0 - radius;
      while dx <= radius
        invariant 0 - radius <= dx <= radius + 1
        invariant Painted(dst, Swept(o, radius, dx, dy), c)
      {
        if dx * dx + dy * dy <= r2 {
          dst.Set(x + dx, y + dy, c);
        }
        SweptNext(o, radius, dx, dy);
        dx := dx + 1;
      }
      SweptRow(o, radius, dy);
      dy := dy + 1;
    }
    SweptAll(o, radius);
  }

  lemma NothingSwept(o: Point, radius: nat)
    ensures Swept(o, radius, 0 - radius, 0 - radius) == iset{}
  {
    forall p | p in Disk(o, radius) ensures p !in Swept(o, radius, 0 - radius, 0 - radius) {
      DiskFitsItsSquare(o, radius, p);
    }
  }

  lemma SweptNext(o: Point, radius: nat, dx: int, dy: int)
    ensures Swept(o, radius, dx + 1, dy) == Swept(o, radius, dx, dy)
              + if dx * dx + dy * dy <= radius * radius then iset{Point(o.x + dx, o.y + dy)} else iset{}
  {
  }

  lemma SweptRow(o: Point, radius: nat, dy: int)
    ensures Swept(o, radius, radius + 1, dy) == Swept(o, radius, 0 - radius, dy + 1)
  {
    forall p | p in Disk(o, radius)
      ensures p in Swept(o, radius, radius + 1, dy) <==> p in Swept(o, radius, 0 - radius, dy + 1)
    {
      DiskFitsItsSquare(o, radius, p);
    }
  }

  lemma SweptAll(o: Point, radius: nat)
    ensures Swept(o, radius, 0 - radius, radius + 1) == Disk(o, radius)
  {
    forall p | p in Disk(o, radius) ensures p in Swept(o, radius, 0 - radius, radius + 1) {
      DiskFitsItsSquare(o, radius, p);
    }
  }

  method DrawMarker(dst: Canvas, x: int, y: int, radius: int, fill: Color)
    modifies dst.pix
    ensures Painted(dst, Disk(Point(x, y), Max(radius, 0)), fill)
  {
    if radius <= 0 {
      dst.Set(x, y, fill);
      PointDisk(Point(x, y));
      return;
    }
    StampDisk(dst, x, y, radius, fill);
  }

  lemma PointDisk(o: Point)
    ensures Disk(o, 0) == iset{o}
  {
    forall p ensures p in Disk(o, 0) <==> p == o {
      if p in Disk(o, 0) {
        DiskFitsItsSquare(o, 0, p);
      }
    }
  }

  /** The same walk as DrawLine's, stamping a disk at every pixel. */
  method DrawThickLine(dst: Canvas, x0: int, y0: int, x1: int, y1: int, radius: nat, c: Color)
    modifies dst.pix
    ensures Painted(dst, Thick(Line(Point(x0, y0), Point(x1, y1)).Trace(), radius), c)
  {
    ghost var path, errs := LineWalks(Line(Point(x0, y0), Point(x1, y1)));
    ThickTrail(dst, x0, y0, x1, y1, radius, c, path, errs);
  }

  method ThickTrail(dst: Canvas, x0: int, y0: int, x1: int, y1: int, radius: nat, c: Color,
                    ghost path: seq<Point>, ghost errs: seq<int>)
    requires Walk(path, errs, Point(x0, y0), Point(x1, y1))
    modifies dst.pix
    ensures Painted(dst, Thick(Marks(path), radius), c)
  {
    ghost var k := 0;
    var dx := Abs(x1 - x0);
    var dy := 0 - Abs(y1 - y0);
    var sx := 1;
    if x0 >= x1 {
      sx := -1;
    }
    var sy := 1;
    if y0 >= y1 {
      sy := -1;
    }
    var err := dx + dy;
    var x, y := x0, y0;
    while true
      invariant 0 <= k < |path|
      invariant Point(x, y) == path[k] && err == errs[k]
      invariant Painted(dst, Thick(Marks(path[..k]), radius), c)
      decreases |path| - k
    {
      StampDisk(dst, x, y, radius, c);
      MarksNext(path, k);
      ThickNext(Marks(path[..k]), path[k], radius);
      if x == x1 && y == y1 {
        return;
      }
      assert Steps(path[k], errs[k], path[k + 1], errs[k + 1], Point(x0, y0), Point(x1, y1));
      var e2 := 2 * err;
      if e2 >= dy {
        if x == x1 {
          assert false;
        }
        err := err + dy;
        x := x + sx;
      }
      if e2 <= dx {
        if y == y1 {
          assert false;
        }
        err := err + dx;
        y := y + sy;
      }
      k := k + 1;
    }
  }

  lemma ThickNext(marks: iset<Point>, m: Point, radius: int)
    ensures Thick(marks + iset{m}, radius) == Thick(marks, radius) + Disk(m, radius)
  {
  }

  lemma ThickUnion(a: iset<Point>, b: iset<Point>, radius: int)
    ensures Thick(a + b, radius) == Thick(a, radius) + Thick(b, radius)
  {
  }

  method DrawPolyline(dst: Canvas, pts: seq<Point>, radius: int, c: Color)
    modifies dst.pix
    ensures Painted(dst, if radius <= 0 then PolylineTrace(pts) else Thick(PolylineTrace(pts), radius), c)
  {
    if |pts| < 2 {
      return;
    }
    if radius <= 0 {
      DrawSegments(dst, pts, c);
    } else {
      DrawThickSegments(dst, pts, radius, c);
    }
  }

  method DrawSegments(dst: Canvas, pts: seq<Point>, c: Color)
    requires |pts| >= 2
    modifies dst.pix
    ensures Painted(dst, PolylineTrace(pts), c)
  {
    for i := 1 to |pts|
      invariant Painted(dst, PolylineTrace(pts[..i]), c)
    {
      var _ := DrawLine(dst, pts[i - 1].x, pts[i - 1].y, pts[i].x, pts[i].y, c);
      PolylineNext(pts, i);
    }
    assert pts[..|pts|] == pts;
  }

  method DrawThickSegments(dst: Canvas, pts: seq<Point>, radius: nat, c: Color)
    requires |pts| >= 2
    modifies dst.pix
    ensures Painted(dst, Thick(PolylineTrace(pts), radius), c)
  {
    for i := 1 to |pts|
      invariant Painted(dst, Thick(PolylineTrace(pts[..i]), radius), c)
    {
      DrawThickLine(dst, pts[i - 1].x, pts[i - 1].y, pts[i].x, pts[i].y, radius, c);
      PolylineNext(pts, i);
      ThickUnion(PolylineTrace(pts[..i]), Line(pts[i - 1], pts[i]).Trace(), radius);
    }
    assert pts[..|pts|] == pts;
  }

  lemma PolylineNext(pts: seq<Point>, i: nat)
    requires 1 <= i < |pts|
    ensures PolylineTrace(pts[..i + 1]) == PolylineTrace(pts[..i]) + Line(pts[i - 1], pts[i]).Trace()
  {
    assert pts[..i + 1][..i] == pts[..i];
    assert Segments(pts[..i + 1]) == Segments(pts[..i]) + [Line(pts[i - 1], pts[i])];
    forall p ensures OnSomeSegment(pts[..i + 1], p)
                <==> OnSomeSegment(pts[..i], p) || p in Line(pts[i - 1], pts[i]).Trace()
    {
      if p in Line(pts[i - 1], pts[i]).Trace() {
        assert Segments(pts[..i + 1])[|Segments(pts[..i])|] in Segments(pts[..i + 1]);
      }
    }
  }
}
