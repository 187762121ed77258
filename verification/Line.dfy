/** userland/bsp/libgfx/libgfx.c: the all-octant line stepper and the square brush it drags. */
module Line {

  predicate Int32(x: int) {
    -0x8000_0000 <= x <= 0x7fff_ffff
  }

  function Abs(a: int): nat {
    if a < 0 then -a else a
  }

  function Max(a: int, b: int): int {
    if a > b then a else b
  }

  lemma MulLe(a: int, b: int, c: int)
    requires a <= b && 0 <= c
    ensures a * c <= b * c
  {
    MulSum(b, -a, c);
    assert (b - a) * c >= 0;
  }

  lemma MulSum(a: int, b: int, c: int)
    ensures (a + b) * c == a * c + b * c
    ensures (a - b) * c == a * c - b * c
  {
  }

  datatype Point = Point(x: int, y: int)

  // ----- The ideal line, rounded to pixels -----

  /** The nearest integer to k * minor / major, a half rounded towards zero. */
  function Rounded(k: int, minor: int, major: int): int
    requires major > 0
  {
    (2 * k * minor + major - 1) / (2 * major)
  }

  ghost predicate Rounds(b: int, k: int, minor: int, major: int) {
    2 * (b * major) - major < 2 * (k * minor) <= 2 * (b * major) + major
  }

  /** Rounded is the only integer that stays within half a pixel, ties excluded on one side. */
  lemma RoundedIsNearest(b: int, k: int, minor: int, major: int)
    requires major > 0
    ensures b == Rounded(k, minor, major) <==> Rounds(b, k, minor, major)
  {
    var n := 2 * k * minor + major - 1;
    var d := 2 * major;
    assert n == 2 * (k * minor) + major - 1;
    var q := n / d;
    assert n == d * q + n % d && 0 <= n % d < d;
    assert d * q == 2 * (q * major);
    assert Rounds(q, k, minor, major);
    if Rounds(b, k, minor, major) {
      if b < q {
        MulLe(b + 1, q, major);
        MulSum(b, 1, major);
      } else if b > q {
        MulLe(q + 1, b, major);
        MulSum(q, 1, major);
      }
    }
  }

  function StepCount(x1: int, y1: int, x2: int, y2: int): nat {
    Max(Abs(x2 - x1), Abs(y2 - y1))
  }

  /** The distance walked along each axis after k steps: k along the longer axis, and along the
      shorter one as close as a pixel grid allows to the ideal line. */
  function Walked(k: int, dx: int, dy: int): Point
    requires 0 <= dx && 0 <= dy
  {
    if dx == dy then Point(k, k)
    else if dx > dy then Point(k, Rounded(k, dy, dx))
    else Point(Rounded(k, dx, dy), k)
  }

  /** The k-th centre that the brush visits. */
  function Centre(k: int, x1: int, y1: int, x2: int, y2: int): Point {
    var w := Walked(k, Abs(x2 - x1), Abs(y2 - y1));
    Point(if x1 < x2 then x1 + w.x else x1 - w.x, if y1 < y2 then y1 + w.y else y1 - w.y)
  }

  lemma WalkedFollows(k: int, dx: int, dy: int)
    requires 0 <= k <= Max(dx, dy) && 0 <= dx && 0 <= dy
    ensures Walked(0, dx, dy) == Point(0, 0) && Walked(Max(dx, dy), dx, dy) == Point(dx, dy)
    ensures var w := Walked(k, dx, dy);
      && 0 <= w.x <= dx && 0 <= w.y <= dy && (w == Point(dx, dy) ==> k == Max(dx, dy))
      && Deviation(w.x, w.y, dx, dy) <= Max(dx, dy)
  {
    var w := Walked(k, dx, dy);
    if dx > dy {
      RoundedFollows(k, dy, dx);
      RoundedFollows(dx, dy, dx);
      assert Deviation(w.x, w.y, dx, dy) <= dx;
    } else if dx < dy {
      RoundedFollows(k, dx, dy);
      RoundedFollows(dy, dx, dy);
      assert Deviation(w.x, w.y, dx, dy) <= dy;
    } else {
      assert Deviation(w.x, w.y, dx, dy) == 0;
    }
  }

  /** Twice the distance of (x, y) from the line through (0, 0) and (dx, dy), scaled by the longer axis. */
  function Deviation(x: int, y: int, dx: int, dy: int): nat {
    2 * Abs(y * dx - x * dy)
  }

  lemma RoundedFollows(k: int, minor: int, major: int)
    requires 0 <= k <= major && 0 <= minor < major
    ensures Rounded(0, minor, major) == 0 && Rounded(major, minor, major) == minor
    ensures 0 <= Rounded(k, minor, major) <= minor
    ensures Rounds(Rounded(k, minor, major), k, minor, major)
  {
    RoundedIsNearest(0, 0, minor, major);
    RoundedIsNearest(minor, major, minor, major);
    RoundedIsNearest(Rounded(k, minor, major), k, minor, major);
    RoundedInRange(Rounded(k, minor, major), k, minor, major);
  }

  /** The walk starts at one endpoint, finishes at the other, and every centre lies within half a
      pixel of the ideal line, measured across its longer axis. */
  lemma CentresFollowTheLine(k: int, x1: int, y1: int, x2: int, y2: int)
    requires 0 <= k <= StepCount(x1, y1, x2, y2)
    ensures Centre(0, x1, y1, x2, y2) == Point(x1, y1)
    ensures Centre(k, x1, y1, x2, y2) == Point(x2, y2) <==> k == StepCount(x1, y1, x2, y2)
    ensures var c := Centre(k, x1, y1, x2, y2);
      && Deviation(c.x - x1, c.y - y1, x2 - x1, y2 - y1) <= StepCount(x1, y1, x2, y2)
      && Abs(c.x - x1) <= Abs(x2 - x1) && Abs(c.y - y1) <= Abs(y2 - y1)
      && Abs(c.x - x1) + Abs(x2 - c.x) == Abs(x2 - x1) && Abs(c.y - y1) + Abs(y2 - c.y) == Abs(y2 - y1)
  {
    var dx, dy := Abs(x2 - x1), Abs(y2 - y1);
    WalkedFollows(k, dx, dy);
    var w := Walked(k, dx, dy);
    var c := Centre(k, x1, y1, x2, y2);
    SignedProducts(w.x, w.y, x2 - x1, y2 - y1, c.x - x1, c.y - y1);
  }

  lemma RoundedInRange(b: int, k: nat, minor: nat, major: nat)
    requires k <= major && minor < major && Rounds(b, k, minor, major)
    ensures 0 <= b <= minor
  {
    MulSum(b, 1, major);
    MulLe(0, k, minor);
    if b < 0 {
      MulLe(b + 1, 0, major);
    } else if b > minor {
      MulLe(minor + 1, b, major);
      MulSum(minor, 1, major);
      MulLe(k, major, minor);
    }
  }

  lemma SignedProducts(wx: int, wy: int, dx: int, dy: int, cx: int, cy: int)
    requires cx == (if dx > 0 then wx else -wx) && cy == (if dy > 0 then wy else -wy)
    ensures Deviation(cx, cy, dx, dy) == Deviation(wx, wy, Abs(dx), Abs(dy))
  {
    var p, q := wy * Abs(dx), wx * Abs(dy);
    assert cy * dx == (if (dx > 0) == (dy > 0) then p else -p);
    assert cx * dy == (if (dx > 0) == (dy > 0) then q else -q);
  }

  /** One step of the walk: the longer axis always advances, the shorter one when the ideal line
      has passed the middle between two pixels. */
  lemma WalkStep(k: int, dx: int, dy: int)
    requires 0 <= k < Max(dx, dy) && 0 <= dx && 0 <= dy
    ensures var w, w', err := Walked(k, dx, dy), Walked(k + 1, dx, dy), ErrAt(k, dx, dy);
      && w'.x == w.x + (if 2 * err > -dy then 1 else 0)
      && w'.y == w.y + (if 2 * err < dx then 1 else 0)
      && ErrAt(k + 1, dx, dy) == err - (if 2 * err > -dy then dy else 0) + (if 2 * err < dx then dx else 0)
  {
    var w, w', err := Walked(k, dx, dy), Walked(k + 1, dx, dy), ErrAt(k, dx, dy);
    if dx == dy {
      assert err == 0 by {
        assert (k + 1) * dx == (k + 1) * dy;
      }
    } else if dx > dy {
      RoundedStep(k, dy, dx);
      MulSum(k, 1, dy);
      MulSum(k, 2, dy);
      MulSum(w.y, 1, dx);
      MulSum(w.y, 2, dx);
    } else {
      RoundedStep(k, dx, dy);
      MulSum(k, 1, dx);
      MulSum(k, 2, dx);
      MulSum(w.x, 1, dy);
      MulSum(w.x, 2, dy);
    }
  }

  /** The value of the error term before step k. */
  function ErrAt(k: int, dx: int, dy: int): int
    requires 0 <= dx && 0 <= dy
  {
    var w := Walked(k, dx, dy);
    (w.y + 1) * dx - (w.x + 1) * dy
  }

  lemma RoundedStep(k: int, minor: int, major: int)
    requires 0 <= k && 0 <= minor < major
    ensures var b, b' := Rounded(k, minor, major), Rounded(k + 1, minor, major);
      && Rounds(b, k, minor, major)
      && b' == if 2 * (k * minor) + 2 * minor > 2 * (b * major) + major then b + 1 else b
  {
    var b := Rounded(k, minor, major);
    RoundedIsNearest(b, k, minor, major);
    RoundedIsNearest(b, k + 1, minor, major);
    RoundedIsNearest(b + 1, k + 1, minor, major);
    MulSum(k, 1, minor);
    MulSum(b, 1, major);
  }

  // ----- Which lines fit 32-bit ints -----

  /** The int values of step k: twice the error term, and the term after each of its two changes. */
  predicate StepFits(k: int, dx: int, dy: int)
    requires 0 <= dx && 0 <= dy
  {
    var err := ErrAt(k, dx, dy);
    var err' := if 2 * err > -dy then err - dy else err;
    Int32(2 * err) && Int32(err') && Int32(if 2 * err < dx then err' + dx else err')
  }

  ghost predicate StepsFit(dx: int, dy: int)
    requires 0 <= dx && 0 <= dy
  {
    forall k :: 0 <= k < Max(dx, dy) ==> StepFits(k, dx, dy)
  }

  /** The brush around a coordinate, if it has any size. */
  predicate BrushFits(a: int, half: int) {
    half >= 0 ==> Int32(a - half) && Int32(a + half)
  }

  /** Every int value on the way fits: this is exactly what the code needs. */
  ghost predicate LineFits(x1: int, y1: int, x2: int, y2: int, half: int) {
    && Int32(x1) && Int32(y1) && Int32(x2) && Int32(y2)
    && Int32(x2 - x1) && Int32(y2 - y1) && Int32(Abs(x2 - x1)) && Int32(Abs(y2 - y1))
    && StepsFit(Abs(x2 - x1), Abs(y2 - y1))
    && BrushFits(x1, half) && BrushFits(x2, half) && BrushFits(y1, half) && BrushFits(y2, half)
  }

  lemma ErrBound(k: int, dx: int, dy: int)
    requires 0 <= k <= Max(dx, dy) && 0 <= dx && 0 <= dy
    ensures -3 * Max(dx, dy) <= 2 * ErrAt(k, dx, dy) <= 3 * Max(dx, dy)
  {
    var w := Walked(k, dx, dy);
    MulSum(w.y, 1, dx);
    MulSum(w.x, 1, dy);
    if dx > dy {
      RoundedIsNearest(w.y, k, dy, dx);
    } else if dx < dy {
      RoundedIsNearest(w.x, k, dx, dy);
    }
  }

  /** Lines whose steps are at most a third of the ints fit. */
  lemma ShortLinesFit(dx: int, dy: int)
    requires 0 <= dx && 0 <= dy && Int32(3 * Max(dx, dy))
    ensures StepsFit(dx, dy)
  {
    forall k | 0 <= k < Max(dx, dy)
      ensures StepFits(k, dx, dy)
    {
      ErrBound(k, dx, dy);
      ErrBound(k + 1, dx, dy);
      WalkStep(k, dx, dy);
    }
  }

  /** Along an axis or a diagonal the error term stays what it was. */
  lemma StraightErr(k: int, dx: int, dy: int)
    requires 0 <= k < Max(dx, dy) && 0 <= dx && 0 <= dy && (dx == 0 || dy == 0 || dx == dy)
    ensures ErrAt(k, dx, dy) == dx - dy
  {
    if dx == dy {
      MulSum(k, 1, dx);
    } else if dy == 0 {
      RoundedIsNearest(0, k, 0, dx);
    } else {
      RoundedIsNearest(0, k, 0, dy);
    }
  }

  /** Lines along an axis fit exactly up to half of the ints, and diagonals always. */
  lemma StraightLinesFit(dx: int, dy: int)
    requires 0 <= dx && 0 <= dy && Int32(dx) && Int32(dy) && (dx == 0 || dy == 0 || dx == dy)
    ensures StepsFit(dx, dy) <==> Int32(2 * (dx - dy))
  {
    forall k | 0 <= k < Max(dx, dy)
      ensures StepFits(k, dx, dy) <==> Int32(2 * (dx - dy))
    {
      StraightErr(k, dx, dy);
    }
    if Max(dx, dy) > 0 {
      assert StepsFit(dx, dy) ==> StepFits(0, dx, dy);
    }
  }

  // ----- Drawing -----

  /** The pixels under a square brush of the given half-size. */
  predicate Under(c: Point, half: int, x: int, y: int) {
    -half <= x - c.x <= half && -half <= y - c.y <= half
  }

  /** The framebuffer, row by row: pixel (x, y) of the screen is framebuffer[y, x]. */
  class Display {
    const framebuffer: array2<int>

    constructor (framebuffer: array2<int>)
      ensures this.framebuffer == framebuffer
    {
      this.framebuffer := framebuffer;
    }

    predicate OnScreen(x: int, y: int) {
      0 <= x < framebuffer.Length1 && 0 <= y < framebuffer.Length0
    }

    function At(x: int, y: int): int
      requires OnScreen(x, y)
      reads framebuffer
    {
      framebuffer[y, x]
    }

    method SetPixel(x: int, y: int, color: int)
      modifies framebuffer
      ensures forall px, py {:trigger At(px, py)} :: OnScreen(px, py) ==>
        At(px, py) == if px == x && py == y then color else old(At(px, py))
    {
      if x >= 0 && x < framebuffer.Length1 && y >= 0 && y < framebuffer.Length0 {
        framebuffer[y, x] := color;
      }
    }

    /** One column of the brush at the given centre. */
    method PaintColumn(x: int, y: int, half: int, color: int)
      requires BrushFits(y, half)
      modifies framebuffer
      ensures forall px, py {:trigger At(px, py)} :: OnScreen(px, py) ==>
        At(px, py) == if px == x && -half <= py - y <= half then color else old(At(px, py))
    {
      var j := -half;
      while j <= half
        invariant if half >= 0 then j <= half + 1 else j == -half
        invariant forall px, py {:trigger At(px, py)} :: OnScreen(px, py) ==>
          At(px, py) == if px == x && -half <= py - y < j then color else old(At(px, py))
      {
        assert Int32(y + j);
        SetPixel(x, y + j, color);
        j := j + 1;
      }
    }

    method PaintBrush(c: Point, half: int, color: int)
      requires BrushFits(c.x, half) && BrushFits(c.y, half)
      modifies framebuffer
      ensures forall px, py {:trigger At(px, py)} :: OnScreen(px, py) ==>
        At(px, py) == if Under(c, half, px, py) then color else old(At(px, py))
    {
      var i := -half;
      while i <= half
        invariant if half >= 0 then i <= half + 1 else i == -half
        invariant forall px, py {:trigger At(px, py)} :: OnScreen(px, py) ==>
          At(px, py) == if -half <= px - c.x < i && -half <= py - c.y <= half then color else old(At(px, py))
      {
        assert Int32(c.x + i);
        PaintColumn(c.x + i, c.y, half, color);
        i := i + 1;
      }
    }

    /** Some of the centres before the n-th covers the pixel. */
    static ghost predicate Covered(n: nat, x1: int, y1: int, x2: int, y2: int, half: int, px: int, py: int) {
      exists k: nat :: k < n && Under(Centre(k, x1, y1, x2, y2), half, px, py)
    }

    /** Half of the thickness, truncated. */
    static function Half(thickness: int): int {
      if thickness >= 0 then thickness / 2 else -(-thickness / 2)
    }

    /** A pixel ends up coloured exactly when one of the centres from (x1, y1) to (x2, y2) covers
        it, and every other pixel keeps its colour. */
    method DrawLine(x1: int, y1: int, x2: int, y2: int, thickness: int, color: int)
      requires LineFits(x1, y1, x2, y2, Half(thickness))
      modifies framebuffer
      ensures forall px, py {:trigger At(px, py)} :: OnScreen(px, py) ==>
        var half := Half(thickness);
        At(px, py) == if Covered(StepCount(x1, y1, x2, y2) + 1, x1, y1, x2, y2, half, px, py)
                      then color else old(At(px, py))
    {
      var dx: int, dy: int := Abs(x2 - x1), Abs(y2 - y1);
      var sx := if x1 < x2 then 1 else -1;
      var sy := if y1 < y2 then 1 else -1;
      var err := dx - dy;
      var x, y := x1, y1;
      var half := Half(thickness);
      ghost var k: nat := 0;
      CentresFollowTheLine(0, x1, y1, x2, y2);
      while true
        invariant k <= StepCount(x1, y1, x2, y2)
        invariant Point(x, y) == Centre(k, x1, y1, x2, y2)
        invariant err == ErrAt(k, dx, dy)
        invariant forall px, py {:trigger At(px, py)} :: OnScreen(px, py) ==>
          At(px, py) == if Covered(k, x1, y1, x2, y2, half, px, py) then color else old(At(px, py))
        decreases Abs(x2 - x) + Abs(y2 - y)
      {
        CentresFollowTheLine(k, x1, y1, x2, y2);
        PaintBrush(Point(x, y), half, color);
        CoveredStep(k, x1, y1, x2, y2, half);
        if x == x2 && y == y2 {
          break;
        }
        x, y, err := Advance(x, y, err, dx, dy, sx, sy, k, x1, y1, x2, y2);
        k := k + 1;
      }
    }

    /** One step of the walk; every int value on the way fits. */
    static method Advance(x: int, y: int, err: int, dx: int, dy: int, sx: int, sy: int,
            ghost k: int, ghost x1: int, ghost y1: int, ghost x2: int, ghost y2: int)
      returns (x': int, y': int, err': int)
      requires 0 <= k < StepCount(x1, y1, x2, y2) && Point(x, y) == Centre(k, x1, y1, x2, y2)
      requires dx == Abs(x2 - x1) && dy == Abs(y2 - y1) && err == ErrAt(k, dx, dy) && StepFits(k, dx, dy)
      requires sx == (if x1 < x2 then 1 else -1) && sy == (if y1 < y2 then 1 else -1)
      ensures Point(x', y') == Centre(k + 1, x1, y1, x2, y2) && err' == ErrAt(k + 1, dx, dy)
      ensures Abs(x2 - x') + Abs(y2 - y') < Abs(x2 - x) + Abs(y2 - y)
    {
      CentreStep(k, x1, y1, x2, y2);
      x', y', err' := x, y, err;
      var e2 := 2 * err;
      assert Int32(e2);
      if e2 > -dy {
        err' := err' - dy;
        assert Int32(err');
        x' := x' + sx;
      }
      if e2 < dx {
        err' := err' + dx;
        assert Int32(err');
        y' := y' + sy;
      }
    }

    static lemma CoveredStep(k: nat, x1: int, y1: int, x2: int, y2: int, half: int)
      ensures forall px, py :: Covered(k + 1, x1, y1, x2, y2, half, px, py) <==>
        Covered(k, x1, y1, x2, y2, half, px, py) || Under(Centre(k, x1, y1, x2, y2), half, px, py)
    {
    }

    /** What the two comparisons of a step do to the centre and to the error term. */
    static lemma CentreStep(k: int, x1: int, y1: int, x2: int, y2: int)
      requires 0 <= k < StepCount(x1, y1, x2, y2)
      ensures var c, c' := Centre(k, x1, y1, x2, y2), Centre(k + 1, x1, y1, x2, y2);
        var dx: int, dy: int := Abs(x2 - x1), Abs(y2 - y1);
        var err := ErrAt(k, dx, dy);
        && c'.x == c.x + (if 2 * err > -dy then (if x1 < x2 then 1 else -1) else 0)
        && c'.y == c.y + (if 2 * err < dx then (if y1 < y2 then 1 else -1) else 0)
        && ErrAt(k + 1, dx, dy) == err - (if 2 * err > -dy then dy else 0) + (if 2 * err < dx then dx else 0)
        && Abs(x2 - c'.x) + Abs(y2 - c'.y) < Abs(x2 - c.x) + Abs(y2 - c.y)
    {
      WalkStep(k, Abs(x2 - x1), Abs(y2 - y1));
      CentresFollowTheLine(k, x1, y1, x2, y2);
      CentresFollowTheLine(k + 1, x1, y1, x2, y2);
      WalkedFollows(k, Abs(x2 - x1), Abs(y2 - y1));
      WalkedFollows(k + 1, Abs(x2 - x1), Abs(y2 - y1));
    }
  }
}
