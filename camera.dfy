/** The exact parts of `camera.py`: the chessboard object-point grid used for calibration and
    the two point lists that define the bird's-eye perspective transform. */
module Camera {
  import opened Geometry

  // ---------------------------------------------------------------------------------------
  // `generate_grid`
  // ---------------------------------------------------------------------------------------

  /** Row `i` of an `nx`-wide grid holds `(i mod nx, i div nx, 0)`. */
  ghost predicate RowIs(grid: array2<real>, i: int, nx: nat)
    reads grid
    requires 0 <= i < grid.Length0 && grid.Length1 == 3
  {
    nx > 0 && grid[i, 0] == (i % nx) as real && grid[i, 1] == (i / nx) as real && grid[i, 2] == 0.0
  }

  /** Row `i` still holds the zeros it was allocated with. */
  ghost predicate Unset(grid: array2<real>, i: int)
    reads grid
    requires 0 <= i < grid.Length0 && grid.Length1 == 3
  {
    grid[i, 0] == 0.0 && grid[i, 1] == 0.0 && grid[i, 2] == 0.0
  }

  /** Row `y * nx + x` is the corner `(x, y)`: the row-major index can be read back. */
  lemma RowIndex(nx: nat, x: nat, y: nat)
    requires x < nx
    ensures (y * nx + x) % nx == x && (y * nx + x) / nx == y
  {
    var i := y * nx + x;
    var q, r := i / nx, i % nx;
    assert q * nx + r == y * nx + x;
    if q < y {
      MulStep(q, y, nx);
    } else if q > y {
      MulStep(y, q, nx);
    }
  }

  /** Between two multiples of `n` lies at least `n`. */
  lemma {:induction false} MulStep(a: nat, b: nat, n: nat)
    requires a < b
    ensures a * n + n <= b * n
    decreases b - a
  {
    assert (a + 1) * n == a * n + n;
    if a + 1 < b {
      MulStep(a + 1, b, n);
    }
  }

  /** Distinct rows of the grid hold distinct corners. */
  lemma RowsDistinct(nx: nat, i: nat, j: nat)
    requires nx > 0 && i != j
    ensures (i % nx, i / nx) != (j % nx, j / nx)
  {
    assert i == (i / nx) * nx + i % nx;
    assert j == (j / nx) * nx + j % nx;
  }

  /** `grid[row] = [a, b, 0]`: one row is overwritten and every other cell keeps its value. */
  method SetRow(grid: array2<real>, row: nat, a: real, b: real)
    requires row < grid.Length0 && grid.Length1 == 3
    modifies grid
    ensures grid[row, 0] == a && grid[row, 1] == b && grid[row, 2] == 0.0
    ensures forall i, k :: 0 <= i < grid.Length0 && 0 <= k < 3 && i != row ==>
              grid[i, k] == old(grid[i, k])
  {
    grid[row, 0] := a;
    grid[row, 1] := b;
    grid[row, 2] := 0.0;
  }

  /** `generate_grid(nx, ny)`: an `(ny * nx) x 3` array of zeros whose row `y * nx + x` is set to
      `(x, y, 0)` by a loop over `y` around a loop over `x`. */
  method GenerateGrid(nx: nat, ny: nat) returns (grid: array2<real>)
    ensures fresh(grid)
    ensures grid.Length0 == ny * nx && grid.Length1 == 3
    ensures forall i :: 0 <= i < grid.Length0 ==> RowIs(grid, i, nx)
  {
    grid := new real[ny * nx, 3]((i, k) => 0.0);
    var y := 0;
    while y < ny
      invariant 0 <= y <= ny
      invariant y * nx <= ny * nx
      invariant forall i :: 0 <= i < y * nx ==> RowIs(grid, i, nx)
      invariant forall i :: y * nx <= i < ny * nx ==> Unset(grid, i)
    {
      ghost var first := y * nx;
      MulStep(y, ny, nx);
      var x := 0;
      while x < nx
        invariant 0 <= x <= nx
        invariant forall i :: 0 <= i < first + x ==> RowIs(grid, i, nx)
        invariant forall i :: first + x <= i < ny * nx ==> Unset(grid, i)
      {
        RowIndex(nx, x, y);
        var row := y * nx + x;
        label before:
        SetRow(grid, row, x as real, y as real);
        forall i | 0 <= i < row ensures RowIs(grid, i, nx) {
          assert old@before(RowIs(grid, i, nx));
        }
        forall i | row < i < ny * nx ensures Unset(grid, i) {
          assert old@before(Unset(grid, i));
        }
        x := x + 1;
      }
      assert first + nx == (y + 1) * nx;
      y := y + 1;
    }
  }

  // ---------------------------------------------------------------------------------------
  // The point lists of `get_perspective_transform`
  // ---------------------------------------------------------------------------------------

  /** `src` for an image `width` x `height`: a trapezoid on the road ahead, listed top left,
      bottom left, bottom right, top right. */
  function SourcePoints(width: nat, height: nat): (src: seq<Point>)
    ensures |src| == 4
    ensures src[0].y == src[3].y == height as real / 2.0 + 100.0
    ensures src[0].x + src[3].x == width as real && src[3].x - src[0].x == 120.0
    ensures src[1].y == src[2].y == height as real
  {
    var w, h := width as real, height as real;
    [Point(w / 2.0 - 60.0, h / 2.0 + 100.0),
     Point(w / 6.0 - 10.0, h),
     Point(w * 5.0 / 6.0 + 60.0, h),
     Point(w / 2.0 + 60.0, h / 2.0 + 100.0)]
  }

  /** `dst`: the axis-aligned rectangle `x` in {w/4, 3w/4}, `y` in {0, h}, in the same order. */
  function TargetPoints(width: nat, height: nat): (dst: seq<Point>)
    ensures |dst| == 4
    ensures dst[0].x == dst[1].x == width as real / 4.0
    ensures dst[2].x == dst[3].x == width as real * 3.0 / 4.0
    ensures dst[0].y == dst[3].y == 0.0 && dst[1].y == dst[2].y == height as real
  {
    var w, h := width as real, height as real;
    [Point(w / 4.0, 0.0),
     Point(w / 4.0, h),
     Point(w * 3.0 / 4.0, h),
     Point(w * 3.0 / 4.0, 0.0)]
  }

  /** Inside an image at least 360 x 200 every source point lies in the image, and both lists
      are centred on the image's vertical midline. */
  lemma PointsInImage(width: nat, height: nat)
    requires width >= 360 && height >= 200
    ensures forall p :: p in SourcePoints(width, height) ==>
              0.0 <= p.x <= width as real && 0.0 <= p.y <= height as real
    ensures forall p :: p in TargetPoints(width, height) ==>
              0.0 <= p.x <= width as real && 0.0 <= p.y <= height as real
    ensures TargetPoints(width, height)[0].x + TargetPoints(width, height)[3].x == width as real
  {
  }

  /** For an image wider than 75 and taller than 200 pixels the two lists pair corners of the
      same kind: the top edge of the trapezoid is narrower than its bottom edge and lies above
      it, and corner `i` of `src` goes to corner `i` of `dst` without mirroring, so the warp keeps
      left on the left and the road ahead at the top. */
  lemma SameOrientation(width: nat, height: nat)
    requires width > 75 && height > 200
    ensures var src, dst := SourcePoints(width, height), TargetPoints(width, height);
      && src[3].x - src[0].x < src[2].x - src[1].x
      && src[0].y < src[1].y && dst[0].y < dst[1].y
      && src[0].x < src[3].x && dst[0].x < dst[3].x
      && src[1].x < src[2].x && dst[1].x < dst[2].x
  {
  }
}
