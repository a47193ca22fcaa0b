/** The sliding-window pixel search of lane_finding.py: a column histogram of the bottom half of a
    top-down binary mask seeds one x position per side; nine bands, scanned from the bottom of the
    image up, each collect the nonzero pixels inside a box of +/-100 columns around the current
    position and recentre it; a quadratic x = f(y) is fitted to each side's pixels and sampled on
    30 rows. The least-squares fit (np.polyfit) is a parameter. */
module LaneFinding {
  import opened Wrappers
  import opened Geometry

  const NWindows: nat := 9
  const Margin: int := 100
  const MinPix: nat := 50
  /** Columns at each side of the histogram ignored when seeding ("avoid lines on the side"). */
  const EdgeColumns: nat := 100
  const SampleCount: nat := 30

  /** A binary mask as a grid of rows; every row has `width` cells (a numpy array is rectangular). */
  predicate IsGrid(mask: seq<seq<bool>>, width: nat)
  {
    forall y :: 0 <= y < |mask| ==> |mask[y]| == width
  }

  /** A nonzero pixel: column x, row y. */
  datatype Pixel = Pixel(x: nat, y: nat)

  predicate IsSet(mask: seq<seq<bool>>, p: Pixel)
  {
    p.y < |mask| && p.x < |mask[p.y]| && mask[p.y][p.x]
  }

  // ---------------------------------------------------------------- histogram

  /** The number of set cells of column c in rows [y, |mask|). */
  function ColumnCount(mask: seq<seq<bool>>, width: nat, c: nat, y: nat): (n: nat)
    requires IsGrid(mask, width) && c < width && y <= |mask|
    ensures n <= |mask| - y
    ensures n == 0 <==> forall y' :: y <= y' < |mask| ==> !mask[y'][c]
    decreases |mask| - y
  {
    if y == |mask| then 0
    else (if mask[y][c] then 1 else 0) + ColumnCount(mask, width, c, y + 1)
  }

  /** `np.sum(binary_warped[h // 2:, :], axis=0)`: per column, the set cells of the bottom half. */
  function Histogram(mask: seq<seq<bool>>, width: nat): (hist: seq<nat>)
    requires IsGrid(mask, width)
    ensures |hist| == width
  {
    seq(width, c requires 0 <= c < width => ColumnCount(mask, width, c, |mask| / 2))
  }

  /** Every histogram entry is at most the height of the bottom half, and it is zero exactly when
      its column has no set cell at a row >= h div 2. */
  lemma HistogramCounts(mask: seq<seq<bool>>, width: nat, c: nat)
    requires IsGrid(mask, width) && c < width
    ensures Histogram(mask, width)[c] <= |mask| - |mask| / 2
    ensures Histogram(mask, width)[c] == 0 <==> forall y :: |mask| / 2 <= y < |mask| ==> !mask[y][c]
  {
  }

  /** The histogram after `histogram[0:100] = 0` and `histogram[w-100:w] = 0`. For w < 100 the
      first assignment already clears every column, so the wrap-around of the negative slice
      start does not matter. */
  function ZeroedEdges(hist: seq<int>): (r: seq<int>)
    ensures |r| == |hist|
    ensures forall c :: 0 <= c < |r| ==>
      r[c] == (if c < EdgeColumns || c >= |hist| - EdgeColumns then 0 else hist[c])
  {
    seq(|hist|, c requires 0 <= c < |hist| =>
      if c < EdgeColumns || c >= |hist| - EdgeColumns then 0 else hist[c])
  }

  /** The two slice assignments, done in place on the histogram array. */
  method ZeroEdges(hist: array<int>)
    modifies hist
    ensures hist[..] == ZeroedEdges(old(hist[..]))
  {
    ghost var before := hist[..];
    var w := hist.Length;
    var c := 0;
    while c < w && c < EdgeColumns
      invariant 0 <= c <= w && c <= EdgeColumns
      invariant forall i :: 0 <= i < w ==> hist[i] == if i < c then 0 else before[i]
    {
      hist[c] := 0;
      c := c + 1;
    }
    c := if w >= EdgeColumns then w - EdgeColumns else 0;
    ghost var start := c;
    while c < w
      invariant start <= c <= w
      invariant forall i :: 0 <= i < w ==>
        hist[i] == if i < EdgeColumns || start <= i < c then 0 else before[i]
    {
      hist[c] := 0;
      c := c + 1;
    }
  }

  /** After zeroing, the first and the last 100 columns are 0; the others keep their counts. */
  lemma EdgesCleared(hist: seq<int>, c: nat)
    requires c < |hist|
    ensures c < EdgeColumns ==> ZeroedEdges(hist)[c] == 0
    ensures |hist| - EdgeColumns <= c ==> ZeroedEdges(hist)[c] == 0
    ensures EdgeColumns <= c < |hist| - EdgeColumns ==> ZeroedEdges(hist)[c] == hist[c]
  {
  }

  // ---------------------------------------------------------------- seeding

  /** `np.argmax`: the first index of the largest entry. */
  function ArgMax(s: seq<int>): (k: nat)
    requires |s| > 0
    ensures k < |s|
    ensures forall j :: 0 <= j < |s| ==> s[j] <= s[k]
    ensures forall j :: 0 <= j < k ==> s[j] < s[k]
    decreases |s|
  {
    if |s| == 1 then 0
    else
      var k := ArgMax(s[..|s| - 1]);
      assert forall j :: 0 <= j < |s| - 1 ==> s[..|s| - 1][j] == s[j];
      if s[|s| - 1] > s[k] then |s| - 1 else k
  }

  /** The zeroed histogram of a mask. */
  function SeedHistogram(mask: seq<seq<bool>>, width: nat): (hist: seq<int>)
    requires IsGrid(mask, width)
    ensures |hist| == width
  {
    ZeroedEdges(Histogram(mask, width))
  }

  /** `leftx_base`: the argmax of the left half [0, w div 2). */
  function LeftBase(hist: seq<int>): (b: nat)
    requires |hist| >= 2
    ensures b < |hist| / 2
    ensures forall c :: 0 <= c < |hist| / 2 ==> hist[c] <= hist[b]
    ensures forall c :: 0 <= c < b ==> hist[c] < hist[b]
  {
    var left := hist[..|hist| / 2];
    var k := ArgMax(left);
    assert forall c :: 0 <= c < |hist| / 2 ==> left[c] == hist[c];
    k
  }

  /** `rightx_base`: the argmax of the right half [w div 2, w), shifted back by the midpoint. */
  function RightBase(hist: seq<int>): (b: nat)
    requires |hist| >= 2
    ensures |hist| / 2 <= b < |hist|
    ensures forall c :: |hist| / 2 <= c < |hist| ==> hist[c] <= hist[b]
    ensures forall c :: |hist| / 2 <= c < b ==> hist[c] < hist[b]
  {
    var mid := |hist| / 2;
    var right := hist[mid..];
    var k := ArgMax(right);
    assert forall c :: mid <= c < |hist| ==> right[c - mid] == hist[c];
    k + mid
  }

  // ---------------------------------------------------------------- nonzero pixels

  /** The set cells of one row from column x on, left to right. */
  function RowNonzero(row: seq<bool>, y: nat, x: nat): (ps: seq<Pixel>)
    requires x <= |row|
    ensures forall p :: p in ps <==> p.y == y && x <= p.x < |row| && row[p.x]
    decreases |row| - x
  {
    if x == |row| then []
    else (if row[x] then [Pixel(x, y)] else []) + RowNonzero(row, y, x + 1)
  }

  /** `binary_warped.nonzero()` from row y on: the set cells in row-major order, as pixels. */
  function Nonzero(mask: seq<seq<bool>>, y: nat): (ps: seq<Pixel>)
    requires y <= |mask|
    ensures forall p :: p in ps <==> y <= p.y && IsSet(mask, p)
    decreases |mask| - y
  {
    if y == |mask| then []
    else RowNonzero(mask[y], y, 0) + Nonzero(mask, y + 1)
  }

  // ---------------------------------------------------------------- windows

  /** A half-open box of rows [yLow, yHigh) and columns [xLow, xHigh). */
  datatype Box = Box(yLow: int, yHigh: int, xLow: int, xHigh: int)

  predicate InBox(p: Pixel, b: Box)
  {
    b.yLow <= p.y < b.yHigh && b.xLow <= p.x < b.xHigh
  }

  /** Window k (k = 0 at the bottom) for a current x position: rows
      [h - (k+1)*wh, h - k*wh), columns [current - 100, current + 100). */
  function WindowBox(h: nat, wh: nat, k: nat, current: int): Box
  {
    Box(h - Rows(k + 1, wh), h - Rows(k, wh), current - Margin, current + Margin)
  }

  /** The height of k bands, band by band. */
  function Rows(k: nat, wh: nat): nat
  {
    if k == 0 then 0 else Rows(k - 1, wh) + wh
  }

  /** k bands are k * wh rows. */
  lemma {:induction false} RowsIsProduct(k: nat, wh: nat)
    ensures Rows(k, wh) == k * wh
  {
    if k > 0 {
      RowsIsProduct(k - 1, wh);
      assert k * wh == (k - 1) * wh + wh;
    }
  }

  lemma {:induction false} RowsMonotone(j: nat, k: nat, wh: nat)
    requires j <= k
    ensures Rows(j, wh) <= Rows(k, wh)
    decreases k
  {
    if j < k {
      RowsMonotone(j, k - 1, wh);
    }
  }

  /** Each band is wh rows high, band 0 ends at the bottom row, and a later band lies entirely
      above an earlier one: the bands are ordered from the bottom up and pairwise disjoint. */
  lemma {:induction false} BandsOrdered(h: nat, wh: nat, j: nat, k: nat, cj: int, ck: int)
    requires j < k
    ensures WindowBox(h, wh, 0, cj).yHigh == h
    ensures WindowBox(h, wh, k, ck).yHigh - WindowBox(h, wh, k, ck).yLow == wh
    ensures WindowBox(h, wh, k, ck).yHigh <= WindowBox(h, wh, j, cj).yLow
    ensures forall p :: !(InBox(p, WindowBox(h, wh, j, cj)) && InBox(p, WindowBox(h, wh, k, ck)))
  {
    RowsMonotone(j + 1, k, wh);
  }

  /** `((nonzeroy >= lo) & ... ).nonzero()[0]` from index i on: the indices of the pixels in the
      box, ascending. */
  function Select(nz: seq<Pixel>, b: Box, i: nat): (inds: seq<nat>)
    requires i <= |nz|
    ensures forall k :: 0 <= k < |inds| ==> i <= inds[k] < |nz| && InBox(nz[inds[k]], b)
    decreases |nz| - i
  {
    if i == |nz| then []
    else (if InBox(nz[i], b) then [i] else []) + Select(nz, b, i + 1)
  }

  /** Every index from i on whose pixel lies in the box is selected. */
  lemma {:induction false} SelectComplete(nz: seq<Pixel>, b: Box, i: nat, j: nat)
    requires i <= j < |nz| && InBox(nz[j], b)
    ensures j in Select(nz, b, i)
    decreases |nz| - i
  {
    if i < j {
      SelectComplete(nz, b, i + 1, j);
    }
  }

  /** The selected indices ascend strictly, so none appears twice. */
  lemma {:induction false} SelectAscending(nz: seq<Pixel>, b: Box, i: nat)
    requires i <= |nz|
    ensures forall k, l :: 0 <= k < l < |Select(nz, b, i)| ==> Select(nz, b, i)[k] < Select(nz, b, i)[l]
    decreases |nz| - i
  {
    if i < |nz| {
      SelectAscending(nz, b, i + 1);
    }
  }

  /** The sum of the x coordinates of the indexed pixels. */
  function SumX(nz: seq<Pixel>, inds: seq<nat>): nat
    requires forall k :: 0 <= k < |inds| ==> inds[k] < |nz|
  {
    if inds == [] then 0 else nz[inds[0]].x + SumX(nz, inds[1..])
  }

  /** `np.int(np.mean(nonzerox[inds]))`; the coordinates are non-negative, so truncation toward
      zero is floor division. */
  function MeanX(nz: seq<Pixel>, inds: seq<nat>): int
    requires |inds| > 0
    requires forall k :: 0 <= k < |inds| ==> inds[k] < |nz|
  {
    SumX(nz, inds) / |inds|
  }

  lemma {:induction false} SumXBounds(nz: seq<Pixel>, inds: seq<nat>, lo: int, hi: int)
    requires forall k :: 0 <= k < |inds| ==> inds[k] < |nz| && lo <= nz[inds[k]].x < hi
    ensures lo * |inds| <= SumX(nz, inds) <= (hi - 1) * |inds|
  {
    if inds != [] {
      SumXBounds(nz, inds[1..], lo, hi);
      assert lo * |inds| == lo * |inds[1..]| + lo;
      assert (hi - 1) * |inds| == (hi - 1) * |inds[1..]| + (hi - 1);
    }
  }

  lemma DivBounds(s: nat, n: nat, lo: int, hi: int)
    requires n > 0 && lo * n <= s <= (hi - 1) * n
    ensures lo <= s / n < hi
  {
    var q, r := s / n, s % n;
    assert s == q * n + r && 0 <= r < n;
    assert s < (q + 1) * n;
    MulCancel(lo, q + 1, n);
    MulCancelLe(q, hi - 1, n);
  }

  lemma MulLe(a: int, b: int, n: nat)
    requires a <= b
    ensures a * n <= b * n
  {
    assert b * n - a * n == (b - a) * n;
  }

  lemma MulCancel(a: int, b: int, n: nat)
    requires n > 0 && a * n < b * n
    ensures a < b
  {
    if a >= b {
      MulLe(b, a, n);
    }
  }

  lemma MulCancelLe(a: int, b: int, n: nat)
    requires n > 0 && a * n <= b * n
    ensures a <= b
  {
    if a > b {
      MulLe(b + 1, a, n);
    }
  }

  /** The mean x of pixels that all lie in [lo, hi) lies in [lo, hi) too. */
  lemma MeanInRange(nz: seq<Pixel>, inds: seq<nat>, lo: int, hi: int)
    requires |inds| > 0
    requires forall k :: 0 <= k < |inds| ==> inds[k] < |nz| && lo <= nz[inds[k]].x < hi
    ensures lo <= MeanX(nz, inds) < hi
  {
    SumXBounds(nz, inds, lo, hi);
    DivBounds(SumX(nz, inds), |inds|, lo, hi);
  }

  /** The indices window k collects around the current x. */
  function Good(nz: seq<Pixel>, h: nat, wh: nat, k: nat, current: int): seq<nat>
  {
    Select(nz, WindowBox(h, wh, k, current), 0)
  }

  /** The next window's x: the truncated mean of the collected pixels when there are more than
      50 of them, the current x otherwise. */
  function Recenter(nz: seq<Pixel>, good: seq<nat>, current: int): int
    requires forall k :: 0 <= k < |good| ==> good[k] < |nz|
  {
    if |good| > MinPix then MeanX(nz, good) else current
  }

  /** One side of the search after windows 0 .. k-1: the x position the next window is centred
      on, and the index arrays appended so far. */
  datatype Side = Side(current: int, lists: seq<seq<nat>>)

  /** The search of one side from the seed `base` through windows 0 .. k-1. */
  function Slide(nz: seq<Pixel>, h: nat, wh: nat, base: int, k: nat): (s: Side)
    ensures |s.lists| == k
  {
    if k == 0 then Side(base, [])
    else
      var prev := Slide(nz, h, wh, base, k - 1);
      var good := Good(nz, h, wh, k - 1, prev.current);
      Side(Recenter(nz, good, prev.current), prev.lists + [good])
  }

  /** Window j collected the indices of its own box, centred where the search stood after j windows. */
  lemma {:induction false} SlideAt(nz: seq<Pixel>, h: nat, wh: nat, base: int, k: nat, j: nat)
    requires j < k
    ensures Slide(nz, h, wh, base, k).lists[j] == Good(nz, h, wh, j, Slide(nz, h, wh, base, j).current)
  {
    SlideStep(nz, h, wh, base, k - 1);
    if j < k - 1 {
      SlideAt(nz, h, wh, base, k - 1, j);
    }
  }

  /** One more window: its indices are appended and the x position recentred on them. */
  lemma SlideStep(nz: seq<Pixel>, h: nat, wh: nat, base: int, k: nat)
    ensures Slide(nz, h, wh, base, k + 1)
         == Side(Recenter(nz, Good(nz, h, wh, k, Slide(nz, h, wh, base, k).current), Slide(nz, h, wh, base, k).current),
                 Slide(nz, h, wh, base, k).lists + [Good(nz, h, wh, k, Slide(nz, h, wh, base, k).current)])
  {
  }

  /** `np.concatenate` of a list of index arrays. */
  function Concat(ls: seq<seq<nat>>): seq<nat>
  {
    if ls == [] then [] else Concat(ls[..|ls| - 1]) + ls[|ls| - 1]
  }

  /** A side's current x moves only after a window that collected more than 50 pixels, and then it
      stays inside that window: the new x is in [current - 100, current + 100). */
  lemma RecenterStaysInWindow(nz: seq<Pixel>, h: nat, wh: nat, base: int, k: nat)
    ensures Slide(nz, h, wh, base, k + 1).current != Slide(nz, h, wh, base, k).current
            ==> |Good(nz, h, wh, k, Slide(nz, h, wh, base, k).current)| > MinPix
    ensures Slide(nz, h, wh, base, k).current - Margin <= Slide(nz, h, wh, base, k + 1).current
    ensures Slide(nz, h, wh, base, k + 1).current < Slide(nz, h, wh, base, k).current + Margin
  {
    var c := Slide(nz, h, wh, base, k).current;
    var good := Good(nz, h, wh, k, c);
    if |good| > MinPix {
      MeanInRange(nz, good, c - Margin, c + Margin);
    }
  }

  /** `good` holds exactly the indices of the nonzero pixels inside `box`. */
  ghost predicate Collects(mask: seq<seq<bool>>, nz: seq<Pixel>, good: seq<nat>, box: Box)
  {
    && (forall i :: i in good ==> i < |nz| && IsSet(mask, nz[i]) && InBox(nz[i], box))
    && (forall p :: IsSet(mask, p) && InBox(p, box) ==> exists i :: i in good && nz[i] == p)
  }

  /** Every index collected by window j refers to a nonzero pixel inside that window's box, and
      every nonzero pixel inside the box is collected. */
  lemma WindowCollects(mask: seq<seq<bool>>, h: nat, wh: nat, base: int, k: nat, j: nat)
    requires j < k && h == |mask|
    ensures Collects(mask, Nonzero(mask, 0), Slide(Nonzero(mask, 0), h, wh, base, k).lists[j],
                     WindowBox(h, wh, j, Slide(Nonzero(mask, 0), h, wh, base, j).current))
  {
    var nz := Nonzero(mask, 0);
    SlideAt(nz, h, wh, base, k, j);
    var box := WindowBox(h, wh, j, Slide(nz, h, wh, base, j).current);
    var good := Slide(nz, h, wh, base, k).lists[j];
    forall p | IsSet(mask, p) && InBox(p, box) ensures exists i :: i in good && nz[i] == p {
      assert p in nz;
      var i :| 0 <= i < |nz| && nz[i] == p;
      SelectComplete(nz, box, 0, i);
    }
  }

  lemma {:induction false} ConcatMember(ls: seq<seq<nat>>, i: nat)
    ensures i in Concat(ls) <==> exists j :: 0 <= j < |ls| && i in ls[j]
  {
    if ls != [] {
      var init := ls[..|ls| - 1];
      ConcatMember(init, i);
      if i in Concat(init) {
        var j :| 0 <= j < |init| && i in init[j];
        assert ls[j] == init[j];
      }
      if exists j :: 0 <= j < |ls| && i in ls[j] {
        var j :| 0 <= j < |ls| && i in ls[j];
        if j < |ls| - 1 {
          assert init[j] == ls[j];
        }
      }
    }
  }

  predicate IndexesInto(inds: seq<nat>, n: nat)
  {
    forall a :: 0 <= a < |inds| ==> inds[a] < n
  }

  /** Every collected index is an index of the nonzero-pixel list. */
  lemma IndicesInRange(nz: seq<Pixel>, h: nat, wh: nat, base: int, k: nat)
    ensures IndexesInto(Concat(Slide(nz, h, wh, base, k).lists), |nz|)
  {
    var ls := Slide(nz, h, wh, base, k).lists;
    var c := Concat(ls);
    forall a | 0 <= a < |c| ensures c[a] < |nz| {
      ConcatMember(ls, c[a]);
      var j :| 0 <= j < k && c[a] in ls[j];
      SlideAt(nz, h, wh, base, k, j);
    }
  }

  /** Some window j < k, centred where the search stood, has p in its box. */
  ghost predicate InSomeWindow(p: Pixel, nz: seq<Pixel>, h: nat, wh: nat, base: int, k: nat)
  {
    exists j :: 0 <= j < k && InBox(p, WindowBox(h, wh, j, Slide(nz, h, wh, base, j).current))
  }

  /** Every index of a side's concatenated list refers to a nonzero pixel inside the box of one of
      the windows, centred where that window was centred. */
  lemma CollectedSound(mask: seq<seq<bool>>, h: nat, wh: nat, base: int, k: nat, i: nat)
    requires h == |mask|
    requires i in Concat(Slide(Nonzero(mask, 0), h, wh, base, k).lists)
    ensures i < |Nonzero(mask, 0)| && IsSet(mask, Nonzero(mask, 0)[i])
    ensures i < |Nonzero(mask, 0)| && InSomeWindow(Nonzero(mask, 0)[i], Nonzero(mask, 0), h, wh, base, k)
  {
    var nz := Nonzero(mask, 0);
    var ls := Slide(nz, h, wh, base, k).lists;
    ConcatMember(ls, i);
    var j :| 0 <= j < k && i in ls[j];
    WindowCollects(mask, h, wh, base, k, j);
  }

  predicate Distinct(s: seq<nat>)
  {
    forall a, b :: 0 <= a < b < |s| ==> s[a] != s[b]
  }

  /** No index appears twice in one side's concatenated list: within a window the indices ascend,
      and two windows' boxes lie in disjoint bands. */
  lemma {:induction false} CollectedDistinct(nz: seq<Pixel>, h: nat, wh: nat, base: int, k: nat)
    ensures Distinct(Concat(Slide(nz, h, wh, base, k).lists))
  {
    if k > 0 {
      var prev := Slide(nz, h, wh, base, k - 1);
      SlideStep(nz, h, wh, base, k - 1);
      var ls := Slide(nz, h, wh, base, k).lists;
      var init := prev.lists;
      var last := Good(nz, h, wh, k - 1, prev.current);
      assert ls == init + [last];
      assert ls[..k - 1] == init;
      var prefix := Concat(init);
      CollectedDistinct(nz, h, wh, base, k - 1);
      var ck := prev.current;
      forall x: nat | x in prefix
        ensures x < |nz| && !InBox(nz[x], WindowBox(h, wh, k - 1, ck))
      {
        ConcatMember(init, x);
        var j :| 0 <= j < k - 1 && x in init[j];
        SlideAt(nz, h, wh, base, k - 1, j);
        var cj := Slide(nz, h, wh, base, j).current;
        BandsOrdered(h, wh, j, k - 1, cj, ck);
      }
      SelectAscending(nz, WindowBox(h, wh, k - 1, ck), 0);
      DistinctAppend(nz, prefix, last, WindowBox(h, wh, k - 1, ck));
    }
  }

  /** Appending ascending indices of pixels inside a box to a duplicate-free list of indices whose
      pixels all lie outside that box keeps the list free of duplicates. */
  lemma DistinctAppend(nz: seq<Pixel>, prefix: seq<nat>, last: seq<nat>, b: Box)
    requires Distinct(prefix)
    requires forall x :: x in prefix ==> x < |nz| && !InBox(nz[x], b)
    requires forall k :: 0 <= k < |last| ==> last[k] < |nz| && InBox(nz[last[k]], b)
    requires forall k, l :: 0 <= k < l < |last| ==> last[k] < last[l]
    ensures Distinct(prefix + last)
  {
    var c := prefix + last;
    forall a, b | 0 <= a < b < |c| ensures c[a] != c[b] {
      if b < |prefix| {
        assert c[a] == prefix[a] && c[b] == prefix[b];
      } else if a >= |prefix| {
        assert c[a] == last[a - |prefix|] && c[b] == last[b - |prefix|];
      } else {
        assert c[a] == prefix[a] && c[a] in prefix;
        assert c[b] == last[b - |prefix|];
      }
    }
  }

  /** The window loop of `find_lane_polynomials`: nine windows from the bottom up, each side
      appending the indices in its box and recentring on more than 50 of them. */
  method SlideWindows(nz: seq<Pixel>, h: nat, leftBase: int, rightBase: int)
    returns (leftInds: seq<nat>, rightInds: seq<nat>)
    ensures leftInds == Concat(Slide(nz, h, h / NWindows, leftBase, NWindows).lists)
    ensures rightInds == Concat(Slide(nz, h, h / NWindows, rightBase, NWindows).lists)
  {
    var windowHeight := h / NWindows;
    var leftCurrent := leftBase;
    var rightCurrent := rightBase;
    var leftLists: seq<seq<nat>> := [];
    var rightLists: seq<seq<nat>> := [];
    var window := 0;
    while window < NWindows
      invariant 0 <= window <= NWindows
      invariant Side(leftCurrent, leftLists) == Slide(nz, h, windowHeight, leftBase, window)
      invariant Side(rightCurrent, rightLists) == Slide(nz, h, windowHeight, rightBase, window)
    {
      var goodLeft := Select(nz, WindowBox(h, windowHeight, window, leftCurrent), 0);
      var goodRight := Select(nz, WindowBox(h, windowHeight, window, rightCurrent), 0);
      SlideStep(nz, h, windowHeight, leftBase, window);
      SlideStep(nz, h, windowHeight, rightBase, window);
      leftLists := leftLists + [goodLeft];
      rightLists := rightLists + [goodRight];
      if |goodLeft| > MinPix {
        leftCurrent := MeanX(nz, goodLeft);
      }
      if |goodRight| > MinPix {
        rightCurrent := MeanX(nz, goodRight);
      }
      window := window + 1;
    }
    leftInds := Concat(leftLists);
    rightInds := Concat(rightLists);
  }

  // ---------------------------------------------------------------- fit and samples

  /** `np.polyfit(ys, xs, 2)`: a least-squares quadratic; floating-point library work. */
  type FitFn = (seq<int>, seq<int>) -> Poly

  function Xs(nz: seq<Pixel>, inds: seq<nat>): (xs: seq<int>)
    requires forall k :: 0 <= k < |inds| ==> inds[k] < |nz|
    ensures |xs| == |inds| && forall k :: 0 <= k < |inds| ==> xs[k] == nz[inds[k]].x
  {
    seq(|inds|, k requires 0 <= k < |inds| => nz[inds[k]].x)
  }

  function Ys(nz: seq<Pixel>, inds: seq<nat>): (ys: seq<int>)
    requires forall k :: 0 <= k < |inds| ==> inds[k] < |nz|
    ensures |ys| == |inds| && forall k :: 0 <= k < |inds| ==> ys[k] == nz[inds[k]].y
  {
    seq(|inds|, k requires 0 <= k < |inds| => nz[inds[k]].y)
  }

  /** `np.linspace(0, h - 1, 30)`. */
  function PlotY(h: nat): seq<real>
  {
    seq(SampleCount, i requires 0 <= i < SampleCount => (i as real) * ((h as real) - 1.0) / 29.0)
  }

  /** There are 30 sample rows, from 0 to h - 1; they ascend strictly when h >= 2. */
  lemma PlotYRows(h: nat)
    ensures |PlotY(h)| == SampleCount
    ensures PlotY(h)[0] == 0.0 && PlotY(h)[SampleCount - 1] == (h as real) - 1.0
    ensures h >= 2 ==> forall i, j :: 0 <= i < j < SampleCount ==> PlotY(h)[i] < PlotY(h)[j]
  {
    var s := PlotY(h);
    if h >= 2 {
      var d := (h as real) - 1.0;
      forall i, j | 0 <= i < j < SampleCount ensures s[i] < s[j] {
        assert s[i] == (i as real) * d / 29.0 && s[j] == (j as real) * d / 29.0;
        ScaledLt(i as real, j as real, d);
      }
    }
  }

  lemma ScaledLt(u: real, v: real, d: real)
    requires u < v && d > 0.0
    ensures u * d / 29.0 < v * d / 29.0
  {
    assert v * d - u * d == (v - u) * d;
  }

  /** What a successful search returns: `(left_fit, right_fit, left_fitx, right_fitx, ploty)`. */
  datatype SearchOutput = SearchOutput(
    leftFit: Poly, rightFit: Poly, leftFitX: seq<real>, rightFitX: seq<real>, plotY: seq<real>)

  /** Why a search raises: numpy's argmax of an empty left half (a mask narrower than 2 columns),
      or the explicit "No good data" when a side collected no pixel. */
  datatype SearchError = EmptyHalf | NoGoodData

  /** The pixel indices each side collects, given a grid at least 2 columns wide. */
  function SideIndices(mask: seq<seq<bool>>, width: nat, left: bool): (inds: seq<nat>)
    requires IsGrid(mask, width) && width >= 2
    ensures IndexesInto(inds, |Nonzero(mask, 0)|)
  {
    var hist := SeedHistogram(mask, width);
    var base := if left then LeftBase(hist) else RightBase(hist);
    var nz := Nonzero(mask, 0);
    var wh := |mask| / NWindows;
    var inds := Concat(Slide(nz, |mask|, wh, base, NWindows).lists);
    IndicesInRange(nz, |mask|, wh, base, NWindows);
    inds
  }

  /** `find_lane_polynomials(binary_warped)` as a function of the mask. */
  function Search(mask: seq<seq<bool>>, width: nat, fit: FitFn): Result<SearchOutput, SearchError>
    requires IsGrid(mask, width)
  {
    if width < 2 then Failure(EmptyHalf)
    else
      var nz := Nonzero(mask, 0);
      var leftInds := SideIndices(mask, width, true);
      var rightInds := SideIndices(mask, width, false);
      if |leftInds| == 0 || |rightInds| == 0 then Failure(NoGoodData)
      else
        var leftFit := fit(Ys(nz, leftInds), Xs(nz, leftInds));
        var rightFit := fit(Ys(nz, rightInds), Xs(nz, rightInds));
        var plotY := PlotY(|mask|);
        Success(SearchOutput(leftFit, rightFit, EvalAll(leftFit, plotY), EvalAll(rightFit, plotY), plotY))
  }

  /** The search fails with EmptyHalf exactly when the mask is narrower than 2 columns, and with
      "No good data" exactly when it is wide enough but a side collected no pixel; otherwise it
      succeeds. */
  lemma SearchOutcome(mask: seq<seq<bool>>, width: nat, fit: FitFn)
    requires IsGrid(mask, width)
    ensures Search(mask, width, fit) == Failure(EmptyHalf) <==> width < 2
    ensures Search(mask, width, fit) == Failure(NoGoodData)
        <==> width >= 2 && (|SideIndices(mask, width, true)| == 0 || |SideIndices(mask, width, false)| == 0)
    ensures Search(mask, width, fit).Success?
        <==> width >= 2 && |SideIndices(mask, width, true)| > 0 && |SideIndices(mask, width, false)| > 0
  {
  }

  /** A mask with no set cell has no nonzero pixel. */
  lemma NoSetPixels(mask: seq<seq<bool>>)
    requires forall y, x :: 0 <= y < |mask| && 0 <= x < |mask[y]| ==> !mask[y][x]
    ensures Nonzero(mask, 0) == []
  {
    FirstPixelSet(mask);
  }

  /** The first nonzero pixel, when there is one, is a set cell. */
  lemma FirstPixelSet(mask: seq<seq<bool>>)
    ensures |Nonzero(mask, 0)| > 0 ==> IsSet(mask, Nonzero(mask, 0)[0])
  {
    var nz := Nonzero(mask, 0);
    if |nz| > 0 {
      assert nz[0] in nz;
    }
  }

  /** An all-zero mask at least 2 columns wide fails with "No good data": no side collects a pixel,
      so no fit is attempted. */
  lemma ZeroMaskFails(mask: seq<seq<bool>>, width: nat, fit: FitFn)
    requires IsGrid(mask, width) && width >= 2
    requires forall y, x :: 0 <= y < |mask| && 0 <= x < |mask[y]| ==> !mask[y][x]
    ensures Search(mask, width, fit) == Failure(NoGoodData)
  {
    NoSetPixels(mask);
    FirstIndexInto(SideIndices(mask, width, true), |Nonzero(mask, 0)|);
  }

  /** The first index of a list that indexes into `n` elements is below `n`. */
  lemma FirstIndexInto(inds: seq<nat>, n: nat)
    requires IndexesInto(inds, n)
    ensures |inds| > 0 ==> inds[0] < n
  {
  }

  /** A successful search fits each side to exactly the (y, x) coordinates of the pixels that side
      collected, every one of them a set pixel of the mask, and samples both quadratics on the same
      30 rows from 0 to h - 1. */
  lemma SearchSuccess(mask: seq<seq<bool>>, width: nat, fit: FitFn)
    requires IsGrid(mask, width) && Search(mask, width, fit).Success?
    ensures var out := Search(mask, width, fit).value;
      && |out.plotY| == SampleCount
      && out.plotY[0] == 0.0 && out.plotY[SampleCount - 1] == (|mask| as real) - 1.0
      && |out.leftFitX| == SampleCount && |out.rightFitX| == SampleCount
      && (forall i :: 0 <= i < SampleCount ==>
            out.leftFitX[i] == Eval(out.leftFit, out.plotY[i])
            && out.rightFitX[i] == Eval(out.rightFit, out.plotY[i]))
    ensures width >= 2
    ensures FitsCollected(mask, SideIndices(mask, width, true), Search(mask, width, fit).value.leftFit, fit)
    ensures FitsCollected(mask, SideIndices(mask, width, false), Search(mask, width, fit).value.rightFit, fit)
  {
    PlotYRows(|mask|);
    var nz := Nonzero(mask, 0);
    SetPixels(mask, SideIndices(mask, width, true));
    SetPixels(mask, SideIndices(mask, width, false));
  }

  /** `fitted` is the fit of the collected pixels' coordinates, and each of them is a set pixel. */
  predicate FitsCollected(mask: seq<seq<bool>>, inds: seq<nat>, fitted: Poly, fit: FitFn)
  {
    var nz := Nonzero(mask, 0);
    && IndexesInto(inds, |nz|)
    && fitted == fit(Ys(nz, inds), Xs(nz, inds))
    && forall k :: 0 <= k < |inds| ==> IsSet(mask, Pixel(Xs(nz, inds)[k], Ys(nz, inds)[k]))
  }

  lemma SetPixels(mask: seq<seq<bool>>, inds: seq<nat>)
    requires IndexesInto(inds, |Nonzero(mask, 0)|)
    ensures forall k :: 0 <= k < |inds| ==>
      IsSet(mask, Pixel(Xs(Nonzero(mask, 0), inds)[k], Ys(Nonzero(mask, 0), inds)[k]))
  {
    var nz := Nonzero(mask, 0);
    forall k | 0 <= k < |inds| ensures IsSet(mask, Pixel(Xs(nz, inds)[k], Ys(nz, inds)[k])) {
      assert nz[inds[k]] in nz;
      assert Pixel(Xs(nz, inds)[k], Ys(nz, inds)[k]) == nz[inds[k]];
    }
  }

  /** The seeding histogram, built in an array whose edge columns are then zeroed in place. */
  method SeedHistogramArray(mask: seq<seq<bool>>, width: nat) returns (hist: seq<int>)
    requires IsGrid(mask, width)
    ensures hist == SeedHistogram(mask, width)
  {
    var counts := Histogram(mask, width);
    var histogram := new int[width](c => if 0 <= c < |counts| then counts[c] else 0);
    assert histogram[..] == counts;
    ZeroEdges(histogram);
    hist := histogram[..];
  }

  /** `find_lane_polynomials(binary_warped)`: the halves of the histogram seed the two sides, the
      window loop collects each side's pixels, and the fits are sampled on 30 rows. */
  method FindLanePolynomials(mask: seq<seq<bool>>, width: nat, fit: FitFn)
    returns (r: Result<SearchOutput, SearchError>)
    requires IsGrid(mask, width)
    ensures r == Search(mask, width, fit)
  {
    var h := |mask|;
    var hist := SeedHistogramArray(mask, width);
    var midpoint := width / 2;
    if midpoint == 0 {
      return Failure(EmptyHalf);
    }
    var leftBase := LeftBase(hist);
    var rightBase := RightBase(hist);
    var nz := Nonzero(mask, 0);
    var leftInds, rightInds := SlideWindows(nz, h, leftBase, rightBase);
    assert leftInds == SideIndices(mask, width, true);
    assert rightInds == SideIndices(mask, width, false);
    if |leftInds| == 0 || |rightInds| == 0 {
      return Failure(NoGoodData);
    }
    var leftFit := fit(Ys(nz, leftInds), Xs(nz, leftInds));
    var rightFit := fit(Ys(nz, rightInds), Xs(nz, rightInds));
    var plotY := PlotY(h);
    r := Success(SearchOutput(leftFit, rightFit, EvalAll(leftFit, plotY), EvalAll(rightFit, plotY), plotY));
  }
}
