/** Fleet layout: where `_create_fleet` places the aliens of a fresh fleet.
    The two nested `while` loops of the source visit x positions w, 3w, 5w, ... below
    screen_width - 2w and y positions h, 3h, 5h, ... below screen_height - 3h, and
    place one alien at every (x, y) pair, row by row. */
module Fleet {

  /** An alien's rectangle, given by its top-left corner. Every alien has the
      width and height of the alien sprite, so those live in the configuration. */
  datatype Alien = Alien(x: int, y: int)

  /** The i-th position of a run that starts at `start` and advances by `step`. */
  function Slot(start: int, step: int, i: nat): int
  {
    start + step * i
  }

  /** The positions start, start + step, ... strictly below `limit`: the values
      that one `while current < limit: ...; current += step` loop visits. */
  function Strip(start: int, step: int, limit: int): seq<int>
    requires step > 0
    decreases limit - start
  {
    if start < limit then [start] + Strip(start + step, step, limit) else []
  }

  /** One row of aliens at height y, one per x in xs, left to right. */
  function Row(xs: seq<int>, y: int): seq<Alien>
  {
    if xs == [] then [] else Row(xs[..|xs| - 1], y) + [Alien(xs[|xs| - 1], y)]
  }

  /** Rows of aliens, one row per y in ys, top to bottom. */
  function Grid(xs: seq<int>, ys: seq<int>): seq<Alien>
  {
    if ys == [] then [] else Grid(xs, ys[..|ys| - 1]) + Row(xs, ys[|ys| - 1])
  }

  /** The x positions of the columns: w + 2w·i below screen_width - 2w. */
  function Columns(w: int, screenWidth: int): seq<int>
    requires w > 0
  {
    Strip(w, 2 * w, screenWidth - 2 * w)
  }

  /** The y positions of the rows: h + 2h·j below screen_height - 3h. */
  function RowTops(h: int, screenHeight: int): seq<int>
    requires h > 0
  {
    Strip(h, 2 * h, screenHeight - 3 * h)
  }

  /** The fleet that `_create_fleet` builds for an alien sprite of size w × h. */
  function FleetLayout(w: int, h: int, screenWidth: int, screenHeight: int): seq<Alien>
    requires w > 0 && h > 0
  {
    Grid(Columns(w, screenWidth), RowTops(h, screenHeight))
  }

  lemma RowSnoc(xs: seq<int>, x: int, y: int)
    ensures Row(xs + [x], y) == Row(xs, y) + [Alien(x, y)]
  {
    assert (xs + [x])[..|xs|] == xs;
  }

  lemma GridSnoc(xs: seq<int>, ys: seq<int>, y: int)
    ensures Grid(xs, ys + [y]) == Grid(xs, ys) + Row(xs, y)
  {
    assert (ys + [y])[..|ys|] == ys;
  }

  /** One more step of a strip-walking loop: the visited prefix grows by `start`. */
  lemma StripStep(done: seq<int>, start: int, step: int, limit: int)
    requires step > 0 && start < limit
    ensures done + Strip(start, step, limit) == (done + [start]) + Strip(start + step, step, limit)
  {
  }

  /** One pass of the inner loop of `_create_fleet`: placing the alien at x extends
      the row by one column and leaves the rest of the strip to walk. */
  lemma ColumnStep(xs: seq<int>, done: seq<int>, x: int, step: int, limit: int,
                   rowStart: seq<Alien>, y: int)
    requires step > 0 && x < limit
    requires xs == done + Strip(x, step, limit)
    ensures xs == (done + [x]) + Strip(x + step, step, limit)
    ensures rowStart + Row(done, y) + [Alien(x, y)] == rowStart + Row(done + [x], y)
  {
    StripStep(done, x, step, limit);
    RowSnoc(done, x, y);
    assert rowStart + Row(done, y) + [Alien(x, y)] == rowStart + (Row(done, y) + [Alien(x, y)]);
  }

  /** One pass of the outer loop of `_create_fleet`: a finished row extends the grid
      by one row. */
  lemma RowStep(xs: seq<int>, done: seq<int>, y: int, before: seq<Alien>)
    ensures before + Grid(xs, done) + Row(xs, y) == before + Grid(xs, done + [y])
  {
    var g, r := Grid(xs, done), Row(xs, y);
    GridSnoc(xs, done, y);
    assert before + g + r == before + (g + r);
  }

  lemma MulNonNegative(a: int, b: int)
    requires a >= 0 && b >= 0
    ensures a * b >= 0
  {
  }

  lemma MulStep(a: int, b: int)
    ensures a * (b + 1) == a * b + a
  {
  }

  /** The i-th element of a strip exists exactly when Slot(start, step, i) is below
      the limit, and then it is that slot. */
  lemma {:induction false} StripAt(start: int, step: int, limit: int, i: nat)
    requires step > 0
    ensures i < |Strip(start, step, limit)| <==> Slot(start, step, i) < limit
    ensures i < |Strip(start, step, limit)| ==> Strip(start, step, limit)[i] == Slot(start, step, i)
    decreases limit - start
  {
    if start < limit {
      if i > 0 {
        StripAt(start + step, step, limit, i - 1);
        MulStep(step, i - 1);
        assert Slot(start + step, step, i - 1) == Slot(start, step, i);
      }
    } else {
      MulNonNegative(step, i);
    }
  }

  /** Every element of a strip is a slot below the limit. */
  lemma {:induction false} StripMembers(start: int, step: int, limit: int, v: int)
    requires step > 0
    requires v in Strip(start, step, limit)
    ensures exists i: nat :: i < |Strip(start, step, limit)| && v == Slot(start, step, i) && v < limit
  {
    var s := Strip(start, step, limit);
    var i :| 0 <= i < |s| && s[i] == v;
    StripAt(start, step, limit, i);
  }

  lemma {:induction false} RowAt(xs: seq<int>, y: int)
    ensures |Row(xs, y)| == |xs|
    ensures forall i :: 0 <= i < |xs| ==> Row(xs, y)[i] == Alien(xs[i], y)
  {
    if xs != [] {
      RowAt(xs[..|xs| - 1], y);
    }
  }

  lemma IndexInRow(n: int, j: int, i: int)
    requires 0 <= i < n && 0 <= j
    ensures j * n <= j * n + i < (j + 1) * n
  {
    MulStep(j, n - 1);
  }

  lemma {:induction false} MulMono(a: int, b: int, n: int)
    requires 0 <= a <= b && n >= 0
    ensures a * n <= b * n
  {
    MulNonNegative(b - a, n);
  }

  /** A grid has |xs| · |ys| aliens. */
  lemma {:induction false} GridLength(xs: seq<int>, ys: seq<int>)
    ensures |Grid(xs, ys)| == |xs| * |ys|
  {
    if ys != [] {
      GridLength(xs, ys[..|ys| - 1]);
      RowAt(xs, ys[|ys| - 1]);
      MulStep(|xs|, |ys| - 1);
    }
  }

  /** The alien of column i in row j sits at index j·|xs| + i of the grid, with
      x = xs[i] and y = ys[j] (row-major order). */
  lemma {:induction false} GridAt(xs: seq<int>, ys: seq<int>, i: int, j: int)
    requires 0 <= i < |xs| && 0 <= j < |ys|
    ensures |Grid(xs, ys)| == |xs| * |ys|
    ensures Grid(xs, ys)[j * |xs| + i] == Alien(xs[i], ys[j])
  {
    var n, m := |xs|, |ys|;
    var front := ys[..m - 1];
    var k := j * n + i;
    GridLength(xs, ys);
    GridLength(xs, front);
    RowAt(xs, ys[m - 1]);
    IndexInRow(n, j, i);
    assert Grid(xs, ys) == Grid(xs, front) + Row(xs, ys[m - 1]);
    if j < m - 1 {
      MulMono(j + 1, m - 1, n);
      assert k < |Grid(xs, front)|;
      GridAt(xs, front, i, j);
      assert front[j] == ys[j];
    } else {
      assert k - |Grid(xs, front)| == i;
    }
  }

  /** Every alien of a grid takes its x from xs and its y from ys. */
  lemma {:induction false} GridMembers(xs: seq<int>, ys: seq<int>, a: Alien)
    requires a in Grid(xs, ys)
    ensures a.x in xs && a.y in ys
  {
    var m := |ys|;
    var front := ys[..m - 1];
    RowAt(xs, ys[m - 1]);
    if a in Grid(xs, front) {
      GridMembers(xs, front, a);
      assert a.y in ys by {
        var k :| 0 <= k < |front| && front[k] == a.y;
        assert ys[k] == a.y;
      }
    }
  }

  /** The fleet holds columns × rows aliens. */
  lemma FleetLayoutSize(w: int, h: int, screenWidth: int, screenHeight: int)
    requires w > 0 && h > 0
    ensures |FleetLayout(w, h, screenWidth, screenHeight)|
            == |Columns(w, screenWidth)| * |RowTops(h, screenHeight)|
  {
    GridLength(Columns(w, screenWidth), RowTops(h, screenHeight));
  }

  /** The layout of `_create_fleet`: there is an alien for column i and row j exactly
      when x = w + 2w·i < screen_width - 2w and y = h + 2h·j < screen_height - 3h,
      and it sits at index j·columns + i of the fleet. */
  lemma FleetLayoutAt(w: int, h: int, screenWidth: int, screenHeight: int, i: nat, j: nat)
    requires w > 0 && h > 0
    ensures (i < |Columns(w, screenWidth)| && j < |RowTops(h, screenHeight)|) <==>
            (Slot(w, 2 * w, i) < screenWidth - 2 * w && Slot(h, 2 * h, j) < screenHeight - 3 * h)
    ensures i < |Columns(w, screenWidth)| && j < |RowTops(h, screenHeight)| ==>
            && j * |Columns(w, screenWidth)| + i < |FleetLayout(w, h, screenWidth, screenHeight)|
            && FleetLayout(w, h, screenWidth, screenHeight)[j * |Columns(w, screenWidth)| + i]
               == Alien(Slot(w, 2 * w, i), Slot(h, 2 * h, j))
  {
    var xs, ys := Columns(w, screenWidth), RowTops(h, screenHeight);
    StripAt(w, 2 * w, screenWidth - 2 * w, i);
    StripAt(h, 2 * h, screenHeight - 3 * h, j);
    if i < |xs| && j < |ys| {
      GridAt(xs, ys, i, j);
      IndexInRow(|xs|, j, i);
      MulMono(j + 1, |ys|, |xs|);
    }
  }

  /** The fleet has at least one alien exactly when the screen is more than three
      alien widths wide and more than four alien heights high. */
  lemma FleetLayoutNonEmpty(w: int, h: int, screenWidth: int, screenHeight: int)
    requires w > 0 && h > 0
    ensures FleetLayout(w, h, screenWidth, screenHeight) != [] <==>
            3 * w < screenWidth && 4 * h < screenHeight
  {
    FleetLayoutAt(w, h, screenWidth, screenHeight, 0, 0);
    FleetLayoutSize(w, h, screenWidth, screenHeight);
  }

  /** No alien of the fleet lies outside the margins: each one sits on a slot
      w + 2w·i < screen_width - 2w, h + 2h·j < screen_height - 3h. */
  lemma FleetLayoutMembers(w: int, h: int, screenWidth: int, screenHeight: int, a: Alien)
    requires w > 0 && h > 0
    requires a in FleetLayout(w, h, screenWidth, screenHeight)
    ensures exists i: nat :: a.x == Slot(w, 2 * w, i) && a.x < screenWidth - 2 * w
    ensures exists j: nat :: a.y == Slot(h, 2 * h, j) && a.y < screenHeight - 3 * h
  {
    GridMembers(Columns(w, screenWidth), RowTops(h, screenHeight), a);
    StripMembers(w, 2 * w, screenWidth - 2 * w, a.x);
    StripMembers(h, 2 * h, screenHeight - 3 * h, a.y);
  }
}
