/** The shape tessellators of the drawing window
    (Creabroderie/debug.py:919-977): a canvas oval becomes a ring of NORMAL
    stitches closed by an END stitch, a rectangle a back-and-forth fill of
    horizontal rows, a text item a single stitch. Canvas coordinates are
    pixels; a stitch is placed at a tenth of them. */
module Tessellate {
  import opened Stitch

  /** `math.pi`. */
  const Pi: real := 3.141592653589793

  function Max(a: real, b: real): real
  {
    if a >= b then a else b
  }

  /** The ellipse inscribed in a canvas oval's bounding box. */
  datatype Ellipse = Ellipse(cx: real, cy: real, rx: real, ry: real)

  function EllipseOf(x1: real, y1: real, x2: real, y2: real): Ellipse
  {
    Ellipse((x1 + x2) / 2.0, (y1 + y2) / 2.0, (x2 - x1) / 2.0, (y2 - y1) / 2.0)
  }

  /** `int(max(radius_x, radius_y) * density)`. */
  function RingSize(e: Ellipse, density: real): int
  {
    Trunc(Max(e.rx, e.ry) * density)
  }

  /** Stitch `i` of `n` around the ellipse, at angle `2 * pi * i / n`. */
  function RingPoint(e: Ellipse, n: nat, i: nat, color: int, cos: real -> real, sin: real -> real): StitchPoint
    requires n > 0
  {
    var angle := 2.0 * Pi * i as real / n as real;
    StitchPoint((e.cx + e.rx * cos(angle)) / 10.0, (e.cy + e.ry * sin(angle)) / 10.0, Normal, color)
  }

  /** The first `k` stitches of the ring of `n`. */
  function Ring(e: Ellipse, n: nat, k: nat, color: int, cos: real -> real, sin: real -> real): seq<StitchPoint>
    requires n > 0
  {
    if k == 0 then [] else Ring(e, n, k - 1, color, cos, sin) + [RingPoint(e, n, k - 1, color, cos, sin)]
  }

  lemma {:induction false} RingAt(e: Ellipse, n: nat, k: nat, color: int, cos: real -> real, sin: real -> real)
    requires n > 0
    ensures |Ring(e, n, k, color, cos, sin)| == k
    ensures forall i | 0 <= i < k :: Ring(e, n, k, color, cos, sin)[i] == RingPoint(e, n, i, color, cos, sin)
  {
    if k > 0 {
      RingAt(e, n, k - 1, color, cos, sin);
    }
  }

  /** `_circle_to_stitches`: ValueError unless the coordinates are exactly
      four numbers; IndexError (from `points[0]`) when the ring is empty;
      otherwise the ring followed by an END stitch on its first point. */
  function CirclePoints(coords: seq<real>, color: int, density: real, cos: real -> real, sin: real -> real): Result<seq<StitchPoint>>
  {
    if |coords| != 4 then Failure(ValueError)
    else
      var e := EllipseOf(coords[0], coords[1], coords[2], coords[3]);
      var n := RingSize(e, density);
      if n <= 0 then Failure(IndexError)
      else
        var ring := Ring(e, n, n, color, cos, sin);
        RingAt(e, n, n, color, cos, sin);
        Success(ring + [StitchPoint(ring[0].x, ring[0].y, End, color)])
  }

  /** The circle succeeds exactly for four coordinates and a positive ring
      size `n`; it then gives `n` NORMAL stitches of the shape's colour, at
      the angles `2 * pi * i / n`, and one END stitch on the first of them. */
  lemma CircleShape(coords: seq<real>, color: int, density: real, cos: real -> real, sin: real -> real)
    ensures var r := CirclePoints(coords, color, density, cos, sin);
      && (r.Success? <==> |coords| == 4 && RingSize(EllipseOf(coords[0], coords[1], coords[2], coords[3]), density) > 0)
      && (r.Failure? ==> r.error == (if |coords| != 4 then ValueError else IndexError))
    ensures var r := CirclePoints(coords, color, density, cos, sin);
      r.Success? ==>
        var e := EllipseOf(coords[0], coords[1], coords[2], coords[3]);
        var n := RingSize(e, density);
        var pts := r.value;
        && |pts| == n + 1
        && (forall i | 0 <= i < n :: pts[i] == RingPoint(e, n, i, color, cos, sin))
        && (forall i | 0 <= i < n :: pts[i].kind == Normal)
        && pts[n].kind == End && pts[n].x == pts[0].x && pts[n].y == pts[0].y
        && (forall i | 0 <= i <= n :: pts[i].colorIndex == color)
  {
    if |coords| == 4 {
      var e := EllipseOf(coords[0], coords[1], coords[2], coords[3]);
      var n := RingSize(e, density);
      if n > 0 {
        RingAt(e, n, n, color, cos, sin);
      }
    }
  }

  lemma ClosedRing(coords: seq<real>, color: int, density: real, cos: real -> real, sin: real -> real, e: Ellipse)
    requires |coords| == 4 && e == EllipseOf(coords[0], coords[1], coords[2], coords[3]) && RingSize(e, density) > 0
    ensures var n := RingSize(e, density);
      var ring := Ring(e, n, n, color, cos, sin);
      |ring| == n && CirclePoints(coords, color, density, cos, sin) == Success(ring + [StitchPoint(ring[0].x, ring[0].y, End, color)])
  {
    var n := RingSize(e, density);
    RingAt(e, n, n, color, cos, sin);
  }

  /** The `for i in range(num_points)` loop of `_circle_to_stitches`. */
  method WalkRing(centerX: real, centerY: real, radiusX: real, radiusY: real, numPoints: int, color: int,
                  cos: real -> real, sin: real -> real)
    returns (points: seq<StitchPoint>)
    ensures numPoints <= 0 ==> points == []
    ensures numPoints > 0 ==> points == Ring(Ellipse(centerX, centerY, radiusX, radiusY), numPoints, numPoints, color, cos, sin)
  {
    ghost var e := Ellipse(centerX, centerY, radiusX, radiusY);
    points := [];
    var i := 0;
    while i < numPoints
      invariant 0 <= i && (numPoints > 0 ==> i <= numPoints)
      invariant numPoints <= 0 ==> points == []
      invariant numPoints > 0 ==> points == Ring(e, numPoints, i, color, cos, sin)
    {
      var angle := 2.0 * Pi * i as real / numPoints as real;
      var x := centerX + radiusX * cos(angle);
      var y := centerY + radiusY * sin(angle);
      assert RingPoint(e, numPoints, i, color, cos, sin) == StitchPoint(x / 10.0, y / 10.0, Normal, color) by {
        assert angle == 2.0 * Pi * i as real / numPoints as real;
        assert x == e.cx + e.rx * cos(angle) && y == e.cy + e.ry * sin(angle);
      }
      points := points + [StitchPoint(x / 10.0, y / 10.0, Normal, color)];
      i := i + 1;
    }
  }

  /** `_circle_to_stitches`, with `math.cos` and `math.sin` as parameters. */
  method CircleToStitches(coords: seq<real>, color: int, density: real, cos: real -> real, sin: real -> real)
    returns (r: Result<seq<StitchPoint>>)
    ensures r == CirclePoints(coords, color, density, cos, sin)
  {
    if |coords| != 4 {
      return Failure(ValueError);
    }
    var x1, y1, x2, y2 := coords[0], coords[1], coords[2], coords[3];
    var centerX := (x1 + x2) / 2.0;
    var centerY := (y1 + y2) / 2.0;
    var radiusX := (x2 - x1) / 2.0;
    var radiusY := (y2 - y1) / 2.0;
    var numPoints := Trunc(Max(radiusX, radiusY) * density);
    assert numPoints == RingSize(EllipseOf(x1, y1, x2, y2), density);
    var points := WalkRing(centerX, centerY, radiusX, radiusY, numPoints, color, cos, sin);
    ghost var e := Ellipse(centerX, centerY, radiusX, radiusY);
    if numPoints > 0 {
      RingAt(e, numPoints, numPoints, color, cos, sin);
    }
    if |points| == 0 {
      return Failure(IndexError);
    }
    ClosedRing(coords, color, density, cos, sin, e);
    points := points + [StitchPoint(points[0].x, points[0].y, End, color)];
    return Success(points);
  }

  /** How many rows `while y <= y2` fills when `y` starts at `y1` and steps
      by `1 / density`, in exact arithmetic. */
  function RowCount(y1: real, y2: real, density: real): nat
    requires density > 0.0
  {
    if y1 > y2 then 0 else ((y2 - y1) * density).Floor + 1
  }

  /** Row `k` is filled exactly when its height `y1 + k / density` is still
      at most `y2`. */
  lemma RowCountExact(y1: real, y2: real, density: real, k: nat)
    requires density > 0.0
    ensures k < RowCount(y1, y2, density) <==> y1 + k as real * (1.0 / density) <= y2
  {
    var spacing := 1.0 / density;
    assert spacing * density == 1.0;
    assert k as real * spacing * density == k as real;
    if y1 + k as real * spacing <= y2 {
      assert k as real * spacing <= y2 - y1;
      assert k as real <= (y2 - y1) * density;
    } else {
      assert k as real * spacing > y2 - y1;
      assert k as real > (y2 - y1) * density;
    }
  }

  /** A stitch at a tenth of the pixel position. */
  function RowStitch(x: real, y: real, color: int): StitchPoint
  {
    StitchPoint(x / 10.0, y / 10.0, Normal, color)
  }

  /** Row `j`: left to right on even rows, right to left on odd ones. */
  function RowPair(x1: real, x2: real, y: real, j: nat, color: int): seq<StitchPoint>
  {
    if j % 2 == 0 then [RowStitch(x1, y, color), RowStitch(x2, y, color)]
    else [RowStitch(x2, y, color), RowStitch(x1, y, color)]
  }

  /** The height of row `j`. */
  function RowY(y1: real, spacing: real, j: nat): real
  {
    y1 + j as real * spacing
  }

  /** The first `k` rows, row `j` at height `y1 + j * spacing`. */
  function Rows(x1: real, y1: real, x2: real, spacing: real, color: int, k: nat): seq<StitchPoint>
  {
    if k == 0 then [] else Rows(x1, y1, x2, spacing, color, k - 1) + RowPair(x1, x2, RowY(y1, spacing, k - 1), k - 1, color)
  }

  lemma {:induction false} RowsLength(x1: real, y1: real, x2: real, spacing: real, color: int, k: nat)
    ensures |Rows(x1, y1, x2, spacing, color, k)| == 2 * k
  {
    if k > 0 {
      RowsLength(x1, y1, x2, spacing, color, k - 1);
    }
  }

  /** Stitches `2j` and `2j + 1` are row `j`. */
  lemma {:induction false} RowAt(x1: real, y1: real, x2: real, spacing: real, color: int, k: nat, j: nat)
    requires j < k
    ensures |Rows(x1, y1, x2, spacing, color, k)| == 2 * k
    ensures var row := RowPair(x1, x2, RowY(y1, spacing, j), j, color);
      Rows(x1, y1, x2, spacing, color, k)[2 * j] == row[0] && Rows(x1, y1, x2, spacing, color, k)[2 * j + 1] == row[1]
  {
    RowsLength(x1, y1, x2, spacing, color, k - 1);
    if j < k - 1 {
      RowAt(x1, y1, x2, spacing, color, k - 1, j);
    }
  }

  /** Rows come as pairs of NORMAL stitches of the shape's colour sharing one
      height; even rows run from x1 to x2, odd rows back, so each row starts
      where the previous one ended. */
  lemma RowsAt(x1: real, y1: real, x2: real, spacing: real, color: int, k: nat)
    ensures |Rows(x1, y1, x2, spacing, color, k)| == 2 * k
    ensures forall j | 0 <= j < k ::
      var row := RowPair(x1, x2, RowY(y1, spacing, j), j, color);
      Rows(x1, y1, x2, spacing, color, k)[2 * j] == row[0] && Rows(x1, y1, x2, spacing, color, k)[2 * j + 1] == row[1]
  {
    RowsLength(x1, y1, x2, spacing, color, k);
    forall j | 0 <= j < k
      ensures var row := RowPair(x1, x2, RowY(y1, spacing, j), j, color);
        Rows(x1, y1, x2, spacing, color, k)[2 * j] == row[0] && Rows(x1, y1, x2, spacing, color, k)[2 * j + 1] == row[1]
    {
      RowAt(x1, y1, x2, spacing, color, k, j);
    }
  }

  /** Every stitch of the fill is a NORMAL stitch of the shape's colour. */
  lemma RowsKinds(x1: real, y1: real, x2: real, spacing: real, color: int, k: nat)
    ensures var pts := Rows(x1, y1, x2, spacing, color, k);
      |pts| == 2 * k && forall i | 0 <= i < 2 * k :: pts[i].kind == Normal && pts[i].colorIndex == color
  {
    RowsLength(x1, y1, x2, spacing, color, k);
    var pts := Rows(x1, y1, x2, spacing, color, k);
    forall i | 0 <= i < 2 * k ensures pts[i].kind == Normal && pts[i].colorIndex == color {
      var j := i / 2;
      assert i == 2 * j || i == 2 * j + 1;
      RowShapeAt(x1, y1, x2, spacing, color, k, j);
    }
  }

  /** Both stitches of row `j` lie at its height; even rows run from x1 to
      x2, odd rows back. */
  lemma RowsShape(x1: real, y1: real, x2: real, spacing: real, color: int, k: nat)
    ensures var pts := Rows(x1, y1, x2, spacing, color, k);
      && |pts| == 2 * k
      && (forall j | 0 <= j < k :: pts[2 * j].y == pts[2 * j + 1].y == RowY(y1, spacing, j) / 10.0)
      && (forall j | 0 <= j < k ::
            if j % 2 == 0 then pts[2 * j].x == x1 / 10.0 && pts[2 * j + 1].x == x2 / 10.0
            else pts[2 * j].x == x2 / 10.0 && pts[2 * j + 1].x == x1 / 10.0)
  {
    RowsLength(x1, y1, x2, spacing, color, k);
    var pts := Rows(x1, y1, x2, spacing, color, k);
    forall j | 0 <= j < k
      ensures pts[2 * j].y == pts[2 * j + 1].y == RowY(y1, spacing, j) / 10.0
      ensures if j % 2 == 0 then pts[2 * j].x == x1 / 10.0 && pts[2 * j + 1].x == x2 / 10.0
              else pts[2 * j].x == x2 / 10.0 && pts[2 * j + 1].x == x1 / 10.0
    {
      RowShapeAt(x1, y1, x2, spacing, color, k, j);
    }
  }

  /** Each row starts where the previous one ended, so the needle never
      jumps across the fill. */
  lemma RowsContinuous(x1: real, y1: real, x2: real, spacing: real, color: int, k: nat)
    ensures var pts := Rows(x1, y1, x2, spacing, color, k);
      |pts| == 2 * k && forall j | 0 < j < k :: pts[2 * j].x == pts[2 * (j - 1) + 1].x
  {
    RowsLength(x1, y1, x2, spacing, color, k);
    var pts := Rows(x1, y1, x2, spacing, color, k);
    forall j | 0 < j < k ensures pts[2 * j].x == pts[2 * (j - 1) + 1].x {
      RowJoinAt(x1, y1, x2, spacing, color, k, j - 1, j);
    }
  }

  lemma RowJoinAt(x1: real, y1: real, x2: real, spacing: real, color: int, k: nat, i: nat, j: nat)
    requires j < k && i + 1 == j
    ensures |Rows(x1, y1, x2, spacing, color, k)| == 2 * k
    ensures Rows(x1, y1, x2, spacing, color, k)[2 * j].x == Rows(x1, y1, x2, spacing, color, k)[2 * i + 1].x
  {
    var pts := Rows(x1, y1, x2, spacing, color, k);
    RowsLength(x1, y1, x2, spacing, color, k);
    var even := j % 2 == 0;
    assert even == (i % 2 == 1);
    assert pts[2 * j].x == (if even then x1 / 10.0 else x2 / 10.0) by {
      RowShapeAt(x1, y1, x2, spacing, color, k, j);
    }
    assert pts[2 * i + 1].x == (if even then x1 / 10.0 else x2 / 10.0) by {
      RowShapeAt(x1, y1, x2, spacing, color, k, i);
    }
  }

  /** Row `j` in terms of its two stitches. */
  lemma RowShapeAt(x1: real, y1: real, x2: real, spacing: real, color: int, k: nat, j: nat)
    requires j < k
    ensures var pts := Rows(x1, y1, x2, spacing, color, k);
      && |pts| == 2 * k
      && pts[2 * j].kind == Normal && pts[2 * j].colorIndex == color
      && pts[2 * j + 1].kind == Normal && pts[2 * j + 1].colorIndex == color
      && pts[2 * j].y == pts[2 * j + 1].y == RowY(y1, spacing, j) / 10.0
      && (if j % 2 == 0 then pts[2 * j].x == x1 / 10.0 && pts[2 * j + 1].x == x2 / 10.0
          else pts[2 * j].x == x2 / 10.0 && pts[2 * j + 1].x == x1 / 10.0)
  {
    RowAt(x1, y1, x2, spacing, color, k, j);
  }

  /** `_rectangle_to_stitches`: ValueError unless the coordinates are
      exactly four numbers, otherwise every row from `y1` while it is at
      most `y2`; no END stitch, and no rows when `y1 > y2`. */
  function RectanglePoints(coords: seq<real>, color: int, density: real): Result<seq<StitchPoint>>
    requires density > 0.0
  {
    if |coords| != 4 then Failure(ValueError)
    else Success(Rows(coords[0], coords[1], coords[2], 1.0 / density, color, RowCount(coords[1], coords[3], density)))
  }

  lemma NextRows(x1: real, y1: real, x2: real, spacing: real, color: int, k: nat, y: real)
    requires y == RowY(y1, spacing, k)
    ensures Rows(x1, y1, x2, spacing, color, k + 1) == Rows(x1, y1, x2, spacing, color, k) + RowPair(x1, x2, y, k, color)
    ensures y + spacing == RowY(y1, spacing, k + 1)
  {
  }

  /** The rectangle succeeds exactly for four coordinates; it then holds
      two stitches per row, the last row is at most `y2` and the next one
      would not be. */
  lemma RectangleShape(coords: seq<real>, color: int, density: real)
    requires density > 0.0
    ensures var r := RectanglePoints(coords, color, density);
      && (r.Success? <==> |coords| == 4)
      && (r.Failure? ==> r.error == ValueError)
    ensures var r := RectanglePoints(coords, color, density);
      r.Success? ==>
        var rows := RowCount(coords[1], coords[3], density);
        && |r.value| == 2 * rows
        && (rows > 0 ==> coords[1] + (rows - 1) as real * (1.0 / density) <= coords[3])
        && coords[1] + rows as real * (1.0 / density) > coords[3]
  {
    if |coords| == 4 {
      var rows := RowCount(coords[1], coords[3], density);
      RowsAt(coords[0], coords[1], coords[2], 1.0 / density, color, rows);
      RowCountExact(coords[1], coords[3], density, rows);
      if rows > 0 {
        RowCountExact(coords[1], coords[3], density, rows - 1);
      }
    }
  }

  /** One row of `_rectangle_to_stitches`: from x1 to x2 when `direction`
      is positive, from x2 to x1 otherwise. */
  method AppendRow(points: seq<StitchPoint>, x1: real, x2: real, y: real, direction: int, color: int, ghost j: nat)
    returns (out: seq<StitchPoint>)
    requires direction == if j % 2 == 0 then 1 else -1
    ensures out == points + RowPair(x1, x2, y, j, color)
  {
    out := points;
    if direction > 0 {
      out := out + [StitchPoint(x1 / 10.0, y / 10.0, Normal, color)];
      out := out + [StitchPoint(x2 / 10.0, y / 10.0, Normal, color)];
    } else {
      out := out + [StitchPoint(x2 / 10.0, y / 10.0, Normal, color)];
      out := out + [StitchPoint(x1 / 10.0, y / 10.0, Normal, color)];
    }
  }

  /** `_rectangle_to_stitches`: `y` steps by `spacing` and `direction` flips
      after every row. */
  method RectangleToStitches(coords: seq<real>, color: int, density: real) returns (r: Result<seq<StitchPoint>>)
    requires density > 0.0
    ensures r == RectanglePoints(coords, color, density)
  {
    if |coords| != 4 {
      return Failure(ValueError);
    }
    var x1, y1, x2, y2 := coords[0], coords[1], coords[2], coords[3];
    var points: seq<StitchPoint> := [];
    var spacing := 1.0 / density;
    var y := y1;
    var direction := 1;
    ghost var k: nat := 0;
    while y <= y2
      invariant y == RowY(y1, spacing, k)
      invariant direction == if k % 2 == 0 then 1 else -1
      invariant k <= RowCount(y1, y2, density)
      invariant points == Rows(x1, y1, x2, spacing, color, k)
      decreases RowCount(y1, y2, density) - k
    {
      RowCountExact(y1, y2, density, k);
      NextRows(x1, y1, x2, spacing, color, k, y);
      points := AppendRow(points, x1, x2, y, direction, color, k);
      y := y + spacing;
      direction := direction * -1;
      k := k + 1;
    }
    RowCountExact(y1, y2, density, k);
    return Success(points);
  }

  /** `_text_to_stitches`: ValueError unless the coordinates are exactly a
      point, otherwise one NORMAL stitch there. */
  function TextPoints(coords: seq<real>, color: int): (r: Result<seq<StitchPoint>>)
    ensures r.Success? <==> |coords| == 2
    ensures r.Failure? ==> r.error == ValueError
    ensures r.Success? ==>
      && |r.value| == 1 && r.value[0].kind == Normal && r.value[0].colorIndex == color
      && r.value[0].x * 10.0 == coords[0] && r.value[0].y * 10.0 == coords[1]
  {
    if |coords| != 2 then Failure(ValueError)
    else Success([StitchPoint(coords[0] / 10.0, coords[1] / 10.0, Normal, color)])
  }
}
