/** The stitch model shared by the tessellators and the encoders
    (Creabroderie/embroidery_export.py:8-42): stitch kinds, stitch points in
    millimetres, the design aggregate, the conversion to machine units
    (0.1 mm, truncated toward zero) and the running `(last_x, last_y)`
    accumulator that the PES and JEF encoders advance by clamped deltas. */
module Stitch {

  /** `StitchType`: NORMAL = 0, JUMP = 1, TRIM = 2, COLOR_CHANGE = 3, END = 4. */
  datatype StitchType = Normal | Jump | Trim | ColorChange | End

  function Code(t: StitchType): (c: int)
    ensures 0 <= c <= 4
  {
    match t
    case Normal => 0
    case Jump => 1
    case Trim => 2
    case ColorChange => 3
    case End => 4
  }

  /** The stitch type an integer code stands for, if any. */
  function KindOfCode(c: int): Option<StitchType>
  {
    if c == 0 then Some(Normal)
    else if c == 1 then Some(Jump)
    else if c == 2 then Some(Trim)
    else if c == 3 then Some(ColorChange)
    else if c == 4 then Some(End)
    else None
  }

  /** The codes are distinct: comparing `stitch_type` with a code tells the
      kinds apart, and every code in 0..4 names a kind. */
  lemma CodeRoundTrip(t: StitchType, c: int)
    ensures KindOfCode(Code(t)) == Some(t)
    ensures KindOfCode(c).Some? <==> 0 <= c <= 4
    ensures KindOfCode(c).Some? ==> Code(KindOfCode(c).value) == c
  {
  }

  /** A stitch at (`x`, `y`) millimetres using palette entry `colorIndex`. */
  datatype StitchPoint = StitchPoint(x: real, y: real, kind: StitchType, colorIndex: int)

  /** `points` in stitch order, the palette of hex fill strings, the size of
      the drawing and the chosen hoop, both in millimetres. */
  datatype EmbroideryDesign = EmbroideryDesign(
    points: seq<StitchPoint>,
    threadColors: seq<string>,
    sizeMm: (real, real),
    hoopSizeMm: (real, real))

  /** The Python exception classes an export or a tessellation can raise. */
  datatype Error = ValueError | StructError | IndexError

  datatype Result<T> = Success(value: T) | Failure(error: Error)

  datatype Option<T> = None | Some(value: T)

  /** Python's `int(r)` on a number: truncation toward zero. */
  function Trunc(r: real): int
  {
    if r >= 0.0 then r.Floor else -((-r).Floor)
  }

  /** Truncation moves toward zero by less than one. */
  lemma TruncTowardZero(r: real)
    ensures 0.0 <= r ==> 0 <= Trunc(r) && Trunc(r) as real <= r < Trunc(r) as real + 1.0
    ensures r < 0.0 ==> Trunc(r) <= 0 && Trunc(r) as real - 1.0 < r <= Trunc(r) as real
  {
  }

  /** `_convert_to_machine_units`, and the `int(point.x * 10)` of every
      encoder loop: millimetres to tenths of a millimetre, toward zero. */
  function MachineUnits(mm: real): int
  {
    Trunc(mm * 10.0)
  }

  /** Tenths of a millimetre, less than one unit toward zero from the exact
      value and of the same sign. */
  lemma MachineUnitsBounds(mm: real)
    ensures -1.0 < mm * 10.0 - MachineUnits(mm) as real < 1.0
    ensures mm >= 0.0 ==> 0 <= MachineUnits(mm) && MachineUnits(mm) as real <= mm * 10.0
    ensures mm < 0.0 ==> MachineUnits(mm) <= 0 && mm * 10.0 <= MachineUnits(mm) as real
  {
    TruncTowardZero(mm * 10.0);
  }

  /** `max(min(v, bound), -bound)`. */
  function Clamp(v: int, bound: int): (r: int)
    requires 0 <= bound
    ensures -bound <= r <= bound
    ensures -bound <= v <= bound ==> r == v
    ensures v > bound ==> r == bound
    ensures v < -bound ==> r == -bound
  {
    if v > bound then bound else if v < -bound then -bound else v
  }

  function Abs(v: int): nat
  {
    if v < 0 then -v else v
  }

  /** A position in machine units. */
  datatype Pos = Pos(x: int, y: int)

  const Origin := Pos(0, 0)

  function Units(p: StitchPoint): Pos
  {
    Pos(MachineUnits(p.x), MachineUnits(p.y))
  }

  /** One move of the accumulator toward `target`: by the true delta when it
      is within `bound`, otherwise by `bound` in its direction. The distance
      left to the target shrinks by `bound` and never overshoots. */
  function Step(acc: Pos, target: Pos, bound: nat): Pos
  {
    Pos(acc.x + Clamp(target.x - acc.x, bound), acc.y + Clamp(target.y - acc.y, bound))
  }

  lemma StepApproaches(acc: Pos, target: Pos, bound: nat)
    ensures var r := Step(acc, target, bound);
      && Abs(target.x - r.x) == (if Abs(target.x - acc.x) <= bound then 0 else Abs(target.x - acc.x) - bound)
      && Abs(target.y - r.y) == (if Abs(target.y - acc.y) <= bound then 0 else Abs(target.y - acc.y) - bound)
      && (acc.x <= target.x ==> acc.x <= r.x <= target.x) && (target.x <= acc.x ==> target.x <= r.x <= acc.x)
      && (acc.y <= target.y ==> acc.y <= r.y <= target.y) && (target.y <= acc.y ==> target.y <= r.y <= acc.y)
  {
  }

  /** `(last_x, last_y)` of the PES and JEF loops after the points `pts`: every
      point, whatever its kind, advances it by its clamped delta. */
  function Track(pts: seq<StitchPoint>, bound: nat): Pos
  {
    if pts == [] then Origin
    else Step(Track(pts[..|pts| - 1], bound), Units(pts[|pts| - 1]), bound)
  }

  /** Tracking one more point takes one more step from where the prefix left off. */
  lemma TrackSnoc(pts: seq<StitchPoint>, j: nat, bound: nat)
    requires j < |pts|
    ensures Track(pts[..j + 1], bound) == Step(Track(pts[..j], bound), Units(pts[j]), bound)
  {
    assert pts[..j + 1][..j] == pts[..j];
  }

  /** The clamped delta the encoder computes for point `i` of `pts`. */
  function ClampedDelta(pts: seq<StitchPoint>, i: nat, bound: nat): Pos
    requires i < |pts|
  {
    var acc := Track(pts[..i], bound);
    Pos(Clamp(MachineUnits(pts[i].x) - acc.x, bound), Clamp(MachineUnits(pts[i].y) - acc.y, bound))
  }

  /** The sum of the clamped deltas of the first `n` points. */
  function SumOfDeltas(pts: seq<StitchPoint>, n: nat, bound: nat): Pos
    requires n <= |pts|
  {
    if n == 0 then Origin
    else
      var s := SumOfDeltas(pts, n - 1, bound);
      var d := ClampedDelta(pts, n - 1, bound);
      Pos(s.x + d.x, s.y + d.y)
  }

  /** The accumulator after point `n - 1` is the sum of the clamped deltas
      through it, not the sum of the true deltas. */
  lemma {:induction false} TrackIsSumOfClampedDeltas(pts: seq<StitchPoint>, n: nat, bound: nat)
    requires n <= |pts|
    ensures Track(pts[..n], bound) == SumOfDeltas(pts, n, bound)
  {
    if n > 0 {
      TrackIsSumOfClampedDeltas(pts, n - 1, bound);
      assert pts[..n][..n - 1] == pts[..n - 1];
    }
  }

  /** The position the previous point asked for (the origin before the first). */
  function PreviousUnits(pts: seq<StitchPoint>, i: nat): Pos
    requires i <= |pts|
  {
    if i == 0 then Origin else Units(pts[i - 1])
  }

  /** Every true move between consecutive points fits within `bound`. */
  predicate MovesWithin(pts: seq<StitchPoint>, bound: nat)
  {
    forall i | 0 <= i < |pts| ::
      Abs(Units(pts[i]).x - PreviousUnits(pts, i).x) <= bound &&
      Abs(Units(pts[i]).y - PreviousUnits(pts, i).y) <= bound
  }

  /** Without a long move, clamping never bites and the accumulator sits
      exactly on the truncated position of the last point: there is no drift. */
  lemma {:induction false} TrackWithoutLongMoves(pts: seq<StitchPoint>, bound: nat)
    requires MovesWithin(pts, bound)
    ensures Track(pts, bound) == PreviousUnits(pts, |pts|)
  {
    if pts != [] {
      var init := pts[..|pts| - 1];
      assert MovesWithin(init, bound) by {
        forall i | 0 <= i < |init|
          ensures Abs(Units(init[i]).x - PreviousUnits(init, i).x) <= bound
          ensures Abs(Units(init[i]).y - PreviousUnits(init, i).y) <= bound
        {
          assert init[i] == pts[i];
          assert PreviousUnits(init, i) == PreviousUnits(pts, i);
        }
      }
      TrackWithoutLongMoves(init, bound);
      assert PreviousUnits(pts, |pts| - 1) == PreviousUnits(init, |init|);
    }
  }

  /** Number of points of the given kind. */
  function CountKind(pts: seq<StitchPoint>, k: StitchType): (c: nat)
    ensures c <= |pts|
  {
    if pts == [] then 0
    else CountKind(pts[..|pts| - 1], k) + (if pts[|pts| - 1].kind == k then 1 else 0)
  }
}
