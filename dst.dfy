/** `DstExporter.export` (Creabroderie/embroidery_export.py:117-173): the
    Tajima DST file, a header built by slice assignments into a zeroed
    `bytearray(512)`, then one three-byte record per point and the
    `03 00 00` end record. */
module Dst {
  import opened Bytes
  import opened Stitch

  /** DST deltas are clamped to [-121, 121]. */
  const Bound: nat := 121

  /** `b'LA:Desktop   '`. */
  const LabelField: seq<byte> := [0x4C, 0x41, 0x3A, 0x44, 0x65, 0x73, 0x6B, 0x74, 0x6F, 0x70, 0x20, 0x20, 0x20]

  /** `b"+   0"`, written into each of the four six-byte extent slots. */
  const ExtentField: seq<byte> := [0x2B, 0x20, 0x20, 0x20, 0x30]

  /** Python's `a[i:j] = s` on a bytearray, for 0 <= i <= j <= len(a): the
      slice is replaced, and the array grows or shrinks to fit `s`. */
  function SliceAssign(a: seq<byte>, i: nat, j: nat, s: seq<byte>): (r: seq<byte>)
    requires i <= j <= |a|
    ensures |r| == |a| - (j - i) + |s|
  {
    a[..i] + s + a[j..]
  }

  /** The bytes before the slice are kept, `s` takes its place, and the
      bytes after it follow. */
  lemma SliceAssignKeeps(a: seq<byte>, i: nat, j: nat, s: seq<byte>)
    requires i <= j <= |a|
    ensures var r := SliceAssign(a, i, j, s);
      r[..i] == a[..i] && r[i..i + |s|] == s && r[i + |s|..] == a[j..]
  {
    var r := SliceAssign(a, i, j, s);
    assert r == a[..i] + s + a[j..];
  }

  /** `f"ST:{n:6d}"`: the point count right-justified in six columns. */
  function StText(n: nat): string
  {
    "ST:" + RightJustify(Decimal(n), 6)
  }

  lemma StTextIsAscii(n: nat)
    ensures IsAscii(StText(n))
    ensures |StText(n)| == 3 + (if |Decimal(n)| < 6 then 6 else |Decimal(n)|)
  {
    DecimalIsAscii(n);
    var d := Decimal(n);
    if |d| < 6 {
      assert IsAscii(Spaces(6 - |d|));
      AsciiConcat(Spaces(6 - |d|), d);
    }
    AsciiConcat("ST:", RightJustify(d, 6));
  }

  lemma AsciiConcat(a: string, b: string)
    requires IsAscii(a) && IsAscii(b)
    ensures IsAscii(a + b)
  {
    forall i | 0 <= i < |a + b| ensures (a + b)[i] < 128 as char {
      if i >= |a| {
        assert (a + b)[i] == b[i - |a|];
      }
    }
  }

  /** `f"ST:{n:6d}".encode()`. */
  function StField(n: nat): (r: seq<byte>)
    ensures |r| == |StText(n)|
  {
    StTextIsAscii(n);
    Ascii(StText(n))
  }

  /** The header as the slice assignments leave it. The `ST:` text is
      shorter than the 28-byte slot it replaces and each `+   0` is one byte
      shorter than its slot, so the array shrinks as it is filled. */
  function DstHeader(n: nat): seq<byte>
  {
    StTextIsAscii(n);
    HeaderWith(StField(n))
  }

  /** The slice assignments of the header, with `st` as the `ST:` field. */
  function HeaderWith(st: seq<byte>): seq<byte>
    requires 9 <= |st|
  {
    var h1 := SliceAssign(Zeros(512), 0, 13, LabelField);
    var h2 := SliceAssign(h1, 14, 42, st);
    var h3 := SliceAssign(h2, 42, 48, ExtentField);
    var h4 := SliceAssign(h3, 48, 54, ExtentField);
    var h5 := SliceAssign(h4, 54, 60, ExtentField);
    SliceAssign(h5, 60, 66, ExtentField)
  }

  /** Assigning into the zero tail of an array: the part before the tail is
      kept, and zeros surround the new bytes. */
  lemma SliceAssignIntoZeros(p: seq<byte>, m: nat, i: nat, j: nat, s: seq<byte>)
    requires |p| <= i <= j <= |p| + m
    ensures SliceAssign(p + Zeros(m), i, j, s) == p + Zeros(i - |p|) + s + Zeros(m - (j - |p|))
  {
    var a := p + Zeros(m);
    assert a[..i] == p + Zeros(i - |p|);
    assert a[j..] == Zeros(m - (j - |p|));
  }

  /** One `+   0` written one byte past the end of what is already there. */
  lemma ExtentStep(p: seq<byte>, m: nat, i: nat, rest: nat)
    requires 7 <= m && i == |p| + 1 && rest == m - 7
    ensures SliceAssign(p + Zeros(m), i, i + 6, ExtentField) == p + [0] + ExtentField + Zeros(rest)
  {
    SliceAssignIntoZeros(p, m, i, i + 6, ExtentField);
    assert Zeros(1) == [0];
  }

  lemma LabelStep()
    ensures SliceAssign(Zeros(512), 0, 13, LabelField) == LabelField + Zeros(499)
  {
    SliceAssignIntoZeros([], 512, 0, 13, LabelField);
    assert [] + Zeros(512) == Zeros(512);
    assert [] + Zeros(0) + LabelField == LabelField;
  }

  lemma CountStep(st: seq<byte>)
    requires |st| <= 28
    ensures SliceAssign(LabelField + Zeros(499), 14, 42, st) == LabelField + [0] + st + Zeros(470)
  {
    SliceAssignIntoZeros(LabelField, 499, 14, 42, st);
    assert Zeros(1) == [0];
  }

  lemma FirstExtentStep(a: seq<byte>, l: nat)
    requires |a| == 14 + l && l <= 28
    ensures SliceAssign(a + Zeros(470), 42, 48, ExtentField) == a + Zeros(28 - l) + ExtentField + Zeros(436 + l)
  {
    SliceAssignIntoZeros(a, 470, 42, 48, ExtentField);
  }

  /** With an `ST:` field of at most 28 bytes: the label at 0, a zero, the
      field at 14, zeros up to 42, then the four `+   0` fields at 42, 48,
      54 and 60, each followed by a zero, then zeros: 480 bytes plus the
      length of the field, not 512. */
  lemma HeaderWithLayout(st: seq<byte>)
    requires 9 <= |st| <= 28
    ensures HeaderWith(st) == LabelField + [0] + st + Zeros(28 - |st|) + ExtentField + [0] + ExtentField + [0]
                              + ExtentField + [0] + ExtentField + Zeros(415 + |st|)
  {
    var l := |st|;
    var h1 := SliceAssign(Zeros(512), 0, 13, LabelField);
    assert h1 == LabelField + Zeros(499) by { LabelStep(); }
    var a := LabelField + [0] + st;
    var h2 := SliceAssign(h1, 14, 42, st);
    assert h2 == a + Zeros(470) by { CountStep(st); }
    var b := a + Zeros(28 - l) + ExtentField;
    var h3 := SliceAssign(h2, 42, 48, ExtentField);
    assert h3 == b + Zeros(436 + l) by { FirstExtentStep(a, l); }
    var c := b + [0] + ExtentField;
    var h4 := SliceAssign(h3, 48, 54, ExtentField);
    assert h4 == c + Zeros(429 + l) by { ExtentStep(b, 436 + l, 48, 429 + l); }
    var e := c + [0] + ExtentField;
    var h5 := SliceAssign(h4, 54, 60, ExtentField);
    assert h5 == e + Zeros(422 + l) by { ExtentStep(c, 429 + l, 54, 422 + l); }
    assert SliceAssign(h5, 60, 66, ExtentField) == e + [0] + ExtentField + Zeros(415 + l) by {
      ExtentStep(e, 422 + l, 60, 415 + l);
    }
  }

  /** The header written for `n` points whose count has at most 25 digits,
      so that the `ST:` text fits its 28-byte slot. */
  lemma DstHeaderLayout(n: nat)
    requires |Decimal(n)| <= 25
    ensures var st := StField(n);
      DstHeader(n) == LabelField + [0] + st + Zeros(28 - |st|) + ExtentField + [0] + ExtentField + [0]
                      + ExtentField + [0] + ExtentField + Zeros(415 + |st|)
  {
    StTextIsAscii(n);
    HeaderWithLayout(StField(n));
  }

  /** Below a million points the `ST:` text is nine bytes, so the header is
      489 bytes long and the count's digits end at offset 23. */
  lemma DstHeaderLength(n: nat)
    requires n < 1000000
    ensures |DstHeader(n)| == 489
    ensures DstHeader(n)[14..23] == StField(n)
    ensures ParseDecimal(StText(n)[9 - |Decimal(n)|..]) == n
  {
    assert |Decimal(n)| <= 6 by {
      assert Pow10(6) == 1000000;
      DecimalLength(n, 6);
    }
    StTextDigits(n);
    DecimalRoundTrip(n);
    StTextIsAscii(n);
    HeaderCountField(StField(n));
  }

  /** The text ends with the digits of `n`, after three letters and the
      padding. */
  lemma StTextDigits(n: nat)
    requires |Decimal(n)| <= 6
    ensures |StText(n)| == 9 && StText(n)[9 - |Decimal(n)|..] == Decimal(n)
  {
    var d := Decimal(n);
    var j := RightJustify(d, 6);
    assert |j| == 6 && j[6 - |d|..] == d;
    DropOfSecond("ST:", j, 9 - |d|, 6 - |d|);
  }

  /** A nine-byte `ST:` field sits at offsets 14 to 22 of a 489-byte header. */
  lemma HeaderCountField(st: seq<byte>)
    requires |st| == 9
    ensures |HeaderWith(st)| == 489 && HeaderWith(st)[14..23] == st
  {
    HeaderWithLayout(st);
    var tail := Zeros(19) + ExtentField + [0] + ExtentField + [0] + ExtentField + [0] + ExtentField + Zeros(424);
    assert HeaderWith(st) == LabelField + [0] + (st + tail);
    SliceOfSecond(LabelField + [0], st + tail, 14, 23, 0, 9);
    assert (st + tail)[0..9] == st;
  }

  /** `byte1`: bit 0x04 / 0x08 for a move right / left beyond 40 units,
      0x20 / 0x10 for up / down beyond 40, then `| 0x83` for a JUMP and
      `| 0xC3` for a COLOR_CHANGE. */
  function FlagsByte(x: int, y: int, kind: StitchType): byte
  {
    FlagsBits(x, y, kind) as int
  }

  /** `byte1` as the bit pattern the encoder builds with `|`. */
  function FlagsBits(x: int, y: int, kind: StitchType): bv8
  {
    var dir := DirectionBits(x, y);
    if kind == Jump then dir | 0x83 else if kind == ColorChange then dir | 0xC3 else dir
  }

  /** The direction part of `byte1`, before the kind bits are or-ed in. */
  function DirectionBits(x: int, y: int): (dir: bv8)
    ensures dir & 0xC3 == 0
  {
    (if x > 40 then 0x04 else if x < -40 then 0x08 else 0)
    | (if y > 40 then 0x20 else if y < -40 then 0x10 else 0)
  }

  /** The direction bits record which side of +-40 each clamped delta
      lies on. */
  lemma FlagsByteDirection(x: int, y: int, kind: StitchType)
    ensures var b := FlagsBits(x, y, kind);
      && (b & 0x04 != 0 <==> x > 40)
      && (b & 0x08 != 0 <==> x < -40)
      && (b & 0x20 != 0 <==> y > 40)
      && (b & 0x10 != 0 <==> y < -40)
  {
  }

  /** The low two and high two bits record the stitch kind. */
  lemma FlagsByteKind(x: int, y: int, kind: StitchType)
    ensures var b := FlagsBits(x, y, kind);
      && (b & 0xC3 == 0xC3 <==> kind == ColorChange)
      && (b & 0xC3 == 0x83 <==> kind == Jump)
      && (b & 0xC3 == 0 <==> kind != Jump && kind != ColorChange)
  {
  }

  /** The three bytes of one point, given the truncated position of the
      previous point; both magnitude bytes are below 41. */
  function DstRecord(p: StitchPoint, prev: Pos): (r: seq<byte>)
    ensures |r| == 3 && r[1] <= 40 && r[2] <= 40
  {
    var x := Clamp(MachineUnits(p.x) - prev.x, Bound);
    var y := Clamp(MachineUnits(p.y) - prev.y, Bound);
    [FlagsByte(x, y, p.kind), Abs(x) % 41, Abs(y) % 41]
  }

  /** The records of the points, each against the truncated position of the
      point before it (`last_x += dx` adds the unclamped delta). */
  function DstStream(pts: seq<StitchPoint>): seq<byte>
  {
    if pts == [] then []
    else DstStream(pts[..|pts| - 1]) + DstRecord(pts[|pts| - 1], PreviousUnits(pts, |pts| - 1))
  }

  /** Three bytes per point, whatever its kind. */
  lemma {:induction false} DstStreamLength(pts: seq<StitchPoint>)
    ensures |DstStream(pts)| == 3 * |pts|
  {
    if pts != [] {
      DstStreamLength(pts[..|pts| - 1]);
    }
  }

  /** Record `i` sits at offset 3i and describes point `i` against the
      truncated position of point `i - 1`. */
  lemma {:induction false} DstStreamAt(pts: seq<StitchPoint>, i: nat)
    requires i < |pts|
    ensures |DstStream(pts)| == 3 * |pts|
    ensures DstStream(pts)[3 * i..3 * i + 3] == DstRecord(pts[i], PreviousUnits(pts, i))
  {
    var init := pts[..|pts| - 1];
    var t := DstStream(init);
    var last := DstRecord(pts[|pts| - 1], PreviousUnits(pts, |pts| - 1));
    DstStreamLength(init);
    assert DstStream(pts) == t + last;
    if i < |init| {
      DstStreamAt(init, i);
      SliceOfConcat(t, last, 3 * i, 3 * i + 3);
      assert init[i] == pts[i];
      assert PreviousUnits(init, i) == PreviousUnits(pts, i);
    } else {
      SliceOfSecond(t, last, 3 * i, 3 * i + 3, 0, 3);
      assert last[0..3] == last;
    }
  }

  /** A delta of at most 40 units loses its sign: moving left and moving
      right by the same amount write the same record. */
  lemma SmallMoveSignLost(x: int, y: int, kind: StitchType)
    requires -40 <= x <= 40
    ensures FlagsByte(x, y, kind) == FlagsByte(-x, y, kind)
    ensures Abs(x) % 41 == Abs(-x) % 41
  {
  }

  /** Magnitudes are written modulo 41: within the clamp range, any move of
      41 to 80 units and the move 41 units longer in the same direction
      write the same record. */
  lemma MagnitudeWraps(x: int, y: int, kind: StitchType)
    requires 41 <= Abs(x) <= 80
    ensures var x' := if x > 0 then x + 41 else x - 41;
      && Abs(x') <= Bound
      && FlagsByte(x, y, kind) == FlagsByte(x', y, kind)
      && Abs(x) % 41 == Abs(x') % 41
  {
  }

  /** `b'\x03\x00\x00'`. */
  const EndRecord: seq<byte> := [0x03, 0x00, 0x00]

  /** The whole file: header, records, end record. */
  function DstFile(pts: seq<StitchPoint>): seq<byte>
  {
    DstHeader(|pts|) + DstStream(pts) + EndRecord
  }

  /** Below a million points: the 489-byte header, then record `i` at
      489 + 3i, then `03 00 00` as the last three bytes. */
  lemma DstFileLayout(pts: seq<StitchPoint>)
    requires |pts| < 1000000
    ensures var f := DstFile(pts);
      && |f| == 492 + 3 * |pts|
      && (forall i | 0 <= i < |pts| :: f[489 + 3 * i..492 + 3 * i] == DstRecord(pts[i], PreviousUnits(pts, i)))
      && f[|f| - 3..] == EndRecord
  {
    DstHeaderLength(|pts|);
    DstStreamLength(pts);
    var h := DstHeader(|pts|);
    var s := DstStream(pts);
    forall i | 0 <= i < |pts| ensures (h + s + EndRecord)[489 + 3 * i..492 + 3 * i] == DstRecord(pts[i], PreviousUnits(pts, i)) {
      DstStreamAt(pts, i);
      RecordInFile(h, s, i);
    }
    TailOfConcat(h + s, EndRecord);
  }

  lemma RecordInFile(h: seq<byte>, s: seq<byte>, i: nat)
    requires |h| == 489 && 3 * i + 3 <= |s|
    ensures (h + s + EndRecord)[489 + 3 * i..492 + 3 * i] == s[3 * i..3 * i + 3]
  {
    SliceOfConcat(h + s, EndRecord, 489 + 3 * i, 492 + 3 * i);
    SliceOfSecond(h, s, 489 + 3 * i, 492 + 3 * i, 3 * i, 3 * i + 3);
  }

  lemma DstStreamSnoc(pts: seq<StitchPoint>, j: nat)
    requires j < |pts|
    ensures DstStream(pts[..j + 1]) == DstStream(pts[..j]) + DstRecord(pts[j], PreviousUnits(pts, j))
    ensures PreviousUnits(pts, j + 1) == Units(pts[j])
  {
    assert pts[..j + 1][..j] == pts[..j];
    assert PreviousUnits(pts[..j + 1], j) == PreviousUnits(pts, j);
  }

  /** One pass of the stitch loop of `DstExporter.export`: the three bytes
      of the point against `(last_x, last_y)`, and the unclamped deltas
      added to it. */
  method WriteRecord(p: StitchPoint, lastX: int, lastY: int) returns (record: seq<byte>, nextX: int, nextY: int)
    ensures record == DstRecord(p, Pos(lastX, lastY))
    ensures Pos(nextX, nextY) == Units(p)
  {
    var dx := MachineUnits(p.x) - lastX;
    var dy := MachineUnits(p.y) - lastY;
    var xDst := Clamp(dx, Bound);
    var yDst := Clamp(dy, Bound);
    var byte1 := FlagsByte(xDst, yDst, p.kind);
    var byte2 := Abs(xDst) % 41;
    var byte3 := Abs(yDst) % 41;
    record := [byte1, byte2, byte3];
    nextX, nextY := lastX + dx, lastY + dy;
  }

  /** The stitch loop of `DstExporter.export`. */
  method WriteStitches(pts: seq<StitchPoint>) returns (out: seq<byte>)
    ensures out == DstStream(pts)
  {
    out := [];
    var lastX, lastY := 0, 0;
    var j := 0;
    while j < |pts|
      invariant 0 <= j <= |pts|
      invariant out == DstStream(pts[..j])
      invariant Pos(lastX, lastY) == PreviousUnits(pts, j)
    {
      DstStreamSnoc(pts, j);
      var record;
      record, lastX, lastY := WriteRecord(pts[j], lastX, lastY);
      out := out + record;
      j := j + 1;
    }
    assert pts[..j] == pts;
  }

  /** `DstExporter.export`: the header by slice assignment, the stitch
      loop, the end record. Nothing in it raises. */
  method Export(d: EmbroideryDesign) returns (r: seq<byte>)
    ensures r == DstFile(d.points)
  {
    var n := |d.points|;
    StTextIsAscii(n);
    var header := Zeros(512);
    header := SliceAssign(header, 0, 13, LabelField);
    header := SliceAssign(header, 14, 42, StField(n));
    header := SliceAssign(header, 42, 48, ExtentField);
    header := SliceAssign(header, 48, 54, ExtentField);
    header := SliceAssign(header, 54, 60, ExtentField);
    header := SliceAssign(header, 60, 66, ExtentField);
    var stitches := WriteStitches(d.points);
    r := header + stitches + EndRecord;
  }
}
