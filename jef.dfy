/** `JefExporter.export` (Creabroderie/embroidery_export.py:175-231): the
    Janome JEF file, a 28-byte header of little-endian fields zero-padded to
    offset 116, one 32-bit colour reference per colour, the stitch stream
    and the 0x7F terminator. */
module Jef {
  import opened Bytes
  import opened Stitch

  /** JEF deltas are clamped to [-127, 127]. */
  const Bound: nat := 127

  /** `f.write(b'\x00' * (116 - f.tell()))` pads the header to this offset. */
  const HeaderEnd: nat := 116

  predicate InI32(v: int)
  {
    -TwoTo31 <= v < TwoTo31
  }

  /** Every field of the header fits its `struct.pack` format: the counts
      and `data_offset = 128 + 4k` as `'<I'`, the sizes as `'<i'`. */
  predicate HeaderFits(d: EmbroideryDesign)
  {
    && |d.threadColors| < TwoTo32
    && |d.points| < TwoTo32
    && 128 + 4 * |d.threadColors| < TwoTo32
    && InI32(MachineUnits(d.sizeMm.0))
    && InI32(MachineUnits(d.sizeMm.1))
  }

  /** `num_colors`, `num_points`, `data_offset` and `(size_x, size_y,
      size_x, size_y)`. */
  function HeaderFields(k: nat, n: nat, w: int, h: int): (r: seq<byte>)
    requires k < TwoTo32 && n < TwoTo32 && 128 + 4 * k < TwoTo32 && InI32(w) && InI32(h)
    ensures |r| == 28
  {
    PackU32(k) + PackU32(n) + PackU32(128 + 4 * k) + (PackI32(w) + PackI32(h) + PackI32(w) + PackI32(h))
  }

  /** The colour list: `struct.pack('<I', i + 1)` for each palette index. */
  function ColorTable(k: nat): (r: seq<byte>)
    requires k < TwoTo32
    ensures |r| == 4 * k
  {
    if k == 0 then [] else ColorTable(k - 1) + PackU32(k)
  }

  /** Entry `i` of the colour list reads back as `i + 1`. */
  lemma {:induction false} ColorTableAt(k: nat, i: nat)
    requires i < k < TwoTo32
    ensures UnpackU32(ColorTable(k)[4 * i..4 * i + 4]) == i + 1
  {
    var init, last := ColorTable(k - 1), PackU32(k);
    assert ColorTable(k) == init + last;
    if i < k - 1 {
      ColorTableAt(k - 1, i);
      SliceOfConcat(init, last, 4 * i, 4 * i + 4);
    } else {
      SliceOfSecond(init, last, 4 * i, 4 * i + 4, 0, 4);
      assert last[0..4] == last;
      PackU32RoundTrip(k);
    }
  }

  /** Everything before the stitch stream. */
  function JefHead(d: EmbroideryDesign): (r: seq<byte>)
    requires HeaderFits(d)
    ensures |r| == HeaderEnd + 4 * |d.threadColors|
  {
    var k := |d.threadColors|;
    HeaderFields(k, |d.points|, MachineUnits(d.sizeMm.0), MachineUnits(d.sizeMm.1)) + Zeros(HeaderEnd - 28) + ColorTable(k)
  }

  /** The bytes one point writes, given the accumulator before it: NORMAL
      packs both clamped deltas with `'<bb'`, JUMP writes `bytes([0x80, dx,
      dy])`, which raises ValueError for a negative delta, COLOR_CHANGE
      writes 0x7C, TRIM and END nothing. */
  function JefRecord(p: StitchPoint, acc: Pos): Result<seq<byte>>
  {
    var dx := Clamp(MachineUnits(p.x) - acc.x, Bound);
    var dy := Clamp(MachineUnits(p.y) - acc.y, Bound);
    match p.kind
    case Normal => Success([SignedByte(dx), SignedByte(dy)])
    case Jump => if dx < 0 || dy < 0 then Failure(ValueError) else Success([0x80, dx, dy])
    case ColorChange => Success([0x7C])
    case _ => Success([])
  }

  lemma JefRecordBytes(p: StitchPoint, acc: Pos)
    ensures var r, next := JefRecord(p, acc), Step(acc, Units(p), Bound);
      && (r.Failure? <==> p.kind == Jump && (next.x < acc.x || next.y < acc.y))
      && (r.Failure? ==> r.error == ValueError)
      && (p.kind == Normal ==> |r.value| == 2 && ToSigned(r.value[0]) == next.x - acc.x && ToSigned(r.value[1]) == next.y - acc.y)
      && (r.Success? && p.kind == Jump ==> r.value == [0x80, next.x - acc.x, next.y - acc.y])
      && (p.kind == ColorChange ==> r == Success([0x7C]))
      && (p.kind == Trim || p.kind == End ==> r == Success([]))
  {
    var d := Step(acc, Units(p), Bound);
    SignedByteRoundTrip(d.x - acc.x);
    SignedByteRoundTrip(d.y - acc.y);
  }

  /** The stitch stream before the terminator, or the ValueError of the first
      JUMP with a negative clamped delta. */
  function JefStream(pts: seq<StitchPoint>): Result<seq<byte>>
  {
    if pts == [] then Success([])
    else
      var init := pts[..|pts| - 1];
      match JefStream(init)
      case Failure(e) => Failure(e)
      case Success(s) =>
        match JefRecord(pts[|pts| - 1], Track(init, Bound))
        case Failure(e) => Failure(e)
        case Success(r) => Success(s + r)
  }

  /** A JUMP whose clamped delta is negative on either axis. */
  predicate NegativeJump(pts: seq<StitchPoint>, i: nat)
    requires i < |pts|
  {
    pts[i].kind == Jump && (ClampedDelta(pts, i, Bound).x < 0 || ClampedDelta(pts, i, Bound).y < 0)
  }

  /** The stream exists exactly when no JUMP moves left or down, and
      otherwise fails with ValueError. */
  lemma {:induction false} JefStreamSuccess(pts: seq<StitchPoint>)
    ensures JefStream(pts).Success? <==> forall i | 0 <= i < |pts| :: !NegativeJump(pts, i)
    ensures JefStream(pts).Failure? ==> JefStream(pts).error == ValueError
  {
    if pts != [] {
      var init := pts[..|pts| - 1];
      var last := |pts| - 1;
      JefStreamSuccess(init);
      forall i | 0 <= i < |init| ensures NegativeJump(init, i) == NegativeJump(pts, i) {
        NegativeJumpPrefix(pts, last, i);
      }
      LastRecordFails(pts);
    }
  }

  /** Whether a point is a negative JUMP depends only on the points up to it. */
  lemma NegativeJumpPrefix(pts: seq<StitchPoint>, n: nat, i: nat)
    requires i < n <= |pts|
    ensures NegativeJump(pts[..n], i) == NegativeJump(pts, i)
  {
    assert pts[..n][..i] == pts[..i];
  }

  /** The last record fails exactly when the last point is a negative JUMP,
      and then with ValueError. */
  lemma LastRecordFails(pts: seq<StitchPoint>)
    requires pts != []
    ensures var last := |pts| - 1;
      var rec := JefRecord(pts[last], Track(pts[..last], Bound));
      (rec.Failure? <==> NegativeJump(pts, last)) && (rec.Failure? ==> rec.error == ValueError)
  {
  }

  /** A stream that exists has two bytes per NORMAL, three per JUMP and one
      per COLOR_CHANGE. */
  lemma {:induction false} JefStreamLength(pts: seq<StitchPoint>)
    requires JefStream(pts).Success?
    ensures |JefStream(pts).value| == 2 * CountKind(pts, Normal) + 3 * CountKind(pts, Jump) + CountKind(pts, ColorChange)
  {
    if pts != [] {
      var init := pts[..|pts| - 1];
      JefStreamLength(init);
      JefRecordBytes(pts[|pts| - 1], Track(init, Bound));
    }
  }

  /** Once a prefix of the points fails, the whole stream fails the same
      way. */
  lemma {:induction false} JefStreamFailureSticks(pts: seq<StitchPoint>, n: nat)
    requires n <= |pts|
    requires JefStream(pts[..n]).Failure?
    ensures JefStream(pts) == JefStream(pts[..n])
    decreases |pts| - n
  {
    if n < |pts| {
      assert pts[..n + 1][..n] == pts[..n];
      JefStreamFailureSticks(pts, n + 1);
    } else {
      assert pts[..n] == pts;
    }
  }

  /** The file `JefExporter.export` writes, or the exception it stops on: a
      header field that does not fit raises struct.error, a negative JUMP
      ValueError. */
  function JefFile(d: EmbroideryDesign): Result<seq<byte>>
  {
    if !HeaderFits(d) then Failure(StructError)
    else match JefStream(d.points)
      case Failure(e) => Failure(e)
      case Success(s) => Success(JefHead(d) + s + [0x7F])
  }

  /** Each header field reads back as the value packed into it. */
  lemma HeaderFieldsLayout(k: nat, n: nat, w: int, h: int)
    requires k < TwoTo32 && n < TwoTo32 && 128 + 4 * k < TwoTo32 && InI32(w) && InI32(h)
    ensures var f := HeaderFields(k, n, w, h);
      && UnpackU32(f[0..4]) == k
      && UnpackU32(f[4..8]) == n
      && UnpackU32(f[8..12]) == 128 + 4 * k
      && UnpackI32(f[12..16]) == w == UnpackI32(f[20..24])
      && UnpackI32(f[16..20]) == h == UnpackI32(f[24..28])
  {
    var f := HeaderFields(k, n, w, h);
    PackU32RoundTrip(k);
    PackU32RoundTrip(n);
    PackU32RoundTrip(128 + 4 * k);
    PackI32RoundTrip(w);
    PackI32RoundTrip(h);
    assert f[0..4] == PackU32(k);
    assert f[4..8] == PackU32(n);
    assert f[8..12] == PackU32(128 + 4 * k);
    assert f[12..16] == PackI32(w);
    assert f[16..20] == PackI32(h);
    assert f[20..24] == PackI32(w);
    assert f[24..28] == PackI32(h);
  }

  /** The header fields read back, the padding is zero, colour entry `i`
      reads `i + 1`, and the stitch stream starts at 116 + 4k: twelve bytes
      before the `data_offset` of 128 + 4k that the header records. */
  lemma JefHeadLayout(d: EmbroideryDesign)
    requires HeaderFits(d)
    ensures var f, k := JefHead(d), |d.threadColors|;
      && UnpackU32(f[0..4]) == k
      && UnpackU32(f[4..8]) == |d.points|
      && UnpackU32(f[8..12]) == 128 + 4 * k == |f| + 12
      && UnpackI32(f[12..16]) == MachineUnits(d.sizeMm.0) == UnpackI32(f[20..24])
      && UnpackI32(f[16..20]) == MachineUnits(d.sizeMm.1) == UnpackI32(f[24..28])
      && f[28..HeaderEnd] == Zeros(HeaderEnd - 28)
      && (forall i | 0 <= i < k :: UnpackU32(f[HeaderEnd + 4 * i..HeaderEnd + 4 * i + 4]) == i + 1)
  {
    var k, n := |d.threadColors|, |d.points|;
    var w, h := MachineUnits(d.sizeMm.0), MachineUnits(d.sizeMm.1);
    var hf, pad, t := HeaderFields(k, n, w, h), Zeros(HeaderEnd - 28), ColorTable(k);
    HeaderFieldsLayout(k, n, w, h);
    FieldInHead(hf, pad, t, 0, 4);
    FieldInHead(hf, pad, t, 4, 8);
    FieldInHead(hf, pad, t, 8, 12);
    FieldInHead(hf, pad, t, 12, 16);
    FieldInHead(hf, pad, t, 16, 20);
    FieldInHead(hf, pad, t, 20, 24);
    FieldInHead(hf, pad, t, 24, 28);
    assert (hf + pad + t)[28..HeaderEnd] == pad by {
      SliceOfConcat(hf + pad, t, 28, HeaderEnd);
      SliceOfSecond(hf, pad, 28, HeaderEnd, 0, HeaderEnd - 28);
    }
    forall i | 0 <= i < k ensures UnpackU32((hf + pad + t)[HeaderEnd + 4 * i..HeaderEnd + 4 * i + 4]) == i + 1 {
      ColorTableAt(k, i);
      SliceOfSecond(hf + pad, t, HeaderEnd + 4 * i, HeaderEnd + 4 * i + 4, 4 * i, 4 * i + 4);
    }
  }

  lemma FieldInHead(hf: seq<byte>, pad: seq<byte>, t: seq<byte>, i: nat, j: nat)
    requires |hf| == 28 && i <= j <= 28
    ensures (hf + pad + t)[i..j] == hf[i..j]
  {
    SliceOfConcat(hf + pad, t, i, j);
    SliceOfConcat(hf, pad, i, j);
  }

  /** The export succeeds exactly when the header fits and no JUMP has a
      negative clamped delta. */
  lemma JefSuccess(d: EmbroideryDesign)
    ensures JefFile(d).Success? <==> HeaderFits(d) && forall i | 0 <= i < |d.points| :: !NegativeJump(d.points, i)
    ensures JefFile(d).Success? ==> JefFile(d).value == JefHead(d) + JefStream(d.points).value + [0x7F]
  {
    JefStreamSuccess(d.points);
  }

  /** The header part of `JefExporter.export`: the three counts, the four
      sizes, the padding and the colour list loop. */
  method WriteHead(d: EmbroideryDesign) returns (r: Result<seq<byte>>)
    ensures r.Success? <==> HeaderFits(d)
    ensures r.Success? ==> r.value == JefHead(d)
    ensures r.Failure? ==> r.error == StructError
  {
    var numColors := |d.threadColors|;
    var numPoints := |d.points|;
    if numColors >= TwoTo32 {
      return Failure(StructError);
    }
    var out := PackU32(numColors);
    if numPoints >= TwoTo32 {
      return Failure(StructError);
    }
    out := out + PackU32(numPoints);
    var dataOffset := 128 + numColors * 4;
    if dataOffset >= TwoTo32 {
      return Failure(StructError);
    }
    out := out + PackU32(dataOffset);
    var sizeX := MachineUnits(d.sizeMm.0);
    var sizeY := MachineUnits(d.sizeMm.1);
    if !(InI32(sizeX) && InI32(sizeY)) {
      return Failure(StructError);
    }
    out := out + (PackI32(sizeX) + PackI32(sizeY) + PackI32(sizeX) + PackI32(sizeY));
    out := out + Zeros(HeaderEnd - |out|);
    var colors := WriteColorList(numColors);
    return Success(out + colors);
  }

  /** The colour list loop of `JefExporter.export`. */
  method WriteColorList(k: nat) returns (out: seq<byte>)
    requires k < TwoTo32
    ensures out == ColorTable(k)
  {
    out := [];
    var i := 0;
    while i < k
      invariant 0 <= i <= k
      invariant out == ColorTable(i)
    {
      out := out + PackU32(i + 1);
      i := i + 1;
    }
  }

  lemma JefStreamSnoc(pts: seq<StitchPoint>, j: nat, s: seq<byte>)
    requires j < |pts| && JefStream(pts[..j]) == Success(s)
    ensures var rec := JefRecord(pts[j], Track(pts[..j], Bound));
      && (rec.Failure? ==> JefStream(pts[..j + 1]) == Failure(rec.error))
      && (rec.Success? ==> JefStream(pts[..j + 1]) == Success(s + rec.value))
    ensures Track(pts[..j + 1], Bound) == Step(Track(pts[..j], Bound), Units(pts[j]), Bound)
  {
    assert pts[..j + 1][..j] == pts[..j];
    TrackSnoc(pts, j, Bound);
  }

  /** One pass of the stitch loop of `JefExporter.export`: the clamped
      deltas against `(last_x, last_y)`, written as the point's kind says,
      or the ValueError of `bytes()` on a negative JUMP delta. */
  method WriteRecord(p: StitchPoint, lastX: int, lastY: int) returns (r: Result<seq<byte>>, nextX: int, nextY: int)
    ensures r == JefRecord(p, Pos(lastX, lastY))
    ensures Pos(nextX, nextY) == Step(Pos(lastX, lastY), Units(p), Bound)
  {
    var dx := MachineUnits(p.x) - lastX;
    var dy := MachineUnits(p.y) - lastY;
    dx := Clamp(dx, Bound);
    dy := Clamp(dy, Bound);
    nextX, nextY := lastX + dx, lastY + dy;
    r := Success([]);
    if p.kind == Normal {
      r := Success([SignedByte(dx), SignedByte(dy)]);
    } else if p.kind == Jump {
      if dx < 0 || dy < 0 {
        r := Failure(ValueError);
      } else {
        r := Success([0x80, dx, dy]);
      }
    } else if p.kind == ColorChange {
      r := Success([0x7C]);
    }
  }

  /** The stitch loop of `JefExporter.export`, stopping at the first JUMP
      that `bytes()` refuses. */
  method WriteStitches(pts: seq<StitchPoint>) returns (r: Result<seq<byte>>)
    ensures r == JefStream(pts)
  {
    var out: seq<byte> := [];
    var lastX, lastY := 0, 0;
    var j := 0;
    while j < |pts|
      invariant 0 <= j <= |pts|
      invariant JefStream(pts[..j]) == Success(out)
      invariant Pos(lastX, lastY) == Track(pts[..j], Bound)
    {
      JefStreamSnoc(pts, j, out);
      var record;
      record, lastX, lastY := WriteRecord(pts[j], lastX, lastY);
      if record.Failure? {
        JefStreamFailureSticks(pts, j + 1);
        return record;
      }
      out := out + record.value;
      j := j + 1;
    }
    assert pts[..j] == pts;
    return Success(out);
  }

  /** `JefExporter.export`. */
  method Export(d: EmbroideryDesign) returns (r: Result<seq<byte>>)
    ensures r == JefFile(d)
  {
    var head := WriteHead(d);
    if head.Failure? {
      return Failure(StructError);
    }
    var stitches := WriteStitches(d.points);
    if stitches.Failure? {
      return Failure(stitches.error);
    }
    return Success(head.value + stitches.value + [0x7F]);
  }
}
