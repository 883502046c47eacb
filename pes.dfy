/** `PesExporter.export` (Creabroderie/embroidery_export.py:44-115): the
    Brother PES file, written front to back with one seek back to patch the
    offset of the PEC section. */
module Pes {
  import opened Bytes
  import opened Stitch
  import opened HexColor

  /** `b'#PES0001'` and `b'#PEC0001'`. */
  const PesMagic: seq<byte> := [0x23, 0x50, 0x45, 0x53, 0x30, 0x30, 0x30, 0x31]
  const PecMagic: seq<byte> := [0x23, 0x50, 0x45, 0x43, 0x30, 0x30, 0x30, 0x31]

  /** Offset of the patched PEC offset field, just after the magic. */
  const PecOffsetPos: nat := 8

  /** PES deltas are clamped to [-127, 127]. */
  const Bound: nat := 127

  /** The outcome of `struct.pack('BBB', r, g, b)` for each palette entry. */
  function ParsedColors(colors: seq<string>): (rs: seq<Result<seq<byte>>>)
    ensures |rs| == |colors|
    ensures forall i | 0 <= i < |rs| :: rs[i].Success? ==> |rs[i].value| == 3
  {
    Map(ColorRgb, colors)
  }

  /** The RGB section: the triplets in palette order, or the error of the
      first entry that does not parse. */
  function RgbTable(parsed: seq<Result<seq<byte>>>): (r: Result<seq<byte>>)
  {
    if parsed == [] then Success([])
    else match RgbTable(parsed[..|parsed| - 1])
      case Failure(e) => Failure(e)
      case Success(t) =>
        match parsed[|parsed| - 1]
        case Failure(e) => Failure(e)
        case Success(rgb) => Success(t + rgb)
  }

  predicate AllTriplets(parsed: seq<Result<seq<byte>>>)
  {
    forall i | 0 <= i < |parsed| :: parsed[i].Success? && |parsed[i].value| == 3
  }

  /** The table exists exactly when every entry parses, and then entry `i`
      occupies bytes 3i, 3i+1 and 3i+2. */
  lemma {:induction false} RgbTableLayout(parsed: seq<Result<seq<byte>>>)
    requires forall i | 0 <= i < |parsed| :: parsed[i].Success? ==> |parsed[i].value| == 3
    ensures RgbTable(parsed).Success? <==> AllTriplets(parsed)
    ensures RgbTable(parsed).Success? ==> |RgbTable(parsed).value| == 3 * |parsed|
    ensures RgbTable(parsed).Success? ==>
      forall i | 0 <= i < |parsed| :: RgbTable(parsed).value[3 * i..3 * i + 3] == parsed[i].value
  {
    if parsed != [] {
      var init := parsed[..|parsed| - 1];
      RgbTableLayout(init);
      assert forall i | 0 <= i < |init| :: init[i] == parsed[i];
      if RgbTable(parsed).Success? {
        var t := RgbTable(init).value;
        var whole := RgbTable(parsed).value;
        assert whole == t + parsed[|parsed| - 1].value;
        forall i | 0 <= i < |parsed|
          ensures whole[3 * i..3 * i + 3] == parsed[i].value
        {
          if i < |init| {
            assert whole[3 * i..3 * i + 3] == t[3 * i..3 * i + 3];
          } else {
            assert whole[3 * i..3 * i + 3] == whole[|t|..];
          }
        }
      }
    }
  }

  /** Once a prefix of the palette fails, the whole table fails the same way. */
  lemma {:induction false} RgbTableFailureSticks(parsed: seq<Result<seq<byte>>>, n: nat)
    requires n <= |parsed|
    requires RgbTable(parsed[..n]).Failure?
    ensures RgbTable(parsed) == RgbTable(parsed[..n])
    decreases |parsed| - n
  {
    if n < |parsed| {
      assert parsed[..n + 1][..n] == parsed[..n];
      RgbTableFailureSticks(parsed, n + 1);
    } else {
      assert parsed[..n] == parsed;
    }
  }

  /** The PEC colour table after the count byte: 1, 2, ..., k. */
  function PecColorRefs(k: nat): (r: seq<byte>)
    requires k <= 255
    ensures |r| == k && forall i | 0 <= i < k :: r[i] == i + 1
  {
    if k == 0 then [] else PecColorRefs(k - 1) + [k]
  }

  /** The bytes one point writes, given the accumulator before it. */
  function PesRecord(p: StitchPoint, acc: Pos): seq<byte>
  {
    var dx := Clamp(MachineUnits(p.x) - acc.x, Bound);
    var dy := Clamp(MachineUnits(p.y) - acc.y, Bound);
    match p.kind
    case Normal => [SignedByte(dx), SignedByte(dy)]
    case Jump => [0xC0, SignedByte(dx), SignedByte(dy)]
    case ColorChange => [0xFE]
    case _ => []
  }

  /** NORMAL writes the two moves of the accumulator as signed bytes, JUMP
      prefixes them with 0xC0, COLOR_CHANGE writes 0xFE alone, TRIM and END
      write nothing. */
  lemma PesRecordBytes(p: StitchPoint, acc: Pos)
    ensures var r, next := PesRecord(p, acc), Step(acc, Units(p), Bound);
      && (p.kind == Normal ==> |r| == 2 && ToSigned(r[0]) == next.x - acc.x && ToSigned(r[1]) == next.y - acc.y)
      && (p.kind == Jump ==> |r| == 3 && r[0] == 0xC0 && ToSigned(r[1]) == next.x - acc.x && ToSigned(r[2]) == next.y - acc.y)
      && (p.kind == ColorChange ==> r == [0xFE])
      && (p.kind == Trim || p.kind == End ==> r == [])
  {
    var d := Step(acc, Units(p), Bound);
    SignedByteRoundTrip(d.x - acc.x);
    SignedByteRoundTrip(d.y - acc.y);
  }

  /** The stitch stream before the 0xFF terminator: the records of the
      points in order, each taken against the accumulator of the points
      before it. */
  function PesStream(pts: seq<StitchPoint>): seq<byte>
  {
    if pts == [] then []
    else
      var init := pts[..|pts| - 1];
      PesStream(init) + PesRecord(pts[|pts| - 1], Track(init, Bound))
  }

  lemma PesStreamSnoc(pts: seq<StitchPoint>, j: nat)
    requires j < |pts|
    ensures PesStream(pts[..j + 1]) == PesStream(pts[..j]) + PesRecord(pts[j], Track(pts[..j], Bound))
    ensures Track(pts[..j + 1], Bound) == Step(Track(pts[..j], Bound), Units(pts[j]), Bound)
  {
    assert pts[..j + 1][..j] == pts[..j];
    TrackSnoc(pts, j, Bound);
  }

  /** Two bytes per NORMAL, three per JUMP, one per COLOR_CHANGE. */
  lemma {:induction false} PesStreamLength(pts: seq<StitchPoint>)
    ensures |PesStream(pts)| == 2 * CountKind(pts, Normal) + 3 * CountKind(pts, Jump) + CountKind(pts, ColorChange)
  {
    if pts != [] {
      PesStreamLength(pts[..|pts| - 1]);
    }
  }

  /** The PES section `PesExporter.export` writes before the PEC magic, or
      the exception it stops on: a size or count that does not fit
      `'<I'`, then the first colour that does not parse. */
  function PesHead(d: EmbroideryDesign): Result<seq<byte>>
  {
    var w := MachineUnits(d.sizeMm.0);
    var h := MachineUnits(d.sizeMm.1);
    var k := |d.threadColors|;
    if !(0 <= w < TwoTo32 && 0 <= h < TwoTo32 && k < TwoTo32) then Failure(StructError)
    else match RgbTable(ParsedColors(d.threadColors))
      case Failure(e) => Failure(e)
      case Success(rgb) =>
        if 24 + 3 * k >= TwoTo32 then Failure(StructError)
        else Success(PesSection(w, h, k, rgb))
  }

  /** The file `PesExporter.export` writes, or the exception it stops on:
      after the PES section, `bytes([len(thread_colors)])` needs a count
      below 256. */
  function PesFile(d: EmbroideryDesign): Result<seq<byte>>
  {
    match PesHead(d)
    case Failure(e) => Failure(e)
    case Success(pes) =>
      var k := |d.threadColors|;
      if k > 255 then Failure(ValueError)
      else Success(pes + PecSection(k, d.points))
  }

  /** Magic, PEC offset, width, height, colour count, RGB triplets. */
  function PesSection(w: int, h: int, k: nat, rgb: seq<byte>): (r: seq<byte>)
    requires 0 <= w < TwoTo32 && 0 <= h < TwoTo32 && 24 + 3 * k < TwoTo32
    ensures |r| == 24 + |rgb|
  {
    PesMagic + PackU32(24 + 3 * k) + PackU32(w) + PackU32(h) + PackU32(k) + rgb
  }

  /** PEC magic, colour count, colour references, stitches, terminator. */
  function PecSection(k: nat, pts: seq<StitchPoint>): (r: seq<byte>)
    requires k <= 255
    ensures |r| == 10 + k + |PesStream(pts)|
  {
    PecMagic + [k] + PecColorRefs(k) + PesStream(pts) + [0xFF]
  }

  /** The export succeeds exactly when both sizes fit an unsigned 32-bit
      field, the palette has at most 255 colours and every colour parses. */
  lemma PesSuccess(d: EmbroideryDesign)
    ensures PesFile(d).Success? <==>
      && 0 <= MachineUnits(d.sizeMm.0) < TwoTo32
      && 0 <= MachineUnits(d.sizeMm.1) < TwoTo32
      && |d.threadColors| <= 255
      && forall i | 0 <= i < |d.threadColors| :: ColorRgb(d.threadColors[i]).Success?
  {
    var parsed := ParsedColors(d.threadColors);
    RgbTableLayout(parsed);
    forall i | 0 <= i < |d.threadColors| ensures parsed[i] == ColorRgb(d.threadColors[i]) {
    }
  }

  /** A failing export fails with the exception of the first check it trips:
      a size or count out of range, then the first colour that does not
      parse, then a PEC offset out of range, then a palette too long for the
      one-byte PEC count. */
  lemma PesFailure(d: EmbroideryDesign)
    ensures var w, h, k := MachineUnits(d.sizeMm.0), MachineUnits(d.sizeMm.1), |d.threadColors|;
      && (!(0 <= w < TwoTo32 && 0 <= h < TwoTo32) ==> PesFile(d) == Failure(StructError))
      && (0 <= w < TwoTo32 && 0 <= h < TwoTo32 && k < TwoTo32 && RgbTable(ParsedColors(d.threadColors)).Failure? ==>
            PesFile(d) == RgbTable(ParsedColors(d.threadColors)))
      && (0 <= w < TwoTo32 && 0 <= h < TwoTo32 && k < TwoTo32 && 24 + 3 * k >= TwoTo32 && RgbTable(ParsedColors(d.threadColors)).Success? ==>
            PesFile(d) == Failure(StructError))
      && (0 <= w < TwoTo32 && 0 <= h < TwoTo32 && 255 < k && 24 + 3 * k < TwoTo32 && RgbTable(ParsedColors(d.threadColors)).Success? ==>
            PesFile(d) == Failure(ValueError))
  {
  }

  lemma PesSectionLayout(w: int, h: int, k: nat, rgb: seq<byte>)
    requires 0 <= w < TwoTo32 && 0 <= h < TwoTo32 && 24 + 3 * k < TwoTo32
    ensures var r := PesSection(w, h, k, rgb);
      && r[..8] == PesMagic
      && UnpackU32(r[8..12]) == 24 + 3 * k
      && UnpackU32(r[12..16]) == w
      && UnpackU32(r[16..20]) == h
      && UnpackU32(r[20..24]) == k
      && r[24..] == rgb
  {
    PackU32RoundTrip(24 + 3 * k);
    PackU32RoundTrip(w);
    PackU32RoundTrip(h);
    PackU32RoundTrip(k);
    var r := PesSection(w, h, k, rgb);
    assert r[8..12] == PackU32(24 + 3 * k);
    assert r[12..16] == PackU32(w);
    assert r[16..20] == PackU32(h);
    assert r[20..24] == PackU32(k);
  }

  lemma PecSectionLayout(k: nat, pts: seq<StitchPoint>)
    requires k <= 255
    ensures var r := PecSection(k, pts);
      && r[..8] == PecMagic
      && r[8] == k
      && (forall j | 9 <= j < 9 + k :: r[j] == j - 8)
      && r[9 + k..|r| - 1] == PesStream(pts)
      && r[|r| - 1] == 0xFF
  {
    var r := PecSection(k, pts);
    var refs := PecColorRefs(k);
    assert r == PecMagic + [k] + refs + PesStream(pts) + [0xFF];
    forall j | 9 <= j < 9 + k ensures r[j] == j - 8 {
      assert r[j] == refs[j - 9];
    }
  }

  /** Under the success conditions the file is the PES section followed by
      the PEC section. */
  lemma PesFileSuccess(d: EmbroideryDesign, rgb: seq<byte>)
    requires 0 <= MachineUnits(d.sizeMm.0) < TwoTo32 && 0 <= MachineUnits(d.sizeMm.1) < TwoTo32
    requires |d.threadColors| <= 255
    requires RgbTable(ParsedColors(d.threadColors)) == Success(rgb)
    ensures PesFile(d) == Success(PesSection(MachineUnits(d.sizeMm.0), MachineUnits(d.sizeMm.1), |d.threadColors|, rgb)
                                  + PecSection(|d.threadColors|, d.points))
  {
  }

  /** The layout of a written PES file: the PES section of 24 + 3k bytes
      (magic, offset, size, colour count, one RGB triplet per colour), and
      at exactly the offset that section records, the PEC section. */
  lemma PesFileLayout(d: EmbroideryDesign)
    requires PesFile(d).Success?
    ensures |PesFile(d).value| == 34 + 4 * |d.threadColors| + |PesStream(d.points)|
    ensures UnpackU32(PesFile(d).value[8..12]) == 24 + 3 * |d.threadColors|
    ensures PesFile(d).value[24 + 3 * |d.threadColors|..] == PecSection(|d.threadColors|, d.points)
  {
    var k := |d.threadColors|;
    var w, h := MachineUnits(d.sizeMm.0), MachineUnits(d.sizeMm.1);
    var rgb := RgbTable(ParsedColors(d.threadColors)).value;
    RgbTableLength(d.threadColors);
    PesFileSuccess(d, rgb);
    var pes := PesSection(w, h, k, rgb);
    var f := pes + PecSection(k, d.points);
    PesSectionLayout(w, h, k, rgb);
    SliceOfConcat(pes, PecSection(k, d.points), 8, 12);
    TailOfConcat(pes, PecSection(k, d.points));
  }

  lemma PesSectionSplit(w: int, h: int, k: nat, rgb: seq<byte>)
    requires 0 <= w < TwoTo32 && 0 <= h < TwoTo32 && 24 + 3 * k < TwoTo32
    ensures var head := PesMagic + PackU32(24 + 3 * k) + PackU32(w) + PackU32(h) + PackU32(k);
      |head| == 24 && PesSection(w, h, k, rgb) == head + rgb
  {
  }

  /** Palette entry `i` of a written file is at bytes 24 + 3i to 27 + 3i,
      as `ColorRgb` reads it from the fill string. */
  lemma PesFileColors(d: EmbroideryDesign)
    requires PesFile(d).Success?
    ensures |PesFile(d).value| >= 24 + 3 * |d.threadColors|
    ensures forall i | 0 <= i < |d.threadColors| ::
      ColorRgb(d.threadColors[i]) == Success(PesFile(d).value[24 + 3 * i..27 + 3 * i])
  {
    var k := |d.threadColors|;
    var w, h := MachineUnits(d.sizeMm.0), MachineUnits(d.sizeMm.1);
    var rgb := RgbTable(ParsedColors(d.threadColors)).value;
    RgbTableLength(d.threadColors);
    PesFileSuccess(d, rgb);
    var head := PesMagic + PackU32(24 + 3 * k) + PackU32(w) + PackU32(h) + PackU32(k);
    var pec := PecSection(k, d.points);
    PesSectionSplit(w, h, k, rgb);
    forall i | 0 <= i < k ensures ColorRgb(d.threadColors[i]) == Success((head + rgb + pec)[24 + 3 * i..27 + 3 * i]) {
      PesColorAt(d.threadColors, head, rgb, pec, i);
    }
  }

  lemma RgbTableAt(parsed: seq<Result<seq<byte>>>, rgb: seq<byte>, i: nat)
    requires forall j | 0 <= j < |parsed| :: parsed[j].Success? ==> |parsed[j].value| == 3
    requires RgbTable(parsed) == Success(rgb) && i < |parsed|
    ensures |rgb| == 3 * |parsed|
    ensures parsed[i] == Success(rgb[3 * i..3 * i + 3])
  {
    RgbTableLayout(parsed);
  }

  lemma PesColorAt(colors: seq<string>, head: seq<byte>, rgb: seq<byte>, pec: seq<byte>, i: nat)
    requires RgbTable(ParsedColors(colors)) == Success(rgb) && |head| == 24 && i < |colors|
    ensures |head + rgb + pec| >= 27 + 3 * i
    ensures ColorRgb(colors[i]) == Success((head + rgb + pec)[24 + 3 * i..27 + 3 * i])
  {
    TableColorAt(colors, rgb, i);
    TripletInFile(head, rgb, pec, i);
  }

  /** Entry `i` of a palette whose table exists is the triplet at 3i. */
  lemma TableColorAt(colors: seq<string>, rgb: seq<byte>, i: nat)
    requires RgbTable(ParsedColors(colors)) == Success(rgb) && i < |colors|
    ensures |rgb| == 3 * |colors|
    ensures ColorRgb(colors[i]) == Success(rgb[3 * i..3 * i + 3])
  {
    assert ParsedColors(colors)[i] == ColorRgb(colors[i]) by {
    }
    RgbTableAt(ParsedColors(colors), rgb, i);
  }

  lemma TripletInFile(head: seq<byte>, rgb: seq<byte>, pec: seq<byte>, i: nat)
    requires |head| == 24 && 3 * i + 3 <= |rgb|
    ensures |head + rgb + pec| >= 27 + 3 * i
    ensures (head + rgb + pec)[24 + 3 * i..27 + 3 * i] == rgb[3 * i..3 * i + 3]
  {
    SliceOfConcat(head + rgb, pec, 24 + 3 * i, 27 + 3 * i);
    SliceOfSecond(head, rgb, 24 + 3 * i, 27 + 3 * i, 3 * i, 3 * i + 3);
  }

  /** The colour loop of `PesExporter.export`: one `struct.pack('BBB', ...)`
      per palette entry, stopping at the first that raises. */
  method WriteColors(colors: seq<string>) returns (r: Result<seq<byte>>)
    ensures r == RgbTable(ParsedColors(colors))
  {
    var out: seq<byte> := [];
    var i := 0;
    while i < |colors|
      invariant 0 <= i <= |colors|
      invariant RgbTable(ParsedColors(colors[..i])) == Success(out)
    {
      var rgb := ColorRgb(colors[i]);
      MapSnoc(ColorRgb, colors, i);
      if rgb.Failure? {
        MapPrefix(ColorRgb, colors, i + 1);
        RgbTableFailureSticks(ParsedColors(colors), i + 1);
        return rgb;
      }
      out := out + rgb.value;
      i := i + 1;
    }
    assert colors[..i] == colors;
    return Success(out);
  }

  /** The PEC colour table loop of `PesExporter.export`: `i + 1` for each
      palette index `i`. */
  method WriteColorRefs(k: nat) returns (out: seq<byte>)
    requires k <= 255
    ensures out == PecColorRefs(k)
  {
    out := [];
    var i := 0;
    while i < k
      invariant 0 <= i <= k
      invariant out == PecColorRefs(i)
    {
      out := out + [i + 1];
      i := i + 1;
    }
  }

  /** One pass of the stitch loop of `PesExporter.export`: the deltas
      against `(last_x, last_y)`, clamped, written as the point's kind
      says, and the accumulator moved by them. */
  method WriteRecord(p: StitchPoint, lastX: int, lastY: int) returns (record: seq<byte>, nextX: int, nextY: int)
    ensures record == PesRecord(p, Pos(lastX, lastY))
    ensures Pos(nextX, nextY) == Step(Pos(lastX, lastY), Units(p), Bound)
  {
    var dx := MachineUnits(p.x) - lastX;
    var dy := MachineUnits(p.y) - lastY;
    dx := Clamp(dx, Bound);
    dy := Clamp(dy, Bound);
    record := [];
    if p.kind == Normal {
      record := [SignedByte(dx), SignedByte(dy)];
    } else if p.kind == Jump {
      record := [0xC0, SignedByte(dx), SignedByte(dy)];
    } else if p.kind == ColorChange {
      record := [0xFE];
    }
    nextX, nextY := lastX + dx, lastY + dy;
  }

  /** The stitch loop of `PesExporter.export`: the clamped deltas against
      the running `(last_x, last_y)`, written as the point's kind says. */
  method WriteStitches(pts: seq<StitchPoint>) returns (out: seq<byte>)
    ensures out == PesStream(pts)
  {
    out := [];
    var lastX, lastY := 0, 0;
    var j := 0;
    while j < |pts|
      invariant 0 <= j <= |pts|
      invariant out == PesStream(pts[..j])
      invariant Pos(lastX, lastY) == Track(pts[..j], Bound)
    {
      PesStreamSnoc(pts, j);
      var record;
      record, lastX, lastY := WriteRecord(pts[j], lastX, lastY);
      out := out + record;
      j := j + 1;
    }
    assert pts[..j] == pts;
  }

  lemma RgbTableLength(colors: seq<string>)
    ensures RgbTable(ParsedColors(colors)).Success? ==> |RgbTable(ParsedColors(colors)).value| == 3 * |colors|
  {
    RgbTableLayout(ParsedColors(colors));
  }

  /** Rewriting the placeholder after the magic with the offset completes
      the PES section. */
  lemma PatchOffset(out: seq<byte>, pos: nat, offset: nat, w: int, h: int, k: nat, rgb: seq<byte>)
    requires 0 <= w < TwoTo32 && 0 <= h < TwoTo32 && 24 + 3 * k < TwoTo32
    requires out == PesMagic + PackU32(0) + (PackU32(w) + PackU32(h) + PackU32(k)) + rgb
    requires pos == PecOffsetPos && offset == 24 + 3 * k
    ensures out[..pos] + PackU32(offset) + out[pos + 4..] == PesSection(w, h, k, rgb)
  {
    var fields := PackU32(w) + PackU32(h) + PackU32(k);
    assert out == PesMagic + PackU32(0) + (fields + rgb);
    Overwrite(PesMagic, PackU32(0), PackU32(offset), fields + rgb, out, pos, pos + 4);
    assert PesMagic + PackU32(offset) + (fields + rgb) == PesSection(w, h, k, rgb);
  }

  lemma AppendPec(pes: seq<byte>, k: nat, pts: seq<StitchPoint>)
    requires k <= 255
    ensures pes + PecMagic + [k] + PecColorRefs(k) + PesStream(pts) + [0xFF] == pes + PecSection(k, pts)
  {
  }

  /** The first part of `PesExporter.export`: the header with a zero
      placeholder at offset 8, the sizes and count, the colour loop, then
      the placeholder patched with the current length. */
  method WritePesSection(d: EmbroideryDesign) returns (r: Result<seq<byte>>)
    ensures r == PesHead(d)
  {
    var out: seq<byte> := PesMagic;
    var pecOffsetPos := |out|;
    out := out + PackU32(0);
    var w := MachineUnits(d.sizeMm.0);
    var h := MachineUnits(d.sizeMm.1);
    var k := |d.threadColors|;
    if !(0 <= w < TwoTo32 && 0 <= h < TwoTo32 && k < TwoTo32) {
      return Failure(StructError);
    }
    out := out + (PackU32(w) + PackU32(h) + PackU32(k));
    var colors := WriteColors(d.threadColors);
    if colors.Failure? {
      return colors;
    }
    var rgb := colors.value;
    HeadValue(d, rgb);
    out := out + rgb;
    var pecOffset := |out|;
    if pecOffset >= TwoTo32 {
      return Failure(StructError);
    }
    PatchOffset(out, pecOffsetPos, pecOffset, w, h, k, rgb);
    out := out[..pecOffsetPos] + PackU32(pecOffset) + out[pecOffsetPos + 4..];
    return Success(out);
  }

  /** The PES section for a palette whose table is `rgb`. */
  lemma HeadValue(d: EmbroideryDesign, rgb: seq<byte>)
    requires 0 <= MachineUnits(d.sizeMm.0) < TwoTo32 && 0 <= MachineUnits(d.sizeMm.1) < TwoTo32 && |d.threadColors| < TwoTo32
    requires RgbTable(ParsedColors(d.threadColors)) == Success(rgb)
    ensures |rgb| == 3 * |d.threadColors|
    ensures 24 + 3 * |d.threadColors| < TwoTo32 ==>
      PesHead(d) == Success(PesSection(MachineUnits(d.sizeMm.0), MachineUnits(d.sizeMm.1), |d.threadColors|, rgb))
    ensures 24 + 3 * |d.threadColors| >= TwoTo32 ==> PesHead(d) == Failure(StructError)
  {
    RgbTableLength(d.threadColors);
  }

  /** `PesExporter.export`: the PES section, then the PEC magic, the
      colour count and table, the stitch loop and the 0xFF terminator. */
  method Export(d: EmbroideryDesign) returns (r: Result<seq<byte>>)
    ensures r == PesFile(d)
  {
    var head := WritePesSection(d);
    if head.Failure? {
      return Failure(head.error);
    }
    var pes := head.value;
    var out := pes + PecMagic;
    var k := |d.threadColors|;
    if k > 255 {
      return Failure(ValueError);
    }
    out := out + [k];
    var refs := WriteColorRefs(k);
    out := out + refs;
    var stitches := WriteStitches(d.points);
    out := out + stitches + [0xFF];
    AppendPec(pes, k, d.points);
    return Success(out);
  }
}
