/** The drawing window's conversion of its canvas into an embroidery design
    and its choice of encoder (Creabroderie/debug.py:865-917, 979-992).
    The canvas is given as the list of its items in drawing order; the
    bounding box Tk reports for all of them, `math.cos` and `math.sin` are
    parameters. */
module Drawing {
  import opened Bytes
  import opened Stitch
  import opened Tessellate
  import opened HexColor
  import Pes
  import Dst
  import Jef

  /** What `convert_to_embroidery` reads of a canvas item: its Tk type
      (`oval`, `rectangle`, `text`, `line`, ...), its coordinates, its
      `fill` option, and whether it is one of the grid lines. */
  datatype CanvasItem = CanvasItem(kind: string, coords: seq<real>, fill: string, isGrid: bool)

  /** `canvas.bbox('all')`. */
  datatype BBox = BBox(x1: real, y1: real, x2: real, y2: real)

  /** An item takes part when it is not a grid line and has a fill. */
  predicate Counts(item: CanvasItem)
  {
    !item.isGrid && item.fill != ""
  }

  /** The palette: the fills of the counted items, each once, in the order
      they are first met. */
  function Palette(items: seq<CanvasItem>): seq<string>
  {
    if items == [] then []
    else
      var p := Palette(items[..|items| - 1]);
      var item := items[|items| - 1];
      if Counts(item) && item.fill !in p then p + [item.fill] else p
  }

  /** `list.index`: the first position holding `x`. */
  function IndexOf(s: seq<string>, x: string): (i: nat)
    requires x in s
    ensures i < |s| && s[i] == x
    ensures forall j | 0 <= j < i :: s[j] != x
  {
    if s[0] == x then 0 else 1 + IndexOf(s[1..], x)
  }

  /** The stitches of one item of palette entry `color`; a type other than
      oval, rectangle and text gives none. */
  function Tessellated(item: CanvasItem, color: int, density: real, cos: real -> real, sin: real -> real): Result<seq<StitchPoint>>
    requires density > 0.0
  {
    if item.kind == "oval" then CirclePoints(item.coords, color, density, cos, sin)
    else if item.kind == "rectangle" then RectanglePoints(item.coords, color, density)
    else if item.kind == "text" then TextPoints(item.coords, color)
    else Success([])
  }

  /** The stitches of the counted items in drawing order; an item whose
      tessellation raises contributes nothing. */
  function ShapePoints(items: seq<CanvasItem>, density: real, cos: real -> real, sin: real -> real): seq<StitchPoint>
    requires density > 0.0
  {
    if items == [] then []
    else
      var init := ShapePoints(items[..|items| - 1], density, cos, sin);
      var item := items[|items| - 1];
      if !Counts(item) then init
      else match Tessellated(item, IndexOf(Palette(items), item.fill), density, cos, sin)
        case Success(pts) => init + pts
        case Failure(_) => init
  }

  /** The single NORMAL stitch at the origin that stands in for an empty drawing. */
  const Padding := StitchPoint(0.0, 0.0, Normal, 0)

  /** The design size in millimetres: the bounding box at ten pixels per
      millimetre, or 100 x 100 for an empty canvas. */
  function SizeMm(bbox: Option<BBox>): (real, real)
  {
    match bbox
    case Some(b) => ((b.x2 - b.x1) / 10.0, (b.y2 - b.y1) / 10.0)
    case None => (100.0, 100.0)
  }

  /** The design `convert_to_embroidery` returns. */
  function Design(items: seq<CanvasItem>, density: real, hoop: (real, real), bbox: Option<BBox>,
                  cos: real -> real, sin: real -> real): EmbroideryDesign
    requires density > 0.0
  {
    var pts := ShapePoints(items, density, cos, sin);
    EmbroideryDesign(if pts == [] then [Padding] else pts, Palette(items), SizeMm(bbox), hoop)
  }

  lemma PaletteStep(items: seq<CanvasItem>, i: nat)
    requires i < |items|
    ensures items[..i + 1][..i] == items[..i]
    ensures var p := Palette(items[..i]);
      Palette(items[..i + 1]) == if Counts(items[i]) && items[i].fill !in p then p + [items[i].fill] else p
  {
    assert items[..i + 1][..i] == items[..i];
  }

  /** The tessellator call for one item, chosen by its type. */
  method TessellateItem(item: CanvasItem, color: int, density: real, cos: real -> real, sin: real -> real)
    returns (r: Result<seq<StitchPoint>>)
    requires density > 0.0
    ensures r == Tessellated(item, color, density, cos, sin)
  {
    if item.kind == "oval" {
      r := CircleToStitches(item.coords, color, density, cos, sin);
    } else if item.kind == "rectangle" {
      r := RectangleToStitches(item.coords, color, density);
    } else if item.kind == "text" {
      r := TextPoints(item.coords, color);
    } else {
      r := Success([]);
    }
  }

  /** `convert_to_embroidery`: one pass over the canvas items that registers
      each fill before tessellating its item, skips the items that raise,
      pads an empty result and measures the bounding box. */
  method ConvertToEmbroidery(items: seq<CanvasItem>, density: real, hoop: (real, real), bbox: Option<BBox>,
                             cos: real -> real, sin: real -> real)
    returns (d: EmbroideryDesign)
    requires density > 0.0
    ensures d == Design(items, density, hoop, bbox, cos, sin)
  {
    var points: seq<StitchPoint> := [];
    var threadColors: seq<string> := [];
    for i := 0 to |items|
      invariant threadColors == Palette(items[..i])
      invariant points == ShapePoints(items[..i], density, cos, sin)
    {
      var item := items[i];
      PaletteStep(items, i);
      if item.isGrid {
        continue;
      }
      if item.fill != "" {
        if item.fill !in threadColors {
          threadColors := threadColors + [item.fill];
        }
        var colorIndex := IndexOf(threadColors, item.fill);
        var r := TessellateItem(item, colorIndex, density, cos, sin);
        if r.Success? {
          points := points + r.value;
        }
      }
    }
    assert items[..|items|] == items;
    assert points == ShapePoints(items, density, cos, sin);
    if points == [] {
      points := points + [Padding];
    }
    var size := MeasureSize(bbox);
    d := EmbroideryDesign(points, threadColors, size, hoop);
  }

  /** The size step of `convert_to_embroidery`: the bounding box at ten
      pixels per millimetre, or 100 x 100 when the canvas is empty. */
  method MeasureSize(bbox: Option<BBox>) returns (size: (real, real))
    ensures size == SizeMm(bbox)
    ensures bbox.None? ==> size == (100.0, 100.0)
    ensures bbox.Some? ==>
      size.0 * 10.0 == bbox.value.x2 - bbox.value.x1 && size.1 * 10.0 == bbox.value.y2 - bbox.value.y1
  {
    if bbox.Some? {
      size := ((bbox.value.x2 - bbox.value.x1) / 10.0, (bbox.value.y2 - bbox.value.y1) / 10.0);
    } else {
      size := (100.0, 100.0);
    }
  }

  /** No fill appears twice in the palette. */
  lemma {:induction false} PaletteDistinct(items: seq<CanvasItem>)
    ensures forall i, j | 0 <= i < j < |Palette(items)| :: Palette(items)[i] != Palette(items)[j]
  {
    if items != [] {
      var init := items[..|items| - 1];
      var item := items[|items| - 1];
      PaletteDistinct(init);
      var p := Palette(init);
      if Counts(item) && item.fill !in p {
        var q := p + [item.fill];
        assert Palette(items) == q;
        forall i, j | 0 <= i < j < |q| ensures q[i] != q[j] {
          if j == |p| {
            assert q[i] == p[i] && p[i] in p && q[j] == item.fill;
          } else {
            assert q[i] == p[i] && q[j] == p[j];
          }
        }
      }
    }
  }

  /** A fill is in the palette exactly when some counted item has it,
      whether or not that item yields stitches. */
  lemma {:induction false} PaletteMembers(items: seq<CanvasItem>, f: string)
    ensures f in Palette(items) <==> exists i | 0 <= i < |items| :: Counts(items[i]) && items[i].fill == f
  {
    if items != [] {
      var init := items[..|items| - 1];
      PaletteMembers(init, f);
      if exists i | 0 <= i < |init| :: Counts(init[i]) && init[i].fill == f {
        var i :| 0 <= i < |init| && Counts(init[i]) && init[i].fill == f;
        assert items[i] == init[i];
      }
      if exists i | 0 <= i < |items| :: Counts(items[i]) && items[i].fill == f {
        var i :| 0 <= i < |items| && Counts(items[i]) && items[i].fill == f;
        if i < |init| {
          assert init[i] == items[i];
        }
      }
    }
  }

  /** The palette of a prefix of the canvas is a prefix of the palette:
      an entry keeps the index it got when its fill was first met. */
  lemma {:induction false} PalettePrefix(items: seq<CanvasItem>, n: nat)
    requires n <= |items|
    ensures Palette(items[..n]) <= Palette(items)
    decreases |items| - n
  {
    if n < |items| {
      PaletteStep(items, n);
      PalettePrefix(items, n + 1);
    } else {
      assert items[..n] == items;
    }
  }

  /** The first position of `x` is the same in a sequence and in any
      extension of it. */
  lemma IndexOfPrefix(p: seq<string>, q: seq<string>, x: string)
    requires p <= q && x in p
    ensures x in q && IndexOf(p, x) == IndexOf(q, x)
  {
    var i := IndexOf(p, x);
    assert q[i] == x;
  }

  /** The colour index an item gets while the palette is being built is
      the position of its fill in the finished palette. */
  lemma ColorIndexStable(items: seq<CanvasItem>, n: nat)
    requires n < |items| && Counts(items[n])
    ensures items[n].fill in Palette(items[..n + 1]) && items[n].fill in Palette(items)
    ensures IndexOf(Palette(items[..n + 1]), items[n].fill) == IndexOf(Palette(items), items[n].fill)
  {
    PaletteStep(items, n);
    PalettePrefix(items, n + 1);
    IndexOfPrefix(Palette(items[..n + 1]), Palette(items), items[n].fill);
  }

  /** Every tessellator gives stitches of the colour it was passed, and only
      NORMAL and END stitches. */
  lemma TessellatedStitches(item: CanvasItem, color: int, density: real, cos: real -> real, sin: real -> real)
    requires density > 0.0
    ensures Tessellated(item, color, density, cos, sin).Success? ==>
      forall p | p in Tessellated(item, color, density, cos, sin).value :: p.colorIndex == color && (p.kind == Normal || p.kind == End)
  {
    if item.kind == "oval" {
      CircleShape(item.coords, color, density, cos, sin);
    } else if item.kind == "rectangle" && |item.coords| == 4 {
      var c := item.coords;
      RowsKinds(c[0], c[1], c[2], 1.0 / density, color, RowCount(c[1], c[3], density));
    }
  }

  /** Every stitch of the shapes refers to a palette entry and is a NORMAL
      or an END stitch. */
  lemma {:induction false} ShapePointsInPalette(items: seq<CanvasItem>, density: real, cos: real -> real, sin: real -> real)
    requires density > 0.0
    ensures forall p | p in ShapePoints(items, density, cos, sin) ::
      0 <= p.colorIndex < |Palette(items)| && (p.kind == Normal || p.kind == End)
  {
    if items != [] {
      var init := items[..|items| - 1];
      var item := items[|items| - 1];
      ShapePointsInPalette(init, density, cos, sin);
      assert |Palette(init)| <= |Palette(items)|;
      if Counts(item) {
        var color := IndexOf(Palette(items), item.fill);
        TessellatedStitches(item, color, density, cos, sin);
        var before := ShapePoints(init, density, cos, sin);
        var r := Tessellated(item, color, density, cos, sin);
        if r.Success? {
          assert ShapePoints(items, density, cos, sin) == before + r.value;
        }
      }
    }
  }

  /** The design always has a stitch; an empty drawing gives exactly the
      padding stitch; every stitch is NORMAL or END and, when the shapes
      gave any, refers to a palette entry; the size is the bounding box in
      millimetres or 100 x 100. */
  lemma DesignShape(items: seq<CanvasItem>, density: real, hoop: (real, real), bbox: Option<BBox>,
                    cos: real -> real, sin: real -> real)
    requires density > 0.0
    ensures var d := Design(items, density, hoop, bbox, cos, sin);
      && d.points != []
      && d.threadColors == Palette(items)
      && d.hoopSizeMm == hoop
      && (ShapePoints(items, density, cos, sin) == [] ==> d.points == [Padding])
      && (forall p | p in d.points :: p.kind == Normal || p.kind == End)
      && (ShapePoints(items, density, cos, sin) != [] ==> forall p | p in d.points :: 0 <= p.colorIndex < |d.threadColors|)
      && (bbox.None? ==> d.sizeMm == (100.0, 100.0))
      && (bbox.Some? ==>
            d.sizeMm.0 * 10.0 == bbox.value.x2 - bbox.value.x1 && d.sizeMm.1 * 10.0 == bbox.value.y2 - bbox.value.y1)
  {
    ShapePointsInPalette(items, density, cos, sin);
  }

  /** A converted drawing never holds a JUMP, so its JEF export fails only
      when a header field does not fit. */
  lemma ConvertedJefHeaderOnly(items: seq<CanvasItem>, density: real, hoop: (real, real), bbox: Option<BBox>,
                               cos: real -> real, sin: real -> real)
    requires density > 0.0
    ensures var d := Design(items, density, hoop, bbox, cos, sin);
      Jef.JefFile(d).Success? <==> Jef.HeaderFits(d)
  {
    var d := Design(items, density, hoop, bbox, cos, sin);
    DesignShape(items, density, hoop, bbox, cos, sin);
    Jef.JefSuccess(d);
    assert forall i | 0 <= i < |d.points| :: !Jef.NegativeJump(d.points, i);
  }

  /** When every counted item has a `#rrggbb` fill, there are at most 255
      of them and the size fits an unsigned 32-bit field, the PES export of
      the converted drawing succeeds. */
  lemma ConvertedPesSucceeds(items: seq<CanvasItem>, density: real, hoop: (real, real), bbox: Option<BBox>,
                             cos: real -> real, sin: real -> real)
    requires density > 0.0
    requires forall i | 0 <= i < |items| :: Counts(items[i]) ==> IsHexColor(items[i].fill)
    requires |Palette(items)| <= 255
    requires var size := SizeMm(bbox);
      0 <= MachineUnits(size.0) < TwoTo32 && 0 <= MachineUnits(size.1) < TwoTo32
    ensures Pes.PesFile(Design(items, density, hoop, bbox, cos, sin)).Success?
  {
    var d := Design(items, density, hoop, bbox, cos, sin);
    var p := Palette(items);
    forall i | 0 <= i < |p| ensures ColorRgb(p[i]).Success? {
      PaletteMembers(items, p[i]);
      var j :| 0 <= j < |items| && Counts(items[j]) && items[j].fill == p[i];
      HexColorChannels(p[i]);
    }
    Pes.PesSuccess(d);
  }

  /** The encoder bytes `export_to_format` would write: PES for "pes", DST
      for "dst", and JEF for any other format name. */
  function ExportFile(d: EmbroideryDesign, format: string): Result<seq<byte>>
  {
    if format == "pes" then Pes.PesFile(d)
    else if format == "dst" then Success(Dst.DstFile(d.points))
    else Jef.JefFile(d)
  }

  /** `export_to_format`: a `Failure` stands for the exception the encoder
      reports as `False`. */
  method ExportToFormat(d: EmbroideryDesign, format: string) returns (r: Result<seq<byte>>)
    ensures r == ExportFile(d, format)
  {
    if format == "pes" {
      r := Pes.Export(d);
    } else if format == "dst" {
      var bytes := Dst.Export(d);
      r := Success(bytes);
    } else {
      r := Jef.Export(d);
    }
  }

  /** DST never fails; PES and JEF fail exactly as their encoders do, and a
      format name other than "pes" and "dst" always means JEF. */
  lemma ExportOutcome(d: EmbroideryDesign, format: string)
    ensures format == "dst" ==> ExportFile(d, format) == Success(Dst.DstFile(d.points))
    ensures format == "pes" ==> (ExportFile(d, format).Success? <==>
      && 0 <= MachineUnits(d.sizeMm.0) < TwoTo32
      && 0 <= MachineUnits(d.sizeMm.1) < TwoTo32
      && |d.threadColors| <= 255
      && forall i | 0 <= i < |d.threadColors| :: ColorRgb(d.threadColors[i]).Success?)
    ensures format != "pes" && format != "dst" ==> (ExportFile(d, format).Success? <==>
      Jef.HeaderFits(d) && forall i | 0 <= i < |d.points| :: !Jef.NegativeJump(d.points, i))
  {
    Pes.PesSuccess(d);
    Jef.JefSuccess(d);
  }
}
