# Creabroderie: embroidery export, design assembly and undo history

Creabroderie is a Tk drawing program that turns a drawing of ovals,
rectangles and text into a machine-embroidery file. This project models
three of its parts in Dafny and proves properties of them.

- **The stitch-file encoders** (`PesExporter`, `DstExporter`,
  `JefExporter`). They turn an `EmbroideryDesign` into the bytes of a
  Brother PES, Tajima DST or Janome JEF file.
  - Each encoder is a method that builds the file by appending, loop by
    loop, as the Python writes it.
  - Each method is proved equal to a recursive specification function.
  - The layout, length and failure lemmas are proved about those
    specification functions.
  - Python's exceptions, which the `try` turns into `return False`, are
    `Failure(ValueError | StructError | IndexError)`.
- **Design assembly** (`convert_to_embroidery` and the oval, rectangle and
  text tessellators). This builds the palette, the stitches of every shape,
  the padding point and the design size.
- **The undo history** (`save_state`, `undo`, `redo`, `new_design`). It is
  a class with a list of snapshots and a cursor, capped at 50 snapshots.

Modules:

- `Bytes`: bytes, `struct.pack` and the decimal text of `f"{n:6d}"`, each
  with its inverse.
- `Stitch`: stitch kinds, points, designs, truncation to machine units
  (0.1 mm) and the clamped `(last_x, last_y)` accumulator.
- `HexColor`: the colour slices and `int(s, 16)`.
- `Pes`, `Dst`, `Jef`: the three encoders.
- `Tessellate`: the oval, rectangle and text stitch generators.
- `Drawing`: `convert_to_embroidery` and the `export_to_format` dispatch.
- `Undo`: the history class.

The model follows the code as written. Several lemmas state outcomes that
look unintended; each is modelled exactly as the code behaves:

- **DST header size.** The header is 489 bytes for fewer than a million
  stitches, not 512. Slice assignment of shorter byte strings shrinks the
  `bytearray`.
- **DST small moves.** A move of at most 40 units keeps no sign.
- **DST large moves.** Magnitudes wrap modulo 41.
- **JEF data offset.** The recorded offset is `128 + 4k`, while the stitches
  start 12 bytes earlier, at `116 + 4k`.
- **JEF negative jumps.** A JUMP with a negative clamped delta makes the
  export fail.
- **PES colour references.** The PEC colour table holds the references
  1..k, not RGB values.

## Model

| member | source | states |
|---|---|---|
| Bytes.PackU32RoundTrip | Creabroderie/embroidery_export.py:55 | `struct.pack('<I', v)` gives four bytes that read back, little-endian, as `v` for every `v` in [0, 2^32) |
| Bytes.PackI32RoundTrip | Creabroderie/embroidery_export.py:195 | `struct.pack('<i', v)` gives the four two's-complement bytes that read back as `v` for every 32-bit signed `v` |
| Bytes.SignedByteRoundTrip | Creabroderie/embroidery_export.py:99 | `dx & 0xff` of a clamped delta, read as a signed byte, gives `dx` back |
| Bytes.Ascii | Creabroderie/embroidery_export.py:126 | `.encode()` of an ASCII string is one byte per character, holding its code |
| Bytes.DecimalRoundTrip | Creabroderie/embroidery_export.py:126 | the decimal text of the stitch count reads back as the count |
| Bytes.DecimalLength | Creabroderie/embroidery_export.py:126 | the decimal text of `n` has at most `k` digits exactly when `n < 10^k` |
| Bytes.RightJustify | Creabroderie/embroidery_export.py:126 | `{n:6d}` is as long as the larger of the width and the digits, ends with the digits and has spaces before them |
| Stitch.Code | Creabroderie/embroidery_export.py:16-22 | every stitch type has its code in 0..4 |
| Stitch.CodeRoundTrip | Creabroderie/embroidery_export.py:16-22 | the codes 0..4 name the five stitch types one to one, and no other integer names one |
| Stitch.TruncTowardZero | Creabroderie/embroidery_export.py:40-42 | `int()` of a number moves it toward zero by less than one and keeps its sign |
| Stitch.MachineUnitsBounds | Creabroderie/embroidery_export.py:40-42 | `int(mm * 10)` is within one unit of the exact tenths of a millimetre, on the side of zero |
| Stitch.Clamp | Creabroderie/embroidery_export.py:95-96 | `max(min(v, b), -b)` lies in [-b, b], is `v` inside that range and the nearer bound outside it |
| Stitch.StepApproaches | Creabroderie/embroidery_export.py:91-106 | one accumulator step brings it `b` closer to the target on each axis, or onto it, and never overshoots |
| Stitch.TrackIsSumOfClampedDeltas | Creabroderie/embroidery_export.py:89-106 | after `n` points, `(last_x, last_y)` is the sum of the clamped deltas, not of the true ones |
| Stitch.TrackWithoutLongMoves | Creabroderie/embroidery_export.py:89-106 | when no move between consecutive points exceeds the bound, the accumulator ends on the truncated position of the last point |
| HexColor.PySlice | Creabroderie/embroidery_export.py:67-69 | `s[i:j]` cuts the indices down to the length: its length and every character are those of `s` from `i` |
| HexColor.StripEnds | Creabroderie/embroidery_export.py:67-69 | what `int()` keeps after dropping surrounding whitespace (space and tab to carriage return) has none at either end |
| HexColor.SeparatorRejected | Creabroderie/embroidery_export.py:67 | a file separator (0x1C) before a digit is not whitespace to `int()`, so the slice raises ValueError |
| HexColor.ParseHex | Creabroderie/embroidery_export.py:67-69 | `int(s, 16)` of a slice of at most two characters is in [-15, 255] when it succeeds |
| HexColor.ParseHexDigits | Creabroderie/embroidery_export.py:67-69 | `int(s, 16)` fails only with ValueError, and one or two hex digits read as their value |
| HexColor.HexPairParses | Creabroderie/embroidery_export.py:67-69 | two hex digits read as the byte `16·d1 + d2` |
| HexColor.ColorRgb | Creabroderie/embroidery_export.py:65-70 | a palette entry that packs gives exactly three bytes and has at least six characters |
| HexColor.HexColorChannels | Creabroderie/embroidery_export.py:65-70 | a `#rrggbb` fill packs to its three channels, each read from its pair of digits |
| HexColor.NamedColorFails | Creabroderie/embroidery_export.py:65-70 | the Tk colour name `white` is not a hex number, so it fails with ValueError |
| Pes.ParsedColors | Creabroderie/embroidery_export.py:65-70 | one outcome per palette entry, in order; every success holds three bytes |
| Pes.RgbTableLayout | Creabroderie/embroidery_export.py:65-70 | the colour table succeeds exactly when every entry does; it is then `3k` bytes, and bytes `3i..3i+3` are entry `i` |
| Pes.RgbTableFailureSticks | Creabroderie/embroidery_export.py:65-70 | once a colour fails, the table fails with that colour's exception, whatever follows it |
| Pes.RgbTableLength | Creabroderie/embroidery_export.py:65-70 | a successful colour table has three bytes per palette entry |
| Pes.TableColorAt | Creabroderie/embroidery_export.py:65-70 | bytes `3i..3i+3` of a successful table are what palette entry `i` packs to |
| Pes.PecColorRefs | Creabroderie/embroidery_export.py:84-86 | the PEC colour table is the `k` bytes `1, 2, ..., k` |
| Pes.PesRecordBytes | Creabroderie/embroidery_export.py:91-103 | NORMAL writes two signed bytes and JUMP writes `0xC0` and two, each the delta the accumulator moves by; COLOR_CHANGE writes `0xFE`; TRIM and END write nothing |
| Pes.PesStreamSnoc | Creabroderie/embroidery_export.py:89-106 | each point appends its record, computed against the accumulator left by the points before it, and moves the accumulator one clamped step |
| Pes.PesStreamLength | Creabroderie/embroidery_export.py:89-106 | the stitch stream is `2·#NORMAL + 3·#JUMP + #COLOR_CHANGE` bytes long |
| Pes.PesSection | Creabroderie/embroidery_export.py:51-70 | the PES section is 24 bytes plus the colour table |
| Pes.PecSection | Creabroderie/embroidery_export.py:81-109 | the PEC section is 10 bytes plus `k` plus the stitch stream |
| Pes.PesSectionSplit | Creabroderie/embroidery_export.py:51-70 | the PES section is a 24-byte head (magic, offset, width, height, count) followed by the colour table |
| Pes.PesSectionLayout | Creabroderie/embroidery_export.py:51-77 | the PES section starts with `#PES0001`, then u32 fields `24 + 3k`, width, height and `k`, then the colour table |
| Pes.PecSectionLayout | Creabroderie/embroidery_export.py:81-109 | the PEC section is `#PEC0001`, the byte `k`, the references `1..k`, the stitch stream, then `0xFF` |
| Pes.PesSuccess | Creabroderie/embroidery_export.py:47-115 | the export succeeds exactly when width and height fit a u32, there are at most 255 colours and every colour packs |
| Pes.PesFailure | Creabroderie/embroidery_export.py:55-115 | an unpackable size raises StructError; otherwise a bad colour raises that colour's exception; then a PEC offset beyond 2^32 raises StructError; otherwise more than 255 colours raise ValueError |
| Pes.PesFileSuccess | Creabroderie/embroidery_export.py:47-111 | a successful file is the PES section followed by the PEC section |
| Pes.PesFileLayout | Creabroderie/embroidery_export.py:51-109 | the file is `34 + 4k + stream` bytes long; the u32 at offset 8 is `24 + 3k`; the PEC section begins exactly there |
| Pes.PesFileColors | Creabroderie/embroidery_export.py:65-70 | bytes `24 + 3i .. 27 + 3i` of a successful file are what palette entry `i` packs to |
| Pes.PesColorAt | Creabroderie/embroidery_export.py:65-70 | in a file built from a 24-byte head, the colour table and the PEC part, entry `i`'s triplet sits at offset `24 + 3i` |
| Pes.RgbTableAt | Creabroderie/embroidery_export.py:65-70 | each outcome of a successful table is its triplet at `3i` |
| Pes.PatchOffset | Creabroderie/embroidery_export.py:54-78 | overwriting the placeholder at offset 8 with `pack('<I', 24 + 3k)` gives the PES section |
| Pes.AppendPec | Creabroderie/embroidery_export.py:81-109 | the writes after the PES section append exactly the PEC section |
| Pes.HeadValue | Creabroderie/embroidery_export.py:51-78 | the PES section is built when its fields fit a u32; an offset beyond 2^32 raises StructError |
| Pes.WriteColors | Creabroderie/embroidery_export.py:65-70 | the colour loop yields the colour table, or the first colour's exception |
| Pes.WriteColorRefs | Creabroderie/embroidery_export.py:84-86 | the reference loop yields the PEC colour table |
| Pes.WriteRecord | Creabroderie/embroidery_export.py:91-106 | one pass of the stitch loop writes the point's record and moves `(last_x, last_y)` one clamped step |
| Pes.WriteStitches | Creabroderie/embroidery_export.py:89-106 | the stitch loop yields the stitch stream |
| Pes.WritePesSection | Creabroderie/embroidery_export.py:51-78 | the writes up to the patched offset yield the PES section or its failure |
| Pes.Export | Creabroderie/embroidery_export.py:47-115 | `PesExporter.export` yields the PES file or its failure |
| Dst.SliceAssign | Creabroderie/embroidery_export.py:125-130 | assigning a byte string to `a[i:j]` changes the length by `len(s) - (j - i)` |
| Dst.SliceAssignKeeps | Creabroderie/embroidery_export.py:125-130 | slice assignment keeps the bytes before `i`, writes `s`, and shifts the bytes from `j` onwards to follow it |
| Dst.StTextIsAscii | Creabroderie/embroidery_export.py:126 | `ST:{n:6d}` is ASCII and is 9 characters long, or longer for counts of seven digits or more |
| Dst.StField | Creabroderie/embroidery_export.py:126 | the encoded `ST:` field has one byte per character |
| Dst.LabelStep | Creabroderie/embroidery_export.py:125 | the 13-byte label replaces bytes 0..13 of the zeroed header |
| Dst.CountStep | Creabroderie/embroidery_export.py:126 | the `ST:` field replaces the 28 bytes at offset 14 |
| Dst.ExtentStep | Creabroderie/embroidery_export.py:127-130 | each `+   0` replaces six bytes with five, after one zero |
| Dst.HeaderWithLayout | Creabroderie/embroidery_export.py:124-130 | the header is the label, a zero, the count field, zeros, and four `+   0` fields, with 415 + len(count field) zeros at the end |
| Dst.DstHeaderLayout | Creabroderie/embroidery_export.py:124-131 | the header written for `n` stitches has that layout |
| Dst.DstHeaderLength | Creabroderie/embroidery_export.py:124-131 | for fewer than a million stitches the header is 489 bytes, and bytes 14..23 hold `ST:` and the right-justified count, which reads back as `n` |
| Dst.StTextDigits | Creabroderie/embroidery_export.py:126 | for up to six digits, `ST:{n:6d}` is nine characters and ends with the digits of `n` |
| Dst.HeaderCountField | Creabroderie/embroidery_export.py:124-130 | a nine-byte count field makes a 489-byte header holding the field at bytes 14..23 |
| Dst.DirectionBits | Creabroderie/embroidery_export.py:145-152 | the direction bits never touch the command bits `0xC3` |
| Dst.FlagsByteDirection | Creabroderie/embroidery_export.py:145-152 | byte 1 has `0x04` iff dx > 40, `0x08` iff dx < -40, `0x20` iff dy > 40, and `0x10` iff dy < -40 |
| Dst.FlagsByteKind | Creabroderie/embroidery_export.py:154-157 | the command bits of byte 1 are `0xC3` iff COLOR_CHANGE, `0x83` iff JUMP, and 0 otherwise |
| Dst.DstRecord | Creabroderie/embroidery_export.py:140-162 | every point writes three bytes, and bytes 2 and 3 are at most 40 |
| Dst.SmallMoveSignLost | Creabroderie/embroidery_export.py:145-160 | a move of at most 40 units and its opposite give the same bytes |
| Dst.MagnitudeWraps | Creabroderie/embroidery_export.py:145-160 | every clamped move of 41 to 80 units gives the same bytes as the move 41 units longer in the same direction, because the magnitude is taken modulo 41 |
| Dst.DstStreamLength | Creabroderie/embroidery_export.py:133-166 | the stitch stream is three bytes per point, whatever its kind |
| Dst.DstStreamAt | Creabroderie/embroidery_export.py:133-166 | record `i` of the stream is computed against the truncated position of point `i - 1`, because the accumulator moves by the unclamped delta |
| Dst.DstStreamSnoc | Creabroderie/embroidery_export.py:133-166 | each point appends its record, and the accumulator becomes the point's truncated position |
| Dst.DstFileLayout | Creabroderie/embroidery_export.py:120-169 | the file is `492 + 3n` bytes: the 489-byte header, record `i` at `489 + 3i`, and `03 00 00` at the end |
| Dst.WriteRecord | Creabroderie/embroidery_export.py:136-165 | one pass of the stitch loop writes the point's record and moves `(last_x, last_y)` to its truncated position |
| Dst.WriteStitches | Creabroderie/embroidery_export.py:133-166 | the stitch loop yields the stitch stream |
| Dst.Export | Creabroderie/embroidery_export.py:120-169 | `DstExporter.export` yields the DST file; it never fails |
| Jef.HeaderFields | Creabroderie/embroidery_export.py:185-195 | the packed header fields are 28 bytes |
| Jef.HeaderFieldsLayout | Creabroderie/embroidery_export.py:185-195 | the u32 fields read back as `k`, `n` and `128 + 4k`, and the i32 fields as `w, h, w, h` |
| Jef.ColorTable | Creabroderie/embroidery_export.py:201-202 | the colour list is four bytes per colour |
| Jef.ColorTableAt | Creabroderie/embroidery_export.py:201-202 | entry `i` of the colour list reads back as `i + 1` |
| Jef.JefHead | Creabroderie/embroidery_export.py:181-202 | the head is 116 bytes plus four per colour |
| Jef.JefHeadLayout | Creabroderie/embroidery_export.py:181-202 | the head holds `k`, `n`, `128 + 4k` (12 more than its own length), `w, h, w, h`, zeros up to 116, then `1..k` as u32 |
| Jef.JefRecordBytes | Creabroderie/embroidery_export.py:207-219 | a record fails, with ValueError, exactly for a JUMP with a negative clamped delta; NORMAL writes two signed bytes; JUMP writes `0x80, dx, dy`; COLOR_CHANGE writes `0x7C`; TRIM and END write nothing |
| Jef.JefStreamSuccess | Creabroderie/embroidery_export.py:205-231 | the stream succeeds exactly when no JUMP moves by a negative clamped delta, and otherwise fails with ValueError |
| Jef.JefStreamLength | Creabroderie/embroidery_export.py:205-222 | a successful stream is `2·#NORMAL + 3·#JUMP + #COLOR_CHANGE` bytes long |
| Jef.JefStreamFailureSticks | Creabroderie/embroidery_export.py:205-231 | once a record fails, the export fails with that error, whatever follows |
| Jef.JefStreamSnoc | Creabroderie/embroidery_export.py:205-222 | each point appends its record or turns the stream into its failure, and moves the accumulator one clamped step |
| Jef.JefSuccess | Creabroderie/embroidery_export.py:178-231 | the export succeeds exactly when the header fields fit and no JUMP is negative; the file is then the head, the stream and `0x7F` |
| Jef.WriteHead | Creabroderie/embroidery_export.py:181-202 | the header writes succeed exactly when every field fits its format and yield the head; otherwise they raise StructError |
| Jef.WriteColorList | Creabroderie/embroidery_export.py:201-202 | the colour loop yields the colour list |
| Jef.WriteRecord | Creabroderie/embroidery_export.py:207-222 | one pass of the stitch loop writes the point's record or fails, and moves `(last_x, last_y)` one clamped step |
| Jef.WriteStitches | Creabroderie/embroidery_export.py:205-222 | the stitch loop yields the stream or the first failure |
| Jef.Export | Creabroderie/embroidery_export.py:178-231 | `JefExporter.export` yields the JEF file or its failure |
| Tessellate.RingAt | Creabroderie/debug.py:930-934 | the ring holds one NORMAL point per index `i`, at angle `2πi/n` |
| Tessellate.CircleShape | Creabroderie/debug.py:919-942 | an oval gives `n` NORMAL points and an END point on the first, all of the given colour; it raises ValueError without four coordinates and IndexError when `n <= 0` |
| Tessellate.ClosedRing | Creabroderie/debug.py:919-942 | the oval's stitches are the ring followed by an END stitch on its first point |
| Tessellate.WalkRing | Creabroderie/debug.py:927-934 | the `for` loop yields the ring, or nothing when `n <= 0` |
| Tessellate.CircleToStitches | Creabroderie/debug.py:919-942 | `_circle_to_stitches` yields the oval's stitches or its exception |
| Tessellate.RowCountExact | Creabroderie/debug.py:950-955 | row `k` is stitched exactly when `y1 + k/density <= y2` |
| Tessellate.RowsLength | Creabroderie/debug.py:955-966 | `k` rows give `2k` stitches |
| Tessellate.RowAt | Creabroderie/debug.py:955-966 | stitches `2j` and `2j+1` are row `j`'s pair, at height `y1 + j·spacing` |
| Tessellate.RowsAt | Creabroderie/debug.py:955-966 | every row's pair sits at positions `2j` and `2j+1` |
| Tessellate.RowsKinds | Creabroderie/debug.py:956-963 | every rectangle stitch is NORMAL and of the given colour |
| Tessellate.RowsShape | Creabroderie/debug.py:953-966 | both stitches of row `j` are at height `y1 + j·spacing`; even rows go from x1 to x2 and odd rows back |
| Tessellate.RowsContinuous | Creabroderie/debug.py:956-966 | each row starts at the x where the previous row ended |
| Tessellate.NextRows | Creabroderie/debug.py:955-966 | one more pass of the loop appends the next row's pair, and `y += spacing` reaches the next row's height |
| Tessellate.RectangleShape | Creabroderie/debug.py:944-968 | a rectangle needs four coordinates, else ValueError; it gives two stitches per row, and the rows stop at the first height past y2 |
| Tessellate.AppendRow | Creabroderie/debug.py:956-963 | one row appends its pair in the order `direction` gives |
| Tessellate.RectangleToStitches | Creabroderie/debug.py:944-968 | `_rectangle_to_stitches` yields the rows or ValueError |
| Tessellate.TextPoints | Creabroderie/debug.py:970-977 | text gives exactly one NORMAL stitch at `(x/10, y/10)` of the given colour, and ValueError without two coordinates |
| Drawing.IndexOf | Creabroderie/debug.py:885 | `list.index` gives the first position holding the fill |
| Drawing.PaletteStep | Creabroderie/debug.py:881-885 | one more item appends its fill when it counts and is new, and otherwise leaves the palette alone |
| Drawing.PaletteDistinct | Creabroderie/debug.py:883-884 | no fill appears twice in the palette |
| Drawing.PaletteMembers | Creabroderie/debug.py:871-884 | a fill is in the palette exactly when some non-grid item has it, whether or not that item gives stitches |
| Drawing.PalettePrefix | Creabroderie/debug.py:883-885 | the palette of a prefix of the canvas is a prefix of the palette |
| Drawing.ColorIndexStable | Creabroderie/debug.py:883-885 | the colour index an item gets during the loop is the position of its fill in the final palette |
| Drawing.TessellatedStitches | Creabroderie/debug.py:888-894 | every tessellator gives stitches of the colour it was passed, all NORMAL or END |
| Drawing.ShapePointsInPalette | Creabroderie/debug.py:871-897 | every shape stitch refers to a palette entry and is NORMAL or END |
| Drawing.TessellateItem | Creabroderie/debug.py:888-894 | the dispatch on the item type calls the oval, rectangle or text tessellator, or gives nothing |
| Drawing.MeasureSize | Creabroderie/debug.py:903-909 | the size is the bounding box at ten pixels per millimetre, or 100 x 100 without one |
| Drawing.ConvertToEmbroidery | Creabroderie/debug.py:865-917 | the loop yields the palette, the shape stitches (or the padding point), the size and the hoop |
| Drawing.DesignShape | Creabroderie/debug.py:899-917 | the design always has a stitch; an empty drawing gives exactly the origin point; every stitch is NORMAL or END and refers to a palette entry when shapes gave any |
| Drawing.ConvertedJefHeaderOnly | Creabroderie/debug.py:865-917 | a converted design has no JUMP, so its JEF export fails only when a header field does not fit |
| Drawing.ConvertedPesSucceeds | Creabroderie/debug.py:865-917 | with `#rrggbb` fills, at most 255 colours and a size that fits, the PES export of a converted design succeeds |
| Drawing.ExportToFormat | Creabroderie/debug.py:979-992 | "pes" goes to the PES encoder, "dst" to DST, and any other name to JEF |
| Drawing.ExportOutcome | Creabroderie/debug.py:979-992 | DST never fails; PES and JEF succeed under exactly their encoders' conditions |
| Undo.SavedShape | Creabroderie/debug.py:350-386 | saving keeps the snapshots up to the cursor, then appends; only a full history loses its oldest snapshot; the length stays at most 50 |
| Undo.SaveThenUndo | Creabroderie/debug.py:380-413 | an undo right after a save shows the snapshot that was current before it, also when the oldest was dropped |
| Undo.History.constructor | Creabroderie/debug.py:37-40 | a new history is empty with the cursor at -1 |
| Undo.History.SaveState | Creabroderie/debug.py:350-386 | `save_state` leaves the saved list with the cursor on the new snapshot, and keeps `-1 <= current_step < len(history) <= 50` |
| Undo.History.Undo | Creabroderie/debug.py:409-413 | `undo` moves the cursor back only when it is above 0, restores that snapshot and leaves the list unchanged |
| Undo.History.Redo | Creabroderie/debug.py:415-419 | `redo` moves the cursor forward only when it is before the last snapshot, restores that snapshot and leaves the list unchanged |
| Undo.History.NewDesign | Creabroderie/debug.py:1101-1106 | a confirmed new design empties the history and puts the cursor at -1; a refused one changes nothing |

## Left out

- File I/O. `open`, `seek`, `tell` and `write` are not modelled, nor is the partial file left behind when an exception fires mid-write. An encoder gives the bytes it would write, or the exception it would report as `False`. The `print` of the error message is also left out.
- Floating point. Coordinates and sizes are exact reals, and `int(x * 10)` is truncation toward zero of the exact product. IEEE rounding before the truncation is not modelled.
- Tessellate.RectangleToStitches: the row heights are the exact `y1 + j / density`. The float drift of the repeated `y += spacing`, which can change the row count by one, is not modelled.
- Tessellate.RectangleToStitches: requires `density > 0`, because the export dialog offers only 1.0 to 3.0 (Creabroderie/debug.py:212-215). A negative density would never end the loop.
- Drawing.ConvertToEmbroidery: requires `density > 0` for the same reason.
- `math.cos` and `math.sin` are uninterpreted function parameters. The oval properties are about structure, not exact positions. `math.pi` is its printed value, 3.141592653589793, as an exact real.
- The Tk canvas is not modelled. Its items are an input sequence of kind, coordinates, fill and grid flag. `canvas.bbox('all')` is an input.
- HexColor.ParseHex: models `int(s, 16)` on the at most two characters a colour slice gives. Only the ASCII whitespace `int()` skips (space, tab to carriage return) and ASCII digits are recognised. Python also skips non-ASCII whitespace such as 0x85 and 0xA0 and accepts non-ASCII digits, and those make the model fail where Python would not.
- Dst.DstHeaderLayout: requires a count of at most 25 digits, so that the `ST:` field fits its 28-byte slot.
- Dst.DstFileLayout: requires fewer than a million stitches, where the count field is nine bytes.
- Undo: a snapshot is an opaque type parameter. What `save_state` reads from the canvas, and how `restore_state` redraws it, are not modelled; `Undo` and `Redo` return the snapshot they would restore.
- Undo.History.NewDesign: the confirmation dialog is a boolean parameter. Clearing the canvas and redrawing the grid are not modelled.
- The rest of the Tk interface is not part of this model: menus, toolbar, export dialog, selection, drag and resize, z-order, copy and paste, text panel and grid. Creabroderie/thread_management.py (the SQLite thread database and its panel) is not part of this model either.
