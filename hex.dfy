/** The PES colour record: `int(color[1:3], 16)`, `int(color[3:5], 16)`,
    `int(color[5:7], 16)` packed with `struct.pack('BBB', r, g, b)`
    (Creabroderie/embroidery_export.py:65-70). Python's `int(s, 16)` is
    modelled on the strings of at most two characters those slices give. */
module HexColor {
  import opened Bytes
  import opened Stitch

  /** `s[i:j]` for 0 <= i <= j: the indices are cut down to the length. */
  function PySlice(s: string, i: nat, j: nat): (r: string)
    requires i <= j
    ensures |r| == if j <= |s| then j - i else if i <= |s| then |s| - i else 0
    ensures forall k | 0 <= k < |r| :: r[k] == s[i + k]
  {
    if j <= |s| then s[i..j] else if i <= |s| then s[i..] else []
  }

  /** The ASCII characters `int()` skips around a number: tab to carriage
      return, and space. (The separators 0x1C-0x1F, which `str.isspace()`
      accepts, are not among them: `int()` rejects them.) */
  predicate IsPyWhitespace(c: char)
  {
    c as int == 32 || 9 <= c as int <= 13
  }

  predicate IsHexDigit(c: char)
  {
    '0' <= c <= '9' || 'a' <= c <= 'f' || 'A' <= c <= 'F'
  }

  function HexDigitValue(c: char): (v: nat)
    requires IsHexDigit(c)
    ensures v < 16
  {
    if '0' <= c <= '9' then c as int - '0' as int
    else if 'a' <= c <= 'f' then c as int - 'a' as int + 10
    else c as int - 'A' as int + 10
  }

  predicate AllHexDigits(s: string)
  {
    forall i | 0 <= i < |s| :: IsHexDigit(s[i])
  }

  /** The value of a string of hex digits, most significant first. */
  function HexValue(s: string): nat
    requires AllHexDigits(s)
  {
    if s == [] then 0 else 16 * HexValue(s[..|s| - 1]) + HexDigitValue(s[|s| - 1])
  }

  /** One hex digit is below 16, two are below 256. */
  lemma HexValueBound(s: string)
    requires AllHexDigits(s) && |s| <= 2
    ensures |s| <= 1 ==> HexValue(s) < 16
    ensures HexValue(s) < 256
  {
    if |s| == 2 {
      assert s[..1][..0] == [];
    } else if |s| == 1 {
      assert s[..0] == [];
    }
  }

  /** The whitespace `int()` ignores, removed from both ends. */
  function Strip(s: string): (t: string)
    ensures |t| <= |s|
    decreases |s|
  {
    if s != [] && IsPyWhitespace(s[0]) then Strip(s[1..])
    else if s != [] && IsPyWhitespace(s[|s| - 1]) then Strip(s[..|s| - 1])
    else s
  }

  /** `int(s, 16)` for a string of at most two characters: surrounding
      whitespace is dropped, then an optional sign and at least one hex
      digit must remain; anything else raises ValueError. (A `0x` prefix or
      an underscore needs a third character to be accepted.) */
  function ParseHex(s: string): (r: Result<int>)
    requires |s| <= 2
    ensures r.Success? ==> -15 <= r.value <= 255
  {
    var t := Strip(s);
    if t == [] then Failure(ValueError)
    else if t[0] == '+' || t[0] == '-' then
      var digits := t[1..];
      if digits != [] && AllHexDigits(digits) then
        HexValueBound(digits);
        Success(if t[0] == '-' then -(HexValue(digits) as int) else HexValue(digits))
      else Failure(ValueError)
    else if AllHexDigits(t) then
      HexValueBound(t);
      Success(HexValue(t))
    else Failure(ValueError)
  }

  /** What `str.strip()` leaves has no whitespace at either end. */
  lemma {:induction false} StripEnds(s: string)
    ensures var t := Strip(s);
      t != [] ==> !IsPyWhitespace(t[0]) && !IsPyWhitespace(t[|t| - 1])
    decreases |s|
  {
    if s != [] && IsPyWhitespace(s[0]) {
      StripEnds(s[1..]);
    } else if s != [] && IsPyWhitespace(s[|s| - 1]) {
      StripEnds(s[..|s| - 1]);
    }
  }

  /** A failed `int(s, 16)` raises ValueError; a string of one or two hex
      digits reads as its value. */
  lemma ParseHexDigits(s: string)
    requires |s| <= 2
    ensures ParseHex(s).Failure? ==> ParseHex(s).error == ValueError
    ensures AllHexDigits(s) && s != [] ==> ParseHex(s) == Success(HexValue(s))
  {
    if AllHexDigits(s) && s != [] {
      assert Strip(s) == s;
      assert |s| == 2 ==> (s[..1][..0] == [] && HexValue(s[..1]) == HexDigitValue(s[0]));
      assert |s| == 1 ==> s[..0] == [];
    }
  }

  /** The three bytes one palette entry contributes to the PES section:
      ValueError when a slice is not a hex number, StructError when one is
      negative (`struct.pack('B')` refuses it). */
  function ColorRgb(color: string): (r: Result<seq<byte>>)
    ensures r.Success? ==> |r.value| == 3
    ensures r.Success? ==> |color| >= 6
  {
    var r := ParseHex(PySlice(color, 1, 3));
    var g := ParseHex(PySlice(color, 3, 5));
    var b := ParseHex(PySlice(color, 5, 7));
    if r.Failure? || g.Failure? || b.Failure? then Failure(ValueError)
    else if r.value < 0 || g.value < 0 || b.value < 0 then Failure(StructError)
    else Success([r.value, g.value, b.value])
  }

  /** A `#rrggbb` string, the form the colour chooser produces. */
  predicate IsHexColor(color: string)
  {
    |color| == 7 && color[0] == '#' && AllHexDigits(color[1..])
  }

  function HexPair(c1: char, c2: char): (v: byte)
    requires IsHexDigit(c1) && IsHexDigit(c2)
  {
    16 * HexDigitValue(c1) + HexDigitValue(c2)
  }

  /** Two hex digits read as the byte they spell. */
  lemma HexPairParses(c1: char, c2: char)
    requires IsHexDigit(c1) && IsHexDigit(c2)
    ensures ParseHex([c1, c2]) == Success(HexPair(c1, c2) as int)
  {
    var s := [c1, c2];
    ParseHexDigits(s);
    assert s[..1] == [c1] && s[..1][..0] == [];
    assert HexValue(s[..1]) == HexDigitValue(c1);
  }

  /** A `#rrggbb` fill gives its three channels, each read from its two digits. */
  lemma HexColorChannels(color: string)
    requires IsHexColor(color)
    ensures ColorRgb(color) == Success([HexPair(color[1], color[2]), HexPair(color[3], color[4]), HexPair(color[5], color[6])])
  {
    forall k | 1 <= k < 7 ensures IsHexDigit(color[k]) {
      assert color[1..][k - 1] == color[k];
    }
    assert PySlice(color, 1, 3) == [color[1], color[2]];
    assert PySlice(color, 3, 5) == [color[3], color[4]];
    assert PySlice(color, 5, 7) == [color[5], color[6]];
    HexPairParses(color[1], color[2]);
    HexPairParses(color[3], color[4]);
    HexPairParses(color[5], color[6]);
  }

  /** A file separator (0x1C) before a digit is not whitespace to `int()`:
      the slice does not parse. */
  lemma SeparatorRejected()
    ensures ParseHex([28 as char, '1']) == Failure(ValueError)
  {
    var s := [28 as char, '1'];
    assert Strip(s) == s;
    assert !IsHexDigit(s[0]);
  }

  /** A Tk colour name such as `white` (the fill of the selection handles)
      is not a hex number: the export fails with ValueError. */
  lemma NamedColorFails()
    ensures ColorRgb("white") == Failure(ValueError)
  {
    var s := PySlice("white", 1, 3);
    assert s == ['h', 'i'];
    assert !IsHexDigit(s[0]);
    assert Strip(s) == s;
    assert ParseHex(s).Failure?;
  }
}
