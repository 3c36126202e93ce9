/**
 * The pure parts of `lib/export/pptxTemplate.ts`: bullet clamping, colour
 * validation, font-size choice, layout repair, and reading an image's
 * dimensions from the header of its decoded bytes.
 *
 * The image reader follows the PNG image header (IHDR: width and height as
 * big-endian 32-bit integers at bytes 16 to 23, section 11.2.2 of ISO/IEC
 * 15948) and the JPEG baseline and progressive frame headers (SOF0, SOF2:
 * height then width as big-endian 16-bit integers, section B.2.2 of ITU-T
 * T.81). Base64 decoding of the data URI is not modelled: the reader takes
 * the decoded bytes.
 */
module PptxTemplate {
  import opened Wrappers
  import opened Text
  import opened Js
  import opened SlideTypes
  import SlidesArtifact

  const PptxBulletLimit: nat := 10

  // ---------------------------------------------------------------------
  // clampBullets
  // ---------------------------------------------------------------------

  /** `xs.map((x) => x.trim())`. */
  function TrimAll(xs: seq<string>): (r: seq<string>)
    ensures |r| == |xs|
    ensures forall i :: 0 <= i < |xs| ==> r[i] == Trim(xs[i])
  {
    seq(|xs|, i requires 0 <= i < |xs| => Trim(xs[i]))
  }

  /** `xs.filter(Boolean)` on strings: the non-empty ones, in order. */
  function FilterNonEmpty(xs: seq<string>): (r: seq<string>)
    ensures |r| <= |xs|
    ensures forall i :: 0 <= i < |r| ==> r[i] != ""
  {
    if xs == [] then [] else (if xs[0] == "" then [] else [xs[0]]) + FilterNonEmpty(xs[1..])
  }

  /** `clampBullets` of the export: every entry as text, trimmed, the empty ones dropped, at most ten. */
  function ClampBullets(bullets: Option<Value>): (r: seq<string>)
    ensures !IsArray(bullets) ==> r == []
    ensures |r| <= PptxBulletLimit
    ensures forall i :: 0 <= i < |r| ==> r[i] != ""
  {
    if !IsArray(bullets) then []
    else Take(FilterNonEmpty(TrimAll(SlidesArtifact.BulletTexts(bullets.value.items))), PptxBulletLimit)
  }

  /** Every exported bullet is already trimmed. */
  lemma ClampBulletsTrimmed(bullets: Option<Value>)
    ensures forall i :: 0 <= i < |ClampBullets(bullets)| ==> Trim(ClampBullets(bullets)[i]) == ClampBullets(bullets)[i]
  {
    if IsArray(bullets) {
      var t := TrimAll(SlidesArtifact.BulletTexts(bullets.value.items));
      FilterNonEmptyMembers(t);
      forall x | x in t ensures Trim(x) == x {
        var i :| 0 <= i < |t| && t[i] == x;
        TrimIdempotent(SlidesArtifact.BulletTexts(bullets.value.items)[i]);
      }
      var r := ClampBullets(bullets);
      assert forall i :: 0 <= i < |r| ==> r[i] in FilterNonEmpty(t);
    }
  }

  lemma {:induction false} FilterNonEmptyMembers(xs: seq<string>)
    ensures forall x :: x in FilterNonEmpty(xs) ==> x in xs
  {
    if xs != [] {
      FilterNonEmptyMembers(xs[1..]);
    }
  }

  /** Trimming and then dropping the empty entries is dropping the blank ones and then trimming. */
  lemma {:induction false} FilterTrimmed(xs: seq<string>)
    ensures FilterNonEmpty(TrimAll(xs)) == TrimAll(FilterNonBlank(xs))
  {
    if xs != [] {
      FilterTrimmed(xs[1..]);
      var h := if IsBlank(xs[0]) then [] else [xs[0]];
      TrimAllAppend([xs[0]], xs[1..]);
      assert [xs[0]] + xs[1..] == xs;
      FilterNonEmptyCons(Trim(xs[0]), TrimAll(xs[1..]));
      TrimAllAppend(h, FilterNonBlank(xs[1..]));
    }
  }

  lemma TrimAllAppend(a: seq<string>, b: seq<string>)
    ensures TrimAll(a + b) == TrimAll(a) + TrimAll(b)
  {
  }

  lemma FilterNonEmptyCons(x: string, xs: seq<string>)
    ensures FilterNonEmpty([x] + xs) == (if x == "" then [] else [x]) + FilterNonEmpty(xs)
  {
    assert ([x] + xs)[1..] == xs;
  }

  /**
   * The export keeps, trimmed and up to ten of them, exactly the bullets the slide normaliser keeps:
   * the entries whose text is not blank.
   */
  lemma ClampBulletsOfKept(bullets: Option<Value>)
    ensures ClampBullets(bullets) == Take(TrimAll(SlidesArtifact.KeptBullets(bullets)), PptxBulletLimit)
  {
    if IsArray(bullets) {
      FilterTrimmed(SlidesArtifact.BulletTexts(bullets.value.items));
    }
  }

  /** A stored slide's bullets, non-blank and at most ten, all reach the export, trimmed. */
  lemma ClampStoredBullets(b: seq<string>)
    requires |b| <= PptxBulletLimit
    requires forall i :: 0 <= i < |b| ==> !IsBlank(b[i])
    ensures ClampBullets(Some(StrList(b))) == TrimAll(b)
  {
    ClampBulletsOfKept(Some(StrList(b)));
    SlidesArtifact.BulletTextsOfStrList(b);
    FilterNonBlankKeepsClean(b);
  }

  // ---------------------------------------------------------------------
  // hex
  // ---------------------------------------------------------------------

  predicate IsHexDigit(c: char) {
    ('0' <= c <= '9') || ('a' <= c <= 'f') || ('A' <= c <= 'F')
  }

  /** `/^[0-9a-fA-F]{6}$/`. */
  predicate IsHex6(v: string) {
    |v| == 6 && forall i :: 0 <= i < 6 ==> IsHexDigit(v[i])
  }

  /** `s.startsWith("#") ? s.slice(1) : s`. */
  function StripHash(s: string): (r: string)
    ensures |s| > 0 && s[0] == '#' ==> r == s[1..]
    ensures !(|s| > 0 && s[0] == '#') ==> r == s
  {
    if StartsWith(s, "#") then s[1..] else s
  }

  /** `hex`: the six hex digits of a colour, with or without '#', around white space; else the fallback. */
  function Hex(input: Option<string>, fallback: string): (r: string)
    ensures r == fallback || IsHex6(r)
    ensures input.Some? && IsHex6(StripHash(Trim(input.value))) ==> r == StripHash(Trim(input.value))
    ensures !(input.Some? && IsHex6(StripHash(Trim(input.value)))) ==> r == fallback
  {
    var s := Trim(if input.Some? then input.value else "");
    var v := StripHash(s);
    if IsHex6(v) then v else fallback
  }

  lemma HexDigitSolid(c: char)
    requires IsHexDigit(c)
    ensures !IsSpace(c) && c != '#'
  {
  }

  /** "#rrggbb" and "rrggbb" both give "rrggbb". */
  lemma HexOfColour(h: string, fallback: string)
    requires IsHex6(h)
    ensures Hex(Some("#" + h), fallback) == h
    ensures Hex(Some(h), fallback) == h
  {
    HexDigitSolid(h[0]);
    HexDigitSolid(h[5]);
    HexPlain(h);
    HexHashed(h);
  }

  lemma HexPlain(h: string)
    requires IsHex6(h) && !IsSpace(h[0]) && !IsSpace(h[5]) && h[0] != '#'
    ensures Trim(h) == h && StripHash(h) == h
  {
    TrimOfTrimmed(h);
  }

  lemma HexHashed(h: string)
    requires IsHex6(h) && !IsSpace(h[5])
    ensures Trim("#" + h) == "#" + h && StripHash("#" + h) == h
  {
    var c := "#" + h;
    assert c[|c| - 1] == h[5];
    TrimOfTrimmed(c);
    assert c[1..] == h;
  }

  /** With a valid fallback the result is always six hex digits, and reading it again gives it back. */
  lemma HexIdempotent(input: Option<string>, fallback: string, fallback2: string)
    requires IsHex6(fallback)
    ensures IsHex6(Hex(input, fallback))
    ensures Hex(Some(Hex(input, fallback)), fallback2) == Hex(input, fallback)
  {
    HexOfColour(Hex(input, fallback), fallback2);
  }

  // ---------------------------------------------------------------------
  // fitFontSizeByLength
  // ---------------------------------------------------------------------

  function Max(a: int, b: int): int {
    if a >= b then a else b
  }

  /** `fitFontSizeByLength`: the base size up to 24 characters, 4 and 8 points smaller up to 45 and 70, else the minimum. */
  function FitFontSize(text: string, base: int, min: int): (r: int)
    ensures |text| <= 24 ==> r == base
    ensures 24 < |text| <= 45 ==> r == Max(min, base - 4)
    ensures 45 < |text| <= 70 ==> r == Max(min, base - 8)
    ensures 70 < |text| ==> r == min
  {
    var n := |text|;
    if n <= 24 then base
    else if n <= 45 then Max(min, base - 4)
    else if n <= 70 then Max(min, base - 8)
    else min
  }

  /** The size lies between the minimum and the base, and a longer text never gets a larger size. */
  lemma FitFontSizeBounds(t1: string, t2: string, base: int, min: int)
    requires min <= base
    ensures min <= FitFontSize(t1, base, min) <= base
    ensures |t1| <= |t2| ==> FitFontSize(t2, base, min) <= FitFontSize(t1, base, min)
  {
  }

  // ---------------------------------------------------------------------
  // normalizeLayoutForExport
  // ---------------------------------------------------------------------

  /** `!!(s?.imageData && s.imageData.startsWith("data:"))`, for a string image. */
  predicate HasImageData(s: Option<Value>) {
    var d := StrOf(Get(s, "imageData"));
    d.Some? && StartsWith(d.value, "data:")
  }

  /** `(s?.layout as string) || "text-left"`. */
  function LayoutValue(s: Option<Value>): Value {
    if Truthy(Get(s, "layout")) then Get(s, "layout").value else Str("text-left")
  }

  /** `normalizeLayoutForExport`: one of the three layouts; a full image only with image data. */
  function NormalizeLayoutForExport(s: Option<Value>): (r: Layout)
    ensures r == FullImage <==> LayoutValue(s) == Str("full-image") && HasImageData(s)
    ensures r == ImageLeft <==> LayoutValue(s) == Str("image-left")
  {
    var layout := LayoutValue(s);
    if layout == Str("full-image") && !HasImageData(s) then TextLeft
    else if layout == Str("image-left") then ImageLeft
    else if layout == Str("text-left") then TextLeft
    else if layout == Str("full-image") then FullImage
    else TextLeft
  }

  /** The export's repair agrees with the store's layout check: an unknown layout, or a full image without data, becomes "text-left". */
  lemma ExportLayoutOfParsed(s: Option<Value>)
    ensures ParseLayout(Get(s, "layout")).None? ==> NormalizeLayoutForExport(s) == TextLeft
    ensures ParseLayout(Get(s, "layout")) == Some(FullImage) && !HasImageData(s) ==> NormalizeLayoutForExport(s) == TextLeft
    ensures ParseLayout(Get(s, "layout")).Some? && (ParseLayout(Get(s, "layout")) != Some(FullImage) || HasImageData(s)) ==>
      NormalizeLayoutForExport(s) == ParseLayout(Get(s, "layout")).value
  {
    var v := Get(s, "layout");
    if ParseLayout(v).Some? {
      assert Truthy(v);
    }
    assert "image-left" != "full-image" by { assert "image-left"[0] != "full-image"[0]; }
    assert "text-left" != "full-image" by { assert "text-left"[0] != "full-image"[0]; }
    assert "text-left" != "image-left" by { assert "text-left"[0] != "image-left"[0]; }
  }

  // ---------------------------------------------------------------------
  // getImageSizeFromDataUri, on the decoded bytes
  // ---------------------------------------------------------------------

  newtype byte = x: int | 0 <= x < 256

  const PngMagic: nat := 0x89504E47
  const JpegMarker: byte := 0xFF
  const JpegSoi: byte := 0xD8
  const Sof0: byte := 0xC0
  const Sof2: byte := 0xC2

  datatype Size = Size(w: nat, h: nat)

  /** `buf.readUInt32BE(k)`. */
  function U32(b: seq<byte>, k: nat): nat
    requires k + 4 <= |b|
  {
    ((b[k] as nat * 256 + b[k + 1] as nat) * 256 + b[k + 2] as nat) * 256 + b[k + 3] as nat
  }

  /** `buf.readUInt16BE(k)`. */
  function U16(b: seq<byte>, k: nat): nat
    requires k + 2 <= |b|
  {
    b[k] as nat * 256 + b[k + 1] as nat
  }

  /** The PNG branch: more than 24 bytes, the signature's first four bytes, and a width and height that are not zero. */
  function PngSize(b: seq<byte>): (r: Option<Size>)
    ensures r.Some? ==> |b| > 24 && U32(b, 0) == PngMagic && r.value == Size(U32(b, 16), U32(b, 20))
    ensures r.Some? ==> r.value.w > 0 && r.value.h > 0
  {
    if |b| > 24 && U32(b, 0) == PngMagic then
      var w := U32(b, 16);
      var h := U32(b, 20);
      if w > 0 && h > 0 then Some(Size(w, h)) else None
    else None
  }

  /** The JPEG marker scan from position i: what the loop returns when it reaches i. */
  function JpegScan(b: seq<byte>, i: nat): (r: Option<Size>)
    ensures r.Some? ==> r.value.w > 0 && r.value.h > 0
    decreases |b| - i
  {
    if i + 9 >= |b| then None
    else if b[i] != JpegMarker then JpegScan(b, i + 1)
    else
      var marker := b[i + 1];
      var len := U16(b, i + 2);
      if marker == Sof0 || marker == Sof2 then
        var h := U16(b, i + 5);
        var w := U16(b, i + 7);
        if w > 0 && h > 0 then Some(Size(w, h)) else None
      else if len == 0 then None
      else JpegScan(b, i + 2 + len)
  }

  /** A JPEG starts with the start-of-image marker FF D8. */
  predicate JpegStart(b: seq<byte>) {
    |b| > 4 && b[0] == JpegMarker && b[1] == JpegSoi
  }

  /** What `getImageSizeFromDataUri` returns for the decoded bytes. */
  function ImageSize(b: seq<byte>): (r: Option<Size>)
    ensures r.Some? ==> r.value.w > 0 && r.value.h > 0
    ensures r.Some? ==> PngSize(b).Some? || JpegStart(b)
  {
    if PngSize(b).Some? then PngSize(b)
    else if JpegStart(b) then JpegScan(b, 2)
    else None
  }

  /** The reader, with the scan loop of the source. */
  method GetImageSize(buf: array<byte>) returns (r: Option<Size>)
    ensures r == ImageSize(buf[..])
  {
    var b := buf[..];
    if buf.Length > 24 && U32(b, 0) == PngMagic {
      var w := U32(b, 16);
      var h := U32(b, 20);
      if w > 0 && h > 0 {
        return Some(Size(w, h));
      }
    }
    if buf.Length > 4 && buf[0] == JpegMarker && buf[1] == JpegSoi {
      var i: nat := 2;
      while i + 9 < buf.Length
        invariant JpegScan(b, i) == JpegScan(b, 2)
        decreases buf.Length - i
      {
        if buf[i] != JpegMarker {
          i := i + 1;
          continue;
        }
        var marker := buf[i + 1];
        var len := U16(b, i + 2);
        if marker == Sof0 || marker == Sof2 {
          var h := U16(b, i + 5);
          var w := U16(b, i + 7);
          if w > 0 && h > 0 {
            return Some(Size(w, h));
          }
          return None;
        }
        if len == 0 {
          break;
        }
        i := i + 2 + len;
      }
    }
    return None;
  }

  /** A size is found only at a frame header: FF then C0 or C2 at some i with i + 9 in range, height at i+5 and width at i+7, neither zero. */
  lemma {:induction false} JpegScanFound(b: seq<byte>, k: nat)
    ensures JpegScan(b, k).Some? ==>
      exists i: nat :: k <= i && i + 9 < |b| && b[i] == JpegMarker && (b[i + 1] == Sof0 || b[i + 1] == Sof2)
        && JpegScan(b, k).value == Size(U16(b, i + 7), U16(b, i + 5))
        && U16(b, i + 7) > 0 && U16(b, i + 5) > 0
    decreases |b| - k
  {
    if k + 9 < |b| {
      if b[k] != JpegMarker {
        JpegScanFound(b, k + 1);
      } else if !(b[k + 1] == Sof0 || b[k + 1] == Sof2) && U16(b, k + 2) != 0 {
        JpegScanFound(b, k + 2 + U16(b, k + 2));
      }
    }
  }

  /** No size is ever zero: a zero dimension gives null. */
  lemma ImageSizePositive(b: seq<byte>)
    ensures ImageSize(b).Some? ==> ImageSize(b).value.w > 0 && ImageSize(b).value.h > 0
  {
    JpegScanFound(b, 2);
  }

  /** Big-endian bytes of a 32-bit value. */
  function BE32(x: nat): (r: seq<byte>)
    requires x < 0x1_0000_0000
    ensures |r| == 4
  {
    var q1 := x / 256;
    var q2 := q1 / 256;
    [(q2 / 256) as byte, (q2 % 256) as byte, (q1 % 256) as byte, (x % 256) as byte]
  }

  function BE16(x: nat): (r: seq<byte>)
    requires x < 0x1_0000
    ensures |r| == 2
  {
    [(x / 256) as byte, (x % 256) as byte]
  }

  lemma U32OfBE32(pre: seq<byte>, x: nat, post: seq<byte>)
    requires x < 0x1_0000_0000
    ensures U32(pre + BE32(x) + post, |pre|) == x
  {
    var b := pre + BE32(x) + post;
    assert b[|pre|..|pre| + 4] == BE32(x);
    BE32Value(x);
  }

  lemma BE32Value(x: nat)
    requires x < 0x1_0000_0000
    ensures U32(BE32(x), 0) == x
  {
    var q1 := x / 256;
    var q2 := q1 / 256;
    assert x == q1 * 256 + x % 256;
    assert q1 == q2 * 256 + q1 % 256;
    assert q2 == (q2 / 256) * 256 + q2 % 256;
  }

  lemma U16OfBE16(pre: seq<byte>, x: nat, post: seq<byte>)
    requires x < 0x1_0000
    ensures U16(pre + BE16(x) + post, |pre|) == x
  {
    var b := pre + BE16(x) + post;
    assert b[|pre|..|pre| + 2] == BE16(x);
  }

  /** The PNG signature's first eight bytes and an IHDR chunk's length and type. */
  const PngSignature: seq<byte> := [0x89, 0x50, 0x4E, 0x47, 0x0D, 0x0A, 0x1A, 0x0A]
  const IhdrHead: seq<byte> := [0x00, 0x00, 0x00, 0x0D, 0x49, 0x48, 0x44, 0x52]

  /** A PNG file up to the IHDR height, followed by the rest of the file. */
  function PngHeader(w: nat, h: nat, rest: seq<byte>): seq<byte>
    requires w < 0x1_0000_0000 && h < 0x1_0000_0000
  {
    PngSignature + IhdrHead + BE32(w) + BE32(h) + rest
  }

  /** The reader gives back the width and height written into a PNG header. */
  lemma PngRoundTrip(w: nat, h: nat, rest: seq<byte>)
    requires 0 < w < 0x1_0000_0000 && 0 < h < 0x1_0000_0000
    requires rest != []
    ensures ImageSize(PngHeader(w, h, rest)) == Some(Size(w, h))
  {
    var b := PngHeader(w, h, rest);
    assert b == [] + PngSignature[..4] + (PngSignature[4..] + IhdrHead + BE32(w) + BE32(h) + rest);
    assert U32(b, 0) == PngMagic;
    assert b == (PngSignature + IhdrHead) + BE32(w) + (BE32(h) + rest);
    U32OfBE32(PngSignature + IhdrHead, w, BE32(h) + rest);
    assert b == (PngSignature + IhdrHead + BE32(w)) + BE32(h) + rest;
    U32OfBE32(PngSignature + IhdrHead + BE32(w), h, rest);
  }

  /** A JPEG whose first segment is a baseline frame header: FF D8, FF C0, length, precision, height, width. */
  function JpegHeader(w: nat, h: nat, rest: seq<byte>): seq<byte>
    requires w < 0x1_0000 && h < 0x1_0000
  {
    [JpegMarker, JpegSoi, JpegMarker, Sof0, 0x00, 0x11, 0x08] + BE16(h) + BE16(w) + rest
  }

  /** The reader gives back the width and height written into a JPEG frame header. */
  lemma JpegRoundTrip(w: nat, h: nat, rest: seq<byte>)
    requires 0 < w < 0x1_0000 && 0 < h < 0x1_0000
    requires |rest| >= 1
    ensures ImageSize(JpegHeader(w, h, rest)) == Some(Size(w, h))
  {
    var pre: seq<byte> := [JpegMarker, JpegSoi, JpegMarker, Sof0, 0x00, 0x11, 0x08];
    var b := JpegHeader(w, h, rest);
    assert b[0] == 0xFF && b[0..4] == [0xFF, 0xD8, 0xFF, 0xC0];
    assert U32(b, 0) != PngMagic;
    U16OfBE16(pre, h, BE16(w) + rest);
    assert b == pre + BE16(h) + (BE16(w) + rest);
    U16OfBE16(pre + BE16(h), w, rest);
    assert b == (pre + BE16(h)) + BE16(w) + rest;
  }
}
