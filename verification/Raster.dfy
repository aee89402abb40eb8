/**
 From an RGBA bitmap to a printable raster (`dither.ts`), and the height admission that guards it
 (`requireProjectedHeight` of `asset-service.ts`). Decoding and resizing belong to jimp: the decoded bitmap is an
 input and the resize a function the caller names.
 */
module Raster {
  import opened Wrappers
  import opened Dither
  import opened DitherScan

  newtype Channel = x: int | 0 <= x < 256

  const CHANNELS := 4
  const LUMA_RED := 0.2126
  const LUMA_GREEN := 0.7152
  const LUMA_BLUE := 0.0722

  // ---------------------------------------------------------------- flattening onto white

  /** `r` is the whole number nearest the blend of a colour and white, in 255ths of its alpha. No two are. */
  predicate Blended(r: Channel, c: Channel, alpha: Channel) {
    -255 <= 2 * (255 * (r as int) - (c as int * alpha as int + 255 * (255 - alpha as int))) <= 255
  }

  lemma BlendedIsOne(a: Channel, b: Channel, c: Channel, alpha: Channel)
    requires Blended(a, c, alpha) && Blended(b, c, alpha)
    ensures a == b
  {
  }

  /** One colour channel composited onto white: `Math.round` of the blend. */
  function OnPaper(c: Channel, alpha: Channel): (r: Channel)
    ensures c <= r && Blended(r, c, alpha)
    ensures alpha == 0 ==> r == 255
    ensures alpha == 255 ==> r == c
  {
    BlendIsNearest(c as int, alpha as int);
    BlendInside(c as int, alpha as int);
    Blend(c as int, alpha as int).Floor as Channel
  }

  function Blend(c: int, alpha: int): real {
    var a := alpha as real / 255.0;
    c as real * a + 255.0 * (1.0 - a) + 0.5
  }

  lemma BlendInside(c: int, alpha: int)
    requires 0 <= c < 256 && 0 <= alpha < 256
    ensures c <= Blend(c, alpha).Floor < 256
    ensures alpha == 0 ==> Blend(c, alpha).Floor == 255
    ensures alpha == 255 ==> Blend(c, alpha).Floor == c
  {
    var a := alpha as real / 255.0;
    var gap := 255.0 - c as real;
    PartOfGap(gap, 1.0 - a);
    assert Blend(c, alpha) == c as real + gap * (1.0 - a) + 0.5;
    assert (c as real + 0.5).Floor == c;
  }

  lemma BlendIsNearest(c: int, alpha: int)
    requires 0 <= c < 256 && 0 <= alpha < 256
    ensures -255 <= 2 * (255 * Blend(c, alpha).Floor - (c * alpha + 255 * (255 - alpha))) <= 255
  {
    var n := c * alpha + 255 * (255 - alpha);
    BlendIs(c, alpha);
    var r := Blend(c, alpha).Floor;
    assert r as real <= Blend(c, alpha) < r as real + 1.0;
    assert 510.0 * (r as real) <= 2.0 * (n as real) + 255.0 < 510.0 * (r as real) + 510.0;
    assert (510 * r) as real == 510.0 * (r as real) && (2 * n) as real == 2.0 * (n as real);
  }

  lemma BlendIs(c: int, alpha: int)
    ensures 510.0 * Blend(c, alpha) == 2.0 * ((c * alpha + 255 * (255 - alpha)) as real) + 255.0
  {
    var a := alpha as real;
    assert 510.0 * (c as real * (a / 255.0)) == 2.0 * (c as real * a);
    assert (c * alpha) as real == c as real * a;
  }

  lemma PartOfGap(gap: real, share: real)
    requires 0.0 <= gap && 0.0 <= share <= 1.0
    ensures 0.0 <= gap * share <= gap
  {
    assert gap * share + gap * (1.0 - share) == gap;
  }

  /** Where the alpha of channel `i`'s pixel is. */
  function AlphaOf(i: nat): nat { i / CHANNELS * CHANNELS + 3 }

  function FlatChannel(data: seq<Channel>, i: nat): Channel
    requires |data| % CHANNELS == 0 && i < |data|
  {
    if i % CHANNELS == 3 then 255 else OnPaper(data[i], data[AlphaOf(i)])
  }

  /** The flattened bitmap: every pixel opaque, every colour blended by its pixel's alpha. */
  function Flattened(data: seq<Channel>): (r: seq<Channel>)
    requires |data| % CHANNELS == 0
    ensures |r| == |data|
  {
    seq(|data|, i requires 0 <= i < |data| => FlatChannel(data, i))
  }

  /** What flattening promises: a pixel is opaque, and each colour the nearest to its blend by the pixel's own alpha. */
  predicate PixelIsFlat(flat: seq<Channel>, data: seq<Channel>, at: nat) {
    && |flat| == |data| && at + 4 <= |data| && flat[at + 3] == 255
    && Blended(flat[at], data[at], data[at + 3]) && Blended(flat[at + 1], data[at + 1], data[at + 3])
    && Blended(flat[at + 2], data[at + 2], data[at + 3])
  }

  ghost predicate IsFlat(flat: seq<Channel>, data: seq<Channel>) {
    |flat| == |data| && forall at :: 0 <= at < |data| && at % 4 == 0 ==> PixelIsFlat(flat, data, at)
  }

  lemma FlattenedIsFlat(data: seq<Channel>)
    requires |data| % CHANNELS == 0
    ensures IsFlat(Flattened(data), data)
  {
    hide Flattened, Blended, IsFlat;
    forall at | 0 <= at < |data| && at % CHANNELS == 0 ensures PixelIsFlat(Flattened(data), data, at) {
      FlatPixel(data, at);
    }
    hide PixelIsFlat;
    PixelsAreFlat(Flattened(data), data);
  }

  lemma PixelsAreFlat(flat: seq<Channel>, data: seq<Channel>)
    requires |data| % CHANNELS == 0 && |flat| == |data|
    requires forall at :: 0 <= at < |data| && at % CHANNELS == 0 ==> PixelIsFlat(flat, data, at)
    ensures IsFlat(flat, data)
  {
    hide PixelIsFlat;
  }

  /** One pixel at a time: its three colours blended by its own alpha, and opaque. */
  lemma FlatPixel(data: seq<Channel>, at: nat)
    requires |data| % CHANNELS == 0 && at % CHANNELS == 0 && at < |data|
    ensures var f, a := Flattened(data), data[at + 3];
      && at + 4 <= |data| && f[at] == OnPaper(data[at], a) && f[at + 1] == OnPaper(data[at + 1], a)
      && f[at + 2] == OnPaper(data[at + 2], a) && f[at + 3] == 255
      && PixelIsFlat(f, data, at)
  {
    hide OnPaper;
    assert AlphaOf(at) == AlphaOf(at + 1) == AlphaOf(at + 2) == at + 3;
  }

  /** `flattenOntoWhite`: in place, skipping the pixels already opaque. */
  method FlattenOntoWhite(data: array<Channel>)
    requires data.Length % CHANNELS == 0
    modifies data
    ensures data[..] == Flattened(old(data[..])) && IsFlat(data[..], old(data[..]))
  {
    hide Flattened, IsFlat;
    var at := 0;
    ghost var was := data[..];
    while at < data.Length
      invariant at % CHANNELS == 0 && at <= data.Length
      invariant data[..] == Flattened(was)[..at] + was[at..]
    {
      FlattenPixel(data, at, was);
      at := at + CHANNELS;
    }
    FlattenedIsFlat(was);
  }

  method FlattenPixel(data: array<Channel>, at: nat, ghost was: seq<Channel>)
    requires data.Length % CHANNELS == 0 && at % CHANNELS == 0 && at < data.Length == |was|
    requires data[..] == Flattened(was)[..at] + was[at..]
    modifies data
    ensures at + 4 <= data.Length
    ensures data[..] == Flattened(was)[..at + 4] + was[at + 4..]
  {
    hide Flattened, OnPaper;
    FlatPixel(was, at);
    ghost var before := data[..];
    assert before[at] == was[at] && before[at + 1] == was[at + 1] && before[at + 2] == was[at + 2]
      && before[at + 3] == was[at + 3];
    var alpha := data[at + 3];
    if alpha == 255 {
      Opaque(was[at]);
      Opaque(was[at + 1]);
      Opaque(was[at + 2]);
    } else {
      data[at] := OnPaper(data[at], alpha);
      data[at + 1] := OnPaper(data[at + 1], alpha);
      data[at + 2] := OnPaper(data[at + 2], alpha);
      data[at + 3] := 255;
    }
    assert data[..] == Flattened(was)[..at]
      + [Flattened(was)[at], Flattened(was)[at + 1], Flattened(was)[at + 2], Flattened(was)[at + 3]] + was[at + 4..];
  }

  lemma Opaque(c: Channel)
    ensures OnPaper(c, 255) == c
  {
  }

  lemma AlphaPlace(i: nat, n: nat)
    requires i < n && n % CHANNELS == 0
    ensures AlphaOf(i) % CHANNELS == 3 && AlphaOf(i) < n
  {
  }

  /** Flattening is done once and for all. */
  lemma FlattenedTwice(data: seq<Channel>)
    requires |data| % CHANNELS == 0
    ensures Flattened(Flattened(data)) == Flattened(data)
  {
    var f := Flattened(data);
    forall i | 0 <= i < |data| ensures Flattened(f)[i] == f[i] {
      AlphaPlace(i, |data|);
      assert f[AlphaOf(i)] == FlatChannel(data, AlphaOf(i)) == 255;
      Opaque(f[i]);
      hide OnPaper, AlphaOf;
    }
  }

  // ---------------------------------------------------------------- luminance

  function Luma(r: Channel, g: Channel, b: Channel): (l: real)
    ensures 0.0 <= l <= 255.0
    ensures r == g == b == 255 ==> l == 255.0
  {
    LUMA_RED * (r as real) + LUMA_GREEN * (g as real) + LUMA_BLUE * (b as real)
  }

  function Greys(data: seq<Channel>): (grey: seq<real>)
    ensures |grey| == |data| / CHANNELS
    ensures Luminances(grey)
  {
    seq(|data| / CHANNELS, p requires 0 <= p < |data| / CHANNELS =>
      Luma(data[CHANNELS * p], data[CHANNELS * p + 1], data[CHANNELS * p + 2]))
  }

  method Luminance(data: array<Channel>) returns (grey: array<real>)
    ensures fresh(grey) && grey[..] == Greys(data[..])
    ensures forall p :: 0 <= p < grey.Length ==>
      10000.0 * grey[p] == (2126 * data[4 * p] as int + 7152 * data[4 * p + 1] as int + 722 * data[4 * p + 2] as int) as real
  {
    grey := new real[data.Length / CHANNELS];
    for pixel := 0 to grey.Length
      invariant forall p :: 0 <= p < pixel ==> grey[p] == Greys(data[..])[p]
      invariant data[..] == old(data[..])
    {
      var at := pixel * CHANNELS;
      grey[pixel] := LUMA_RED * (data[at] as real) + LUMA_GREEN * (data[at + 1] as real) + LUMA_BLUE * (data[at + 2] as real);
    }
  }

  /** What hides behind a fully transparent pixel never darkens the print: its tone is paper's. */
  lemma TransparentIsPaper(data: seq<Channel>, p: nat)
    requires |data| % CHANNELS == 0 && CHANNELS * p + 3 < |data| && data[CHANNELS * p + 3] == 0
    ensures Greys(Flattened(data))[p] == 255.0
  {
    var at := CHANNELS * p;
    FlatPixel(data, at);
    assert OnPaper(data[at], 0) == OnPaper(data[at + 1], 0) == OnPaper(data[at + 2], 0) == 255;
    hide Flattened, OnPaper;
  }

  // ---------------------------------------------------------------- how tall it comes out

  const MAX_HEIGHT_DOTS := 65535
  const MAX_PAPER_DOTS := 3060

  /** `Math.round(height * targetDots / width)`: to the nearest, halves up. */
  function ProjectedHeightDots(width: nat, height: nat, targetDots: nat): (dots: nat)
    requires width > 0
    ensures 2 * height * targetDots - width < 2 * dots * width <= 2 * height * targetDots + width
  {
    var n := 2 * height * targetDots + width;
    assert n == n / (2 * width) * (2 * width) + n % (2 * width);
    n / (2 * width)
  }

  predicate TooTall(width: nat, height: nat, targetDots: nat)
    requires width > 0
  {
    ProjectedHeightDots(width, height, targetDots) > MAX_HEIGHT_DOTS
  }

  /** The admission every stored image passed: measured at the widest paper an install can have. */
  predicate Admitted(width: nat, height: nat)
    requires width > 0
  {
    !TooTall(width, height, MAX_PAPER_DOTS)
  }

  /** Exactly when a width is refused, without a rounding in sight. */
  lemma TooTallFrom(width: nat, height: nat, dots: nat)
    requires width > 0
    ensures TooTall(width, height, dots) <==> 2 * height * dots >= 131071 * width
  {
    var p := ProjectedHeightDots(width, height, dots);
    if p > MAX_HEIGHT_DOTS {
      assert 2 * (p - 65536) * width >= 0;
      assert 2 * p * width == 2 * (p - 65536) * width + 131072 * width;
    } else {
      assert 2 * (65535 - p) * width >= 0;
      assert 2 * p * width == 131070 * width - 2 * (65535 - p) * width;
    }
  }

  /** One admission covers every narrower paper: a wider one is refused wherever a narrower one is. */
  lemma TooTallGrows(width: nat, height: nat, narrow: nat, wide: nat)
    requires width > 0 && narrow <= wide && TooTall(width, height, narrow)
    ensures TooTall(width, height, wide)
  {
    TooTallFrom(width, height, narrow);
    TooTallFrom(width, height, wide);
    assert 2 * height * wide == 2 * height * narrow + 2 * height * (wide - narrow);
    assert height * (wide - narrow) >= 0;
    hide TooTall;
  }

  /**
   The comment beside the widest paper promises more: that what it refuses every narrower paper would refuse. It
   does not: this strip is turned away at the gate though 384 dots would print it.
   */
  lemma RefusedThoughItWouldPrint()
    ensures !Admitted(1, 100) && !TooTall(1, 100, 384)
  {
  }

  // ---------------------------------------------------------------- the whole way

  datatype Bitmap = Bitmap(width: nat, height: nat, data: seq<Channel>) {
    predicate Whole() {
      width > 0 && |data| == CHANNELS * (width * height)
    }
  }

  datatype Printable = Printable(widthDots: nat, heightDots: nat, packed: seq<bv8>)

  datatype Refusal = RangeError | Undecodable | TooTallAt(dots: nat)

  /** What jimp's resize promises: a whole bitmap of the width asked for, its height rounded as the projection is. */
  ghost predicate Resizes(resize: (Bitmap, nat) -> Bitmap) {
    forall b: Bitmap, dots: nat :: b.Whole() && dots > 0 ==>
      && resize(b, dots).Whole() && resize(b, dots).width == dots
      && resize(b, dots).height == ProjectedHeightDots(b.width, b.height, dots)
  }

  /** The printed dots carry the tone: 255 for each paper dot is as near the image's as the edges allow. */
  ghost predicate ToneIsClose(grey: seq<real>, width: nat, height: nat)
    requires width > 0 && |grey| == width * height
  {
    height > 0 ==>
      var off := PaperTone(Paper(grey, width, |grey|)) - Sum(grey, 0);
      var bound := (88 * (height - 1) + 72 * (width - 1) + 128) as real;
      -bound <= off <= bound
  }

  /** A raster whose dots are the decisions of the scan, each within its error bound, and whose paper carries the tone. */
  ghost predicate Prints(r: Printable, tones: Bitmap)
    requires tones.Whole()
  {
    var grey := Greys(tones.data);
    && r.widthDots == tones.width && r.heightDots == tones.height
    && |grey| == r.widthDots * r.heightDots
    && Packs(r.packed, Decisions(grey, r.widthDots), r.widthDots, r.heightDots)
    && (forall k :: 0 <= k < |grey| ==> ErrorBounded(grey, r.widthDots, k))
    && ToneIsClose(grey, r.widthDots, r.heightDots)
  }

  method DitherToRaster(decoded: Result<Bitmap, ()>, targetDots: int, resize: (Bitmap, nat) -> Bitmap)
    returns (r: Result<Printable, Refusal>)
    requires decoded.Ok? ==> decoded.value.Whole()
    requires Resizes(resize)
    ensures targetDots <= 0 <==> r == Err(RangeError)
    ensures targetDots > 0 ==> (decoded.Err? <==> r == Err(Undecodable))
    ensures targetDots > 0 && decoded.Ok? ==> (r.Ok? <==> !TooTall(decoded.value.width, decoded.value.height, targetDots))
    ensures targetDots > 0 && decoded.Ok? && r.Err? ==>
      r.error == TooTallAt(ProjectedHeightDots(decoded.value.width, decoded.value.height, targetDots))
    ensures r.Ok? ==> r.value.widthDots == targetDots && r.value.heightDots <= MAX_HEIGHT_DOTS
    ensures r.Ok? ==> exists flat ::
      && IsFlat(flat, decoded.value.data)
      && var tones := resize(decoded.value.(data := flat), targetDots); tones.Whole() && Prints(r.value, tones)
  {
    if targetDots <= 0 {
      return Err(RangeError);
    }
    if decoded.Err? {
      return Err(Undecodable);
    }
    var image := decoded.value;
    var projected := ProjectedHeightDots(image.width, image.height, targetDots);
    if projected > MAX_HEIGHT_DOTS {
      return Err(TooTallAt(projected));
    }
    var data := new Channel[|image.data|](i requires 0 <= i < |image.data| => image.data[i]);
    assert data[..] == image.data;
    FlattenOntoWhite(data);
    var bitmap := resize(image.(data := data[..]), targetDots);
    var packed := DitherBitmap(bitmap);
    r := Ok(Printable(bitmap.width, bitmap.height, packed));
  }

  method DitherBitmap(bitmap: Bitmap) returns (packed: seq<bv8>)
    requires bitmap.Whole()
    ensures Prints(Printable(bitmap.width, bitmap.height, packed), bitmap)
  {
    hide Greys, Packs, Decisions, ErrorBounded, Luma, Paper, PaperTone, Sum;
    var resized := new Channel[|bitmap.data|](i requires 0 <= i < |bitmap.data| => bitmap.data[i]);
    assert resized[..] == bitmap.data;
    var grey := Luminance(resized);
    ghost var tones := grey[..];
    var bits := FloydSteinberg(grey, bitmap.width, bitmap.height);
    packed := bits[..];
    CellsBounded(tones, bitmap.width, |tones|);
    if bitmap.height > 0 {
      PrintedToneIsClose(tones, bitmap.width, bitmap.height);
    }
  }

  /** An image the gate admitted is printable at every paper an install can configure. */
  lemma AdmittedAlwaysPrints(width: nat, height: nat, dots: nat)
    requires width > 0 && Admitted(width, height) && 0 < dots <= 3060
    ensures !TooTall(width, height, dots)
  {
    if TooTall(width, height, dots) {
      TooTallGrows(width, height, dots, MAX_PAPER_DOTS);
    }
  }
}
