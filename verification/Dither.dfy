/**
 Floyd-Steinberg dithering (`dither.ts`) over real numbers: the source's `Float64` rounding is idealised away,
 everything else, thresholds, shares and edges included, is the source's.
 */
module Dither {

  const INK_THRESHOLD := 128.0

  /** How far a decision falls from the tone that was wanted: ink is 0, paper is 255. */
  function Error(wanted: real): real {
    if wanted < INK_THRESHOLD then wanted else wanted - 255.0
  }

  /** `s` sixteenths of an error. */
  function Part(e: real, s: nat): real { e * (s as real) / 16.0 }

  predicate HasRight(k: nat, width: nat)
    requires width > 0
  {
    (k + 1) % width != 0
  }

  predicate HasLeft(k: nat, width: nat)
    requires width > 0
  {
    k % width != 0
  }

  predicate HasBelow(k: nat, width: nat, n: nat) { k + width < n }

  /** How many sixteenths of pixel `k`'s error cell `p` is handed. */
  function Share(k: nat, p: int, width: nat, n: nat): nat
    requires width > 0
  {
    (if HasRight(k, width) && p == k + 1 then 7 else 0)
    + (if HasBelow(k, width, n) && HasLeft(k, width) && p == k + width - 1 then 3 else 0)
    + (if HasBelow(k, width, n) && p == k + width then 5 else 0)
    + (if HasBelow(k, width, n) && HasRight(k, width) && p == k + width + 1 then 1 else 0)
  }

  /** Pixel `k` decided: every cell gains its share of the error. */
  function Diffused(grey: seq<real>, k: nat, width: nat): (r: seq<real>)
    requires width > 0 && k < |grey|
    ensures |r| == |grey|
  {
    var e := Error(grey[k]);
    seq(|grey|, p requires 0 <= p < |grey| => grey[p] + Part(e, Share(k, p, width, |grey|)))
  }

  /** The luminances after the first `k` pixels, in row-major order, are decided. */
  function GreyAfter(grey: seq<real>, width: nat, k: nat): (r: seq<real>)
    requires width > 0 && k <= |grey|
    ensures |r| == |grey|
  {
    if k == 0 then grey else Diffused(GreyAfter(grey, width, k - 1), k - 1, width)
  }

  /** What pixel `k` was when its turn came, and what was decided. */
  function Wanted(grey: seq<real>, width: nat, k: nat): real
    requires width > 0 && k < |grey|
  {
    GreyAfter(grey, width, k)[k]
  }

  predicate Inked(grey: seq<real>, width: nat, k: nat)
    requires width > 0 && k < |grey|
  {
    Wanted(grey, width, k) < INK_THRESHOLD
  }

  predicate Luminances(grey: seq<real>) {
    forall i :: 0 <= i < |grey| ==> 0.0 <= grey[i] <= 255.0
  }

  // ---------------------------------------------------------------- a decided pixel is never revised

  lemma SharesGoForward(k: nat, p: int, width: nat, n: nat)
    requires width > 0 && p <= k
    ensures Share(k, p, width, n) == 0
  {
  }

  lemma {:induction false} DecidedIsFinal(grey: seq<real>, width: nat, p: nat, k: nat)
    requires width > 0 && p < k <= |grey|
    ensures GreyAfter(grey, width, k)[p] == Wanted(grey, width, p)
  {
    SharesGoForward(k - 1, p, width, |grey|);
    if p + 1 >= k {
    } else {
      DecidedIsFinal(grey, width, p, k - 1);
    }
  }

  // ---------------------------------------------------------------- the error stays bounded

  /** How many sixteenths cell `p` has been handed after `k` pixels. */
  function Received(p: nat, k: nat, width: nat, n: nat): nat
    requires width > 0
  {
    if k == 0 then 0 else Received(p, k - 1, width, n) + Share(k - 1, p, width, n)
  }

  /** Four neighbours hand on 7, 3, 5 and 1 sixteenths, each once: no cell receives more than one whole error. */
  lemma {:induction false} ReceivesAtMostOne(p: nat, k: nat, width: nat, n: nat)
    requires width > 0
    ensures Received(p, k, width, n) <=
      (if p - 1 < k then 7 else 0) + (if p - width + 1 < k then 3 else 0)
      + (if p - width < k then 5 else 0) + (if p - width - 1 < k then 1 else 0)
  {
    if k == 0 {
    } else {
      ReceivesAtMostOne(p, k - 1, width, n);
    }
  }

  ghost predicate CellBounded(grey: seq<real>, width: nat, k: nat, p: nat)
    requires width > 0 && k <= |grey| && p < |grey|
  {
    var r := Received(p, k, width, |grey|);
    var g := GreyAfter(grey, width, k)[p];
    && grey[p] + Part(-127.0, r) <= g <= grey[p] + Part(128.0, r)
    && (r > 0 ==> g < grey[p] + Part(128.0, r))
  }

  ghost predicate ErrorBounded(grey: seq<real>, width: nat, k: nat)
    requires width > 0 && k < |grey|
  {
    -127.0 <= Error(Wanted(grey, width, k)) < 128.0
  }

  lemma BoundedCellBoundsError(grey: seq<real>, width: nat, k: nat)
    requires width > 0 && k < |grey| && Luminances(grey) && CellBounded(grey, width, k, k)
    ensures ErrorBounded(grey, width, k)
  {
    ReceivesAtMostOne(k, k, width, |grey|);
  }

  lemma CellStep(grey: seq<real>, width: nat, k: nat, p: nat)
    requires width > 0 && k < |grey| && p < |grey|
    requires CellBounded(grey, width, k, p) && ErrorBounded(grey, width, k)
    ensures CellBounded(grey, width, k + 1, p)
  {
    var before := GreyAfter(grey, width, k);
    var s := Share(k, p, width, |grey|);
    assert GreyAfter(grey, width, k + 1)[p] == before[p] + Part(Error(before[k]), s);
    assert Received(p, k + 1, width, |grey|) == Received(p, k, width, |grey|) + s;
    PartBound(Error(before[k]), s);
    Together(-127.0, Received(p, k, width, |grey|), s);
    Together(128.0, Received(p, k, width, |grey|), s);
    hide Part, Share, Diffused;
  }

  lemma PartBound(e: real, s: nat)
    requires -127.0 <= e < 128.0
    ensures Part(-127.0, s) <= Part(e, s) <= Part(128.0, s)
    ensures s > 0 ==> Part(e, s) < Part(128.0, s)
  {
    var r := s as real;
    assert (e + 127.0) * r >= 0.0;
    assert (128.0 - e) * r >= 0.0;
    if s > 0 {
      assert (128.0 - e) * r > 0.0;
    }
  }

  lemma Together(e: real, s: nat, t: nat)
    ensures Part(e, s) + Part(e, t) == Part(e, s + t)
  {
    assert e * (s as real) + e * (t as real) == e * ((s + t) as real);
  }

  lemma {:induction false} CellsBounded(grey: seq<real>, width: nat, k: nat)
    requires width > 0 && k <= |grey| && Luminances(grey)
    ensures forall p :: 0 <= p < |grey| ==> CellBounded(grey, width, k, p)
    ensures forall j :: 0 <= j < k ==> ErrorBounded(grey, width, j)
  {
    if k == 0 {
    } else {
      CellsBounded(grey, width, k - 1);
      BoundedCellBoundsError(grey, width, k - 1);
      forall p | 0 <= p < |grey| ensures CellBounded(grey, width, k, p) {
        CellStep(grey, width, k - 1, p);
      }
    }
  }

  // ---------------------------------------------------------------- tone is conserved, up to the edges

  function Sum(grey: seq<real>, from: nat): real
    requires from <= |grey|
    decreases |grey| - from
  {
    if from == |grey| then 0.0 else grey[from] + Sum(grey, from + 1)
  }

  /** How many of the first `k` dots were left as paper. */
  function Paper(grey: seq<real>, width: nat, k: nat): nat
    requires width > 0 && k <= |grey|
  {
    if k == 0 then 0 else Paper(grey, width, k - 1) + (if Inked(grey, width, k - 1) then 0 else 1)
  }

  /** How many sixteenths of pixel `k`'s error no cell is left to take. */
  function Dropped(k: nat, width: nat, n: nat): nat
    requires width > 0
  {
    (if HasRight(k, width) then 0 else 7)
    + (if !HasBelow(k, width, n) then 9
       else (if HasLeft(k, width) then 0 else 3) + (if HasRight(k, width) then 0 else 1))
  }

  /** The error that fell off the edges while the first `k` pixels were decided. */
  function Lost(grey: seq<real>, width: nat, k: nat): real
    requires width > 0 && k <= |grey|
  {
    if k == 0 then 0.0
    else Lost(grey, width, k - 1) + Part(Error(Wanted(grey, width, k - 1)), Dropped(k - 1, width, |grey|))
  }

  function ShareSum(k: nat, from: nat, width: nat, n: nat): nat
    requires width > 0 && from <= n
    decreases n - from
  {
    if from == n then 0 else Share(k, from, width, n) + ShareSum(k, from + 1, width, n)
  }

  predicate Grid(n: nat, width: nat) { width > 0 && n % width == 0 }

  /** In a grid of whole rows the neighbours to the right are inside it. */
  lemma NeighboursInside(k: nat, width: nat, n: nat)
    requires Grid(n, width) && k < n
    ensures HasRight(k, width) ==> k + 1 < n
    ensures HasRight(k, width) && HasBelow(k, width, n) ==> k + width + 1 < n
    ensures !HasRight(k, width) && !HasLeft(k, width) ==> width == 1
  {
    if k + width + 1 == n {
      assert n - width == k + 1;
      RowBack(n, width);
    }
    if !HasRight(k, width) && !HasLeft(k, width) {
      ConsecutiveMultiples(k, width);
    }
  }

  lemma RowBack(n: nat, width: nat)
    requires width > 0 && n % width == 0 && n >= width
    ensures (n - width) % width == 0
  {
    var q := n / width;
    assert n - width == (q - 1) * width;
    MultipleOf(q - 1, width);
  }

  lemma MultipleOf(q: nat, width: nat)
    requires width > 0
    ensures (q * width) % width == 0
  {
    Remainder(q * width, q, 0, width);
  }

  lemma Remainder(a: nat, q: nat, r: nat, width: nat)
    requires width > 0 && a == q * width + r && r < width
    ensures a / width == q && a % width == r
  {
    OneQuotient(a / width, a % width, q, r, width);
  }

  lemma OneQuotient(q: int, r: int, q': int, r': int, width: int)
    requires q * width + r == q' * width + r' && 0 <= r < width && 0 <= r' < width
    ensures q == q' && r == r'
  {
    assert (q - q') * width == r' - r;
    if q > q' {
      Whole(q - q', width);
    } else if q < q' {
      Whole(q' - q, width);
    }
  }

  lemma Whole(m: int, width: int)
    requires m >= 1 && width > 0
    ensures m * width >= width
  {
    assert (m - 1) * width >= 0;
  }

  lemma ConsecutiveMultiples(k: nat, width: nat)
    requires width > 0 && k % width == 0 && (k + 1) % width == 0
    ensures width == 1
  {
    if width > 1 {
      Remainder(k + 1, k / width, 1, width);
    }
  }

  /** Everything not dropped is handed to some cell. */
  lemma SharesAddUp(k: nat, width: nat, n: nat)
    requires Grid(n, width) && k < n
    ensures ShareSum(k, k + 1, width, n) + Dropped(k, width, n) == 16
  {
    NeighboursInside(k, width, n);
    ShareSumIs(k, k + 1, width, n);
  }

  /** The shares from a cell onwards, counted neighbour by neighbour. */
  lemma {:induction false} ShareSumIs(k: nat, from: nat, width: nat, n: nat)
    requires Grid(n, width) && k < from <= n
    ensures ShareSum(k, from, width, n) ==
      (if HasRight(k, width) && from <= k + 1 < n then 7 else 0)
      + (if HasBelow(k, width, n) && HasLeft(k, width) && from <= k + width - 1 < n then 3 else 0)
      + (if HasBelow(k, width, n) && from <= k + width < n then 5 else 0)
      + (if HasBelow(k, width, n) && HasRight(k, width) && from <= k + width + 1 < n then 1 else 0)
    decreases n - from
  {
    if from >= n {
    } else {
      ShareSumIs(k, from + 1, width, n);
    }
  }

  lemma {:induction false} SumDiffused(grey: seq<real>, k: nat, width: nat, from: nat)
    requires width > 0 && k < |grey| && from <= |grey|
    ensures Sum(Diffused(grey, k, width), from)
              == Sum(grey, from) + Part(Error(grey[k]), ShareSum(k, from, width, |grey|))
    decreases |grey| - from
  {
    if from >= |grey| {
    } else {
      SumDiffused(grey, k, width, from + 1);
      var s, t := Share(k, from, width, |grey|), ShareSum(k, from + 1, width, |grey|);
      assert Diffused(grey, k, width)[from] == grey[from] + Part(Error(grey[k]), s);
      hide Error, Share, Diffused, Part;
      Together(Error(grey[k]), s, t);
    }
  }

  /** One pixel: its tone becomes its dot, its neighbours' gain and what falls off. */
  lemma ToneStep(grey: seq<real>, width: nat, k: nat)
    requires Grid(|grey|, width) && k < |grey|
    ensures Sum(GreyAfter(grey, width, k), k) == (if Inked(grey, width, k) then 0.0 else 255.0)
      + Sum(GreyAfter(grey, width, k + 1), k + 1) + Part(Error(Wanted(grey, width, k)), Dropped(k, width, |grey|))
  {
    var before := GreyAfter(grey, width, k);
    SumDiffused(before, k, width, k + 1);
    SharesAddUp(k, width, |grey|);
    var s, d := ShareSum(k, k + 1, width, |grey|), Dropped(k, width, |grey|);
    var e := Error(before[k]);
    assert Sum(before, k) == before[k] + Sum(before, k + 1);
    assert GreyAfter(grey, width, k + 1) == Diffused(before, k, width);
    assert Part(e, 16) == e;
    hide ShareSum, Dropped, Diffused, HasRight, HasLeft, HasBelow, Part, GreyAfter, Sum;
    Together(e, s, d);
  }

  /** Conservation: paper, what is still to be decided, and what fell off the edges add up to the image's tone. */
  lemma {:induction false} ToneIsConserved(grey: seq<real>, width: nat, k: nat)
    requires Grid(|grey|, width) && k <= |grey|
    ensures Sum(grey, 0) == PaperTone(Paper(grey, width, k)) + Sum(GreyAfter(grey, width, k), k) + Lost(grey, width, k)
  {
    if k == 0 {
    } else {
      ToneIsConserved(grey, width, k - 1);
      ToneStep(grey, width, k - 1);
      OneMorePaper(Paper(grey, width, k - 1));
      hide Sum, Dropped, Part, Error, GreyAfter, Inked, Wanted, Grid, PaperTone;
    }
  }

  function PaperTone(dots: nat): real { 255.0 * (dots as real) }

  lemma OneMorePaper(dots: nat)
    ensures PaperTone(dots + 1) == PaperTone(dots) + 255.0
  {
  }

  // ---------------------------------------------------------------- how much the edges can take

  function DroppedUpTo(k: nat, width: nat, n: nat): nat
    requires width > 0
  {
    if k == 0 then 0 else DroppedUpTo(k - 1, width, n) + Dropped(k - 1, width, n)
  }

  lemma {:induction false} LostIsBounded(grey: seq<real>, width: nat, k: nat)
    requires Grid(|grey|, width) && k <= |grey| && Luminances(grey)
    ensures Part(-128.0, DroppedUpTo(k, width, |grey|)) <= Lost(grey, width, k) <= Part(128.0, DroppedUpTo(k, width, |grey|))
  {
    if k == 0 {
    } else {
      LostIsBounded(grey, width, k - 1);
      CellsBounded(grey, width, k);
      assert ErrorBounded(grey, width, k - 1);
      var d := Dropped(k - 1, width, |grey|);
      PartBound(Error(Wanted(grey, width, k - 1)), d);
      assert Part(-128.0, d) <= Part(-127.0, d);
      hide Part, Dropped, Error, Wanted;
      Together(-128.0, DroppedUpTo(k - 1, width, |grey|), d);
      Together(128.0, DroppedUpTo(k - 1, width, |grey|), d);
    }
  }

  /** Row by row: 11 sixteenths off each row's ends, 9 off the bottom under each pixel of the last, 7 off its end. */
  lemma {:induction false} DroppedByRows(y: nat, x: nat, width: nat, height: nat)
    requires width > 0 && y < height && x <= width
    ensures DroppedUpTo(y * width + x, width, width * height) ==
      11 * y + (if y + 1 < height then (if x > 0 then 3 else 0) + (if x == width then 8 else 0)
                else 9 * x + (if x == width then 7 else 0))
    decreases y, x
  {
    if x == 0 && y == 0 {
    } else if x > 0 {
      DroppedByRows(y, x - 1, width, height);
      DroppedAt(y, x - 1, width, height);
    } else {
      DroppedByRows(y - 1, width, width, height);
      assert (y - 1) * width + width == y * width;
    }
  }

  lemma DroppedAt(y: nat, x: nat, width: nat, height: nat)
    requires x < width && y < height
    ensures DroppedUpTo(y * width + x + 1, width, width * height) == DroppedUpTo(y * width + x, width, width * height) +
      if y + 1 < height then (if x == 0 then 3 else 0) + (if x + 1 == width then 8 else 0)
      else 9 + (if x + 1 == width then 7 else 0)
  {
    PixelEdges(y, x, width, height);
    hide DroppedUpTo, HasLeft, HasRight, HasBelow;
    OneMoreDropped(y * width + x, width, width * height);
  }

  lemma OneMoreDropped(k: nat, width: nat, n: nat)
    requires width > 0 && k < n
    ensures DroppedUpTo(k + 1, width, n) == DroppedUpTo(k, width, n) + Dropped(k, width, n)
  {
  }

  /** A pixel's neighbours by row and column, as the scan tests them, are those its index says. */
  lemma PixelEdges(y: nat, x: nat, width: nat, height: nat)
    requires x < width && y < height
    ensures var k := y * width + x;
      && k < width * height
      && (HasLeft(k, width) <==> x > 0) && (HasRight(k, width) <==> x + 1 < width)
      && (HasBelow(k, width, width * height) <==> y + 1 < height)
  {
    var k := y * width + x;
    Remainder(k, y, x, width);
    if x + 1 < width {
      Remainder(k + 1, y, x + 1, width);
    } else {
      assert k + 1 == (y + 1) * width;
      MultipleOf(y + 1, width);
    }
    RowsFit(y, x, width, height);
  }

  lemma RowsFit(y: nat, x: nat, width: nat, height: nat)
    requires x < width && y < height
    ensures y * width + x < width * height
    ensures y * width + x + width < width * height <==> y + 1 < height
  {
    assert y * width + width == (y + 1) * width;
    if y + 1 < height {
      RowsAbove(y, width, height);
    } else {
      assert width * height == (y + 1) * width;
    }
  }

  lemma RowsAbove(y: nat, width: nat, height: nat)
    requires y + 1 < height
    ensures y * width + 2 * width <= width * height
  {
    assert (height - y - 2) * width >= 0;
    assert width * height == y * width + 2 * width + (height - y - 2) * width;
  }

  lemma DroppedAltogether(width: nat, height: nat)
    requires width > 0 && height > 0
    ensures DroppedUpTo(width * height, width, width * height) == 11 * (height - 1) + 9 * (width - 1) + 16
  {
    DroppedByRows(height - 1, width, width, height);
    assert (height - 1) * width + width == width * height;
  }

  /**
   The printed dots carry the image's tone: 255 for each paper dot is within a bound that grows with the edges
   alone, for every image of every size.
   */
  lemma PrintedToneIsClose(grey: seq<real>, width: nat, height: nat)
    requires width > 0 && height > 0 && |grey| == width * height && Luminances(grey)
    ensures var off := PaperTone(Paper(grey, width, |grey|)) - Sum(grey, 0);
      var bound := (88 * (height - 1) + 72 * (width - 1) + 128) as real;
      -bound <= off <= bound
  {
    var n := |grey|;
    WholeRows(width, height);
    ToneIsConserved(grey, width, n);
    LostIsBounded(grey, width, n);
    DroppedAltogether(width, height);
    NothingLeft(GreyAfter(grey, width, n));
    EdgeBound(DroppedUpTo(n, width, n), width, height);
    hide *;
  }

  lemma WholeRows(width: nat, height: nat)
    requires width > 0
    ensures Grid(width * height, width)
  {
    MultipleOf(height, width);
    assert height * width == width * height;
  }

  lemma EdgeBound(d: nat, width: nat, height: nat)
    requires width > 0 && height > 0 && d == 11 * (height - 1) + 9 * (width - 1) + 16
    ensures var bound := (88 * (height - 1) + 72 * (width - 1) + 128) as real;
      Part(128.0, d) == bound && Part(-128.0, d) == -bound
  {
    assert 8 * d == 88 * (height - 1) + 72 * (width - 1) + 128;
  }

  lemma NothingLeft(grey: seq<real>)
    ensures Sum(grey, |grey|) == 0.0
  {
  }
}
