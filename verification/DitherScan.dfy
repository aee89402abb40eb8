/**
 The in-place scan of `dither.ts`: luminances are read and written through one array while bits are packed into
 another. Each loop is proved against the functions of `Dither`, and the packing against its own decoder.
 */
module DitherScan {
  import opened Dither

  // ---------------------------------------------------------------- bits, most significant first

  function Mask(i: nat): bv8
    requires i < 8
  {
    0x80 >> i
  }

  predicate BitSet(b: bv8, i: nat)
    requires i < 8
  {
    b & Mask(i) != 0
  }

  lemma MaskTable()
    ensures Mask(0) == 0x80 && Mask(1) == 0x40 && Mask(2) == 0x20 && Mask(3) == 0x10
    ensures Mask(4) == 0x08 && Mask(5) == 0x04 && Mask(6) == 0x02 && Mask(7) == 0x01
  {
  }

  lemma MasksApart(i: nat, j: nat)
    requires i < j < 8
    ensures Mask(i) & Mask(j) == 0
  {
    MaskTable();
    hide Mask;
    assert j == 1 || j == 2 || j == 3 || j == 4 || j == 5 || j == 6 || j == 7;
    if i == 0 {} else if i == 1 {} else if i == 2 {} else if i == 3 {} else if i == 4 {} else if i == 5 {} else {}
  }

  lemma MaskNotZero(i: nat)
    requires i < 8
    ensures Mask(i) != 0
  {
    MaskTable();
    hide Mask;
    if i == 0 {} else if i == 1 {} else if i == 2 {} else if i == 3 {} else if i == 4 {} else if i == 5 {} else if i == 6 {} else {}
  }

  lemma OrApart(b: bv8, m: bv8, n: bv8)
    requires m & n == 0
    ensures (b | m) & n == b & n
  {
  }

  lemma OrSame(b: bv8, m: bv8)
    ensures (b | m) & m == m
  {
  }

  lemma SettingOneBit(b: bv8, i: nat, j: nat)
    requires i < 8 && j < 8
    ensures BitSet(b | Mask(i), j) <==> i == j || BitSet(b, j)
  {
    MaskNotZero(i);
    if i < j {
      MasksApart(i, j);
    } else if j < i {
      MasksApart(j, i);
    }
    hide Mask;
    if i != j {
      Commutes(Mask(j), Mask(i));
      OrApart(b, Mask(i), Mask(j));
    } else {
      OrSame(b, Mask(i));
    }
  }

  lemma Commutes(m: bv8, n: bv8)
    ensures m & n == n & m
  {
  }

  lemma NoBits(i: nat)
    requires i < 8
    ensures !BitSet(0, i)
  {
    hide Mask;
    AndZero(Mask(i));
  }

  lemma AndZero(m: bv8)
    ensures 0 & m == 0
  {
  }

  // ---------------------------------------------------------------- the packed raster

  function RowBytes(width: nat): (bytes: nat)
    ensures 8 * bytes - 8 < width <= 8 * bytes
  {
    (width + 7) / 8
  }

  /** Where pixel `(x, y)` is among the luminances, and where its dot is among the bytes. */
  function Cell(x: nat, y: nat, width: nat): nat { y * width + x }

  function Byte(x: nat, y: nat, width: nat): nat { y * RowBytes(width) + x / 8 }

  /** Whether dot `x` of row `y` is ink. */
  predicate Dot(packed: seq<bv8>, width: nat, x: nat, y: nat)
    requires Byte(x, y, width) < |packed|
  {
    BitSet(packed[Byte(x, y, width)], x % 8)
  }

  /** What bit `i` of byte `b` stands for once `k` pixels are decided. */
  predicate Want(grey: seq<real>, width: nat, b: nat, i: nat, k: nat)
    requires width > 0 && k <= |grey| && i < 8
  {
    var y, x := b / RowBytes(width), 8 * (b % RowBytes(width)) + i;
    x < width && Cell(x, y, width) < k && Inked(grey, width, Cell(x, y, width))
  }

  ghost predicate PackedUpTo(packed: seq<bv8>, grey: seq<real>, width: nat, k: nat)
    requires width > 0 && k <= |grey|
  {
    forall b, i :: 0 <= b < |packed| && 0 <= i < 8 ==> (BitSet(packed[b], i) <==> Want(grey, width, b, i, k))
  }

  lemma ByteInside(x: nat, y: nat, width: nat, height: nat)
    requires x < 8 * RowBytes(width) && y < height
    ensures var b := Byte(x, y, width);
      b < RowBytes(width) * height && b / RowBytes(width) == y && b % RowBytes(width) == x / 8
  {
    Remainder(Byte(x, y, width), y, x / 8, RowBytes(width));
    RowsFit(y, x / 8, RowBytes(width), height);
  }

  /** Only one bit of the raster stands for a dot. */
  lemma OneBitPerDot(b: nat, i: nat, x: nat, y: nat, width: nat)
    requires width > 0 && i < 8 && x < width
    requires var x', y' := 8 * (b % RowBytes(width)) + i, b / RowBytes(width);
      x' < width && Cell(x', y', width) == Cell(x, y, width)
    ensures b == Byte(x, y, width) && i == x % 8
  {
    var rb := RowBytes(width);
    var x', y' := 8 * (b % rb) + i, b / rb;
    OneQuotient(y', x', y, x, width);
    assert x / 8 == b % rb && x % 8 == i;
    assert b == b / rb * rb + b % rb;
  }

  /** One dot's bit set, if it is to be. */
  function Marked(packed: seq<bv8>, at: nat, j: nat, inked: bool): (r: seq<bv8>)
    requires at < |packed| && j < 8
    ensures |r| == |packed|
  {
    if inked then packed[at := packed[at] | Mask(j)] else packed
  }

  lemma DecidedDot(before: seq<bv8>, after: seq<bv8>, grey: seq<real>, width: nat, height: nat, x: nat, y: nat)
    requires width > 0 && |grey| == width * height && x < width && y < height
    requires |before| == RowBytes(width) * height && Cell(x, y, width) < |grey|
    requires PackedUpTo(before, grey, width, Cell(x, y, width)) && Byte(x, y, width) < |before|
    requires after == Marked(before, Byte(x, y, width), x % 8, Inked(grey, width, Cell(x, y, width)))
    ensures PackedUpTo(after, grey, width, Cell(x, y, width) + 1)
  {
    forall b, i | 0 <= b < |after| && 0 <= i < 8
      ensures BitSet(after[b], i) <==> Want(grey, width, b, i, Cell(x, y, width) + 1)
    {
      DecidedBit(before, after, grey, width, height, x, y, b, i);
    }
  }

  lemma DecidedBit(before: seq<bv8>, after: seq<bv8>, grey: seq<real>, width: nat, height: nat, x: nat, y: nat,
                   b: nat, i: nat)
    requires width > 0 && |grey| == width * height && x < width && y < height
    requires |before| == RowBytes(width) * height && Cell(x, y, width) < |grey|
    requires PackedUpTo(before, grey, width, Cell(x, y, width)) && Byte(x, y, width) < |before|
    requires after == Marked(before, Byte(x, y, width), x % 8, Inked(grey, width, Cell(x, y, width)))
    requires b < |after| && i < 8
    ensures BitSet(after[b], i) <==> Want(grey, width, b, i, Cell(x, y, width) + 1)
  {
    hide *;
    hide BitSet, Mask, Marked, Want, Inked, Byte, Cell, RowBytes, PackedUpTo;
    var at := Byte(x, y, width);
    BitWanted(before, grey, width, Cell(x, y, width), b, i);
    if b == at && i == x % 8 {
      WantTurned(grey, width, height, x, y);
      BitTurned(before, after, at, x % 8, i, Inked(grey, width, Cell(x, y, width)));
    } else {
      WantKept(grey, width, x, y, b, i);
      BitKept(before, after, at, x % 8, b, i, Inked(grey, width, Cell(x, y, width)));
    }
  }

  lemma BitWanted(packed: seq<bv8>, grey: seq<real>, width: nat, k: nat, b: nat, i: nat)
    requires width > 0 && k <= |grey| && PackedUpTo(packed, grey, width, k) && b < |packed| && i < 8
    ensures BitSet(packed[b], i) <==> Want(grey, width, b, i, k)
  {
    hide BitSet, Want;
  }

  lemma WantTurned(grey: seq<real>, width: nat, height: nat, x: nat, y: nat)
    requires width > 0 && |grey| == width * height && x < width && y < height && Cell(x, y, width) < |grey|
    ensures var k := Cell(x, y, width);
      && !Want(grey, width, Byte(x, y, width), x % 8, k)
      && (Want(grey, width, Byte(x, y, width), x % 8, k + 1) <==> Inked(grey, width, k))
  {
    ByteInside(x, y, width, height);
    hide Inked, Byte, Cell;
    assert 8 * (x / 8) + x % 8 == x;
  }

  lemma WantKept(grey: seq<real>, width: nat, x: nat, y: nat, b: nat, i: nat)
    requires width > 0 && x < width && Cell(x, y, width) < |grey| && i < 8
    requires b != Byte(x, y, width) || i != x % 8
    ensures Want(grey, width, b, i, Cell(x, y, width) + 1) <==> Want(grey, width, b, i, Cell(x, y, width))
  {
    hide Inked, Byte, Cell;
    var x', y' := 8 * (b % RowBytes(width)) + i, b / RowBytes(width);
    if x' < width && Cell(x', y', width) == Cell(x, y, width) {
      OneBitPerDot(b, i, x, y, width);
    }
  }

  lemma BitTurned(before: seq<bv8>, after: seq<bv8>, at: nat, j: nat, i: nat, inked: bool)
    requires at < |before| && j < 8 && i == j
    requires after == Marked(before, at, j, inked)
    ensures BitSet(after[at], i) <==> inked || BitSet(before[at], i)
  {
    hide Mask, BitSet;
    SettingOneBit(before[at], j, i);
  }

  lemma BitKept(before: seq<bv8>, after: seq<bv8>, at: nat, j: nat, b: nat, i: nat, inked: bool)
    requires at < |before| && j < 8 && b < |before| && i < 8 && (b != at || i != j)
    requires after == Marked(before, at, j, inked)
    ensures BitSet(after[b], i) <==> BitSet(before[b], i)
  {
    hide Mask, BitSet;
    SettingOneBit(before[at], j, i);
  }

  // ---------------------------------------------------------------- the scan

  function Plus(grey: seq<real>, i: nat, d: real): (r: seq<real>)
    requires i < |grey|
    ensures |r| == |grey| && forall p :: 0 <= p < |grey| ==> r[p] == grey[p] + (if p == i then d else 0.0)
  {
    grey[i := grey[i] + d]
  }

  /** Four additions, each to a cell not yet decided, are the diffusion of one error. */
  function HandedOn(grey: seq<real>, k: nat, width: nat, e: real): (r: seq<real>)
    requires Grid(|grey|, width) && k < |grey|
    ensures |r| == |grey|
  {
    NeighboursInside(k, width, |grey|);
    var g1 := if HasRight(k, width) then Plus(grey, k + 1, Part(e, 7)) else grey;
    var below := HasBelow(k, width, |grey|);
    var g2 := if below && HasLeft(k, width) then Plus(g1, k + width - 1, Part(e, 3)) else g1;
    var g3 := if below then Plus(g2, k + width, Part(e, 5)) else g2;
    if below && HasRight(k, width) then Plus(g3, k + width + 1, Part(e, 1)) else g3
  }

  lemma HandedOnIsDiffused(grey: seq<real>, k: nat, width: nat)
    requires Grid(|grey|, width) && k < |grey|
    ensures HandedOn(grey, k, width, Error(grey[k])) == Diffused(grey, k, width)
  {
    forall p | 0 <= p < |grey|
      ensures HandedOn(grey, k, width, Error(grey[k]))[p] == Diffused(grey, k, width)[p]
    {
      CellGain(grey, k, width, Error(grey[k]), p);
    }
  }

  lemma CellGain(grey: seq<real>, k: nat, width: nat, e: real, p: nat)
    requires Grid(|grey|, width) && k < |grey| && p < |grey|
    ensures HandedOn(grey, k, width, e)[p] == grey[p] + Part(e, Share(k, p, width, |grey|))
  {
    var n := |grey|;
    var below := HasBelow(k, width, n);
    var a := if HasRight(k, width) && p == k + 1 then 7 else 0;
    var b := if below && HasLeft(k, width) && p == k + width - 1 then 3 else 0;
    var c := if below && p == k + width then 5 else 0;
    var d := if below && HasRight(k, width) && p == k + width + 1 then 1 else 0;
    assert Share(k, p, width, n) == a + b + c + d;
    assert Part(e, 0) == 0.0;
    Together(e, a, b);
    Together(e, a + b, c);
    Together(e, a + b + c, d);
    hide Part, Share, HasRight, HasLeft, HasBelow, Grid;
  }

  /** Decides pixel `(x, y)` and hands its error on, in place. */
  method Diffuse(grey: array<real>, x: nat, y: nat, width: nat, height: nat) returns (inked: bool)
    requires x < width && y < height && grey.Length == width * height && y * width + x < grey.Length
    modifies grey
    ensures inked <==> old(grey[y * width + x]) < INK_THRESHOLD
    ensures grey[..] == Diffused(old(grey[..]), y * width + x, width)
  {
    var here := y * width + x;
    PixelEdges(y, x, width, height);
    WholeRows(width, height);
    hide HasLeft, HasRight, HasBelow, Grid, Diffused, HandedOn;
    var wanted := grey[here];
    inked := wanted < INK_THRESHOLD;
    var error := wanted - (if inked then 0.0 else 255.0);
    HandedOnIsDiffused(grey[..], here, width);
    HandOn(grey, here, width, error, x > 0, x + 1 < width, y + 1 < height);
  }

  method HandOn(grey: array<real>, here: nat, width: nat, error: real, hasLeft: bool, hasRight: bool, hasBelow: bool)
    requires Grid(grey.Length, width) && here < grey.Length
    requires hasLeft == HasLeft(here, width) && hasRight == HasRight(here, width)
    requires hasBelow == HasBelow(here, width, grey.Length)
    modifies grey
    ensures grey[..] == HandedOn(old(grey[..]), here, width, error)
  {
    NeighboursInside(here, width, grey.Length);
    ghost var g := grey[..];
    if hasRight {
      AddTo(grey, here + 1, error * 7.0 / 16.0);
    }
    if hasBelow {
      if hasLeft {
        AddTo(grey, here + width - 1, error * 3.0 / 16.0);
      }
      AddTo(grey, here + width, error * 5.0 / 16.0);
      if hasRight {
        AddTo(grey, here + width + 1, error / 16.0);
      }
    }
  }

  method AddTo(grey: array<real>, i: nat, d: real)
    requires i < grey.Length
    modifies grey
    ensures grey[..] == Plus(old(grey[..]), i, d)
  {
    grey[i] := grey[i] + d;
  }

  /** Decides one pixel and packs its dot. */
  method DecideAndPack(grey: array<real>, packed: array<bv8>, ghost original: seq<real>, x: nat, y: nat, width: nat,
                       height: nat)
    requires x < width && y < height && grey.Length == |original| == width * height
    requires packed.Length == RowBytes(width) * height && Cell(x, y, width) < grey.Length
    requires (packed as object) != grey
    requires grey[..] == GreyAfter(original, width, Cell(x, y, width))
    requires PackedUpTo(packed[..], original, width, Cell(x, y, width))
    modifies grey, packed
    ensures grey[..] == GreyAfter(original, width, Cell(x, y, width) + 1)
    ensures PackedUpTo(packed[..], original, width, Cell(x, y, width) + 1)
  {
    ByteInside(x, y, width, height);
    hide PackedUpTo, Want, BitSet, Mask, Diffused, Cell, RowBytes;
    ghost var bits := packed[..];
    var inked := DecideNext(grey, original, x, y, width, height);
    hide GreyAfter, Inked;
    assert packed[..] == bits;
    if inked {
      var at := Byte(x, y, width);
      packed[at] := packed[at] | Mask(x % 8);
      assert packed[..] == bits[at := bits[at] | Mask(x % 8)];
    }
    assert packed[..] == Marked(bits, Byte(x, y, width), x % 8, inked);
    DecidedDot(bits, packed[..], original, width, height, x, y);
  }

  method DecideNext(grey: array<real>, ghost original: seq<real>, x: nat, y: nat, width: nat,
                    height: nat) returns (inked: bool)
    requires x < width && y < height && grey.Length == |original| == width * height && Cell(x, y, width) < grey.Length
    requires grey[..] == GreyAfter(original, width, Cell(x, y, width))
    modifies grey
    ensures grey[..] == GreyAfter(original, width, Cell(x, y, width) + 1)
    ensures inked <==> Inked(original, width, Cell(x, y, width))
  {
    hide Diffused;
    assert grey[Cell(x, y, width)] == grey[..][Cell(x, y, width)];
    inked := Diffuse(grey, x, y, width, height);
  }

  /**
   `floydSteinberg`: consumes the luminances and packs one bit per dot, every row padded with paper to whole
   bytes. A dot is ink exactly when the tone its pixel had by the time the scan reached it was below mid-grey.
   */
  method FloydSteinberg(grey: array<real>, width: nat, height: nat) returns (packed: array<bv8>)
    requires width > 0 && grey.Length == width * height
    modifies grey
    ensures packed.Length == RowBytes(width) * height
    ensures grey[..] == GreyAfter(old(grey[..]), width, width * height)
    ensures Packs(packed[..], Decisions(old(grey[..]), width), width, height)
  {
    hide PackedUpTo, Want, GreyAfter, Inked, Packs, Decisions;
    ghost var original := grey[..];
    packed := new bv8[RowBytes(width) * height](_ => 0);
    NothingPacked(packed[..], original, width);
    NothingDecided(original, width);
    assert 0 * width == 0;
    for y := 0 to height
      invariant y * width <= width * height
      invariant grey[..] == GreyAfter(original, width, y * width)
      invariant PackedUpTo(packed[..], original, width, y * width)
    {
      ScanRow(grey, packed, original, y, width, height);
    }
    assert height * width == width * height;
    BitsAreDecisions(packed[..], original, width, height);
  }

  method ScanRow(grey: array<real>, packed: array<bv8>, ghost original: seq<real>, y: nat, width: nat, height: nat)
    requires width > 0 && y < height && grey.Length == |original| == width * height && y * width <= width * height
    requires packed.Length == RowBytes(width) * height && (packed as object) != grey
    requires grey[..] == GreyAfter(original, width, y * width)
    requires PackedUpTo(packed[..], original, width, y * width)
    modifies grey, packed
    ensures (y + 1) * width <= width * height
    ensures grey[..] == GreyAfter(original, width, (y + 1) * width)
    ensures PackedUpTo(packed[..], original, width, (y + 1) * width)
  {
    hide PackedUpTo, Want, GreyAfter, Inked, RowBytes;
    for x := 0 to width
      invariant y * width + x <= width * height
      invariant grey[..] == GreyAfter(original, width, y * width + x)
      invariant PackedUpTo(packed[..], original, width, y * width + x)
    {
      RowsFit(y, x, width, height);
      DecideAndPack(grey, packed, original, x, y, width, height);
    }
    assert y * width + width == (y + 1) * width;
  }

  lemma NothingDecided(grey: seq<real>, width: nat)
    requires width > 0
    ensures GreyAfter(grey, width, 0) == grey
  {
  }

  lemma NothingPacked(packed: seq<bv8>, grey: seq<real>, width: nat)
    requires width > 0 && forall b :: 0 <= b < |packed| ==> packed[b] == 0
    ensures PackedUpTo(packed, grey, width, 0)
  {
    forall b, i | 0 <= b < |packed| && 0 <= i < 8
      ensures BitSet(packed[b], i) <==> Want(grey, width, b, i, 0)
    {
      NoBits(i);
    }
  }

  // ---------------------------------------------------------------- what the packed bits say

  /** The decisions a scan takes, one per pixel. */
  function Decisions(grey: seq<real>, width: nat): (dots: seq<bool>)
    requires width > 0
    ensures |dots| == |grey|
  {
    seq(|grey|, k requires 0 <= k < |grey| => Inked(grey, width, k))
  }

  /** Bit `(x, y)` is set exactly for an inked dot, and the padding of every row is paper. */
  ghost predicate Packs(packed: seq<bv8>, dots: seq<bool>, width: nat, height: nat)
    requires width > 0 && |dots| == width * height
  {
    && |packed| == RowBytes(width) * height
    && forall x, y :: 0 <= x < 8 * RowBytes(width) && 0 <= y < height ==>
         && Byte(x, y, width) < |packed| && (x < width ==> Cell(x, y, width) < |dots|)
         && (Dot(packed, width, x, y) <==> x < width && dots[Cell(x, y, width)])
  }

  lemma BitsAreDecisions(packed: seq<bv8>, grey: seq<real>, width: nat, height: nat)
    requires width > 0 && |grey| == width * height && |packed| == RowBytes(width) * height
    requires PackedUpTo(packed, grey, width, width * height)
    ensures Packs(packed, Decisions(grey, width), width, height)
  {
    forall x, y | 0 <= x < 8 * RowBytes(width) && 0 <= y < height
      ensures Byte(x, y, width) < |packed| && (x < width ==> Cell(x, y, width) < |grey|)
      ensures Dot(packed, width, x, y) <==> x < width && Decisions(grey, width)[Cell(x, y, width)]
    {
      DotIsDecision(packed, grey, width, height, x, y);
    }
    hide Inked, Dot, Byte, Cell;
  }

  lemma DotIsDecision(packed: seq<bv8>, grey: seq<real>, width: nat, height: nat, x: nat, y: nat)
    requires width > 0 && |grey| == width * height && |packed| == RowBytes(width) * height
    requires PackedUpTo(packed, grey, width, width * height) && x < 8 * RowBytes(width) && y < height
    ensures Byte(x, y, width) < |packed| && (x < width ==> Cell(x, y, width) < |grey|)
    ensures Dot(packed, width, x, y) <==> x < width && Inked(grey, width, Cell(x, y, width))
  {
    ByteInside(x, y, width, height);
    if x < width {
      RowsFit(y, x, width, height);
    }
    hide BitSet, Inked;
    assert 8 * (x / 8) + x % 8 == x;
    assert BitSet(packed[Byte(x, y, width)], x % 8) <==> Want(grey, width, Byte(x, y, width), x % 8, width * height);
  }

  /** What a printer reads: row by row, dot by dot, from each row's bytes. */
  method Decode(packed: seq<bv8>, width: nat, height: nat, ghost dots: seq<bool>) returns (read: seq<bool>)
    requires width > 0 && |dots| == width * height && Packs(packed, dots, width, height)
    ensures read == dots
  {
    hide Dot, Packs;
    read := [];
    for y := 0 to height
      invariant |read| == y * width && y * width <= |dots| && read == dots[..y * width]
    {
      var row := DecodeRow(packed, width, height, y, dots);
      RowEnds(y, width, height);
      assert dots[..(y + 1) * width] == dots[..y * width] + row;
      read := read + row;
    }
    assert height * width == width * height;
    assert dots[..width * height] == dots;
  }

  method DecodeRow(packed: seq<bv8>, width: nat, height: nat, y: nat, ghost dots: seq<bool>) returns (row: seq<bool>)
    requires width > 0 && y < height && |dots| == width * height && Packs(packed, dots, width, height)
    ensures |row| == width && y * width + width <= |dots| && row == dots[y * width..y * width + width]
  {
    hide Dot, Packs;
    RowEnds(y, width, height);
    var start := y * width;
    row := [];
    for x := 0 to width
      invariant |row| == x && forall i :: 0 <= i < x ==> row[i] == dots[start + i]
    {
      PackedDot(packed, dots, width, height, x, y);
      row := row + [Dot(packed, width, x, y)];
    }
  }

  lemma RowEnds(y: nat, width: nat, height: nat)
    requires width > 0 && y < height
    ensures y * width + width == (y + 1) * width <= width * height
  {
    RowsFit(y, width - 1, width, height);
  }

  lemma PackedDot(packed: seq<bv8>, dots: seq<bool>, width: nat, height: nat, x: nat, y: nat)
    requires width > 0 && |dots| == width * height && Packs(packed, dots, width, height) && x < width && y < height
    ensures Byte(x, y, width) < |packed| && Cell(x, y, width) < |dots|
    ensures Dot(packed, width, x, y) <==> dots[Cell(x, y, width)]
  {
  }

  /** A packed raster is determined by its dots: two that pack the same grid are the same bytes. */
  lemma PackingIsUnique(a: seq<bv8>, b: seq<bv8>, dots: seq<bool>, width: nat, height: nat)
    requires width > 0 && |dots| == width * height && Packs(a, dots, width, height) && Packs(b, dots, width, height)
    ensures a == b
  {
    forall i | 0 <= i < |a| ensures a[i] == b[i] {
      forall j | 0 <= j < 8 ensures BitSet(a[i], j) == BitSet(b[i], j) {
        SameDot(a, b, dots, width, height, i, j);
      }
      SameBits(a[i], b[i]);
    }
  }

  lemma ByteOfBit(i: nat, j: nat, width: nat, height: nat)
    requires width > 0 && i < RowBytes(width) * height && j < 8
    ensures var q, y := i % RowBytes(width), i / RowBytes(width);
      y < height && q < RowBytes(width) && Byte(8 * q + j, y, width) == i && (8 * q + j) % 8 == j
  {
    var rb := RowBytes(width);
    RowBelow(i, rb, height);
    var q, y := i % rb, i / rb;
    assert i == y * rb + q;
    assert (8 * q + j) / 8 == q;
  }

  lemma RowBelow(i: nat, rb: nat, height: nat)
    requires rb > 0 && i < rb * height
    ensures i / rb < height
  {
  }

  lemma SameDot(a: seq<bv8>, b: seq<bv8>, dots: seq<bool>, width: nat, height: nat, i: nat, j: nat)
    requires width > 0 && |dots| == width * height && Packs(a, dots, width, height) && Packs(b, dots, width, height)
    requires i < |a| && j < 8
    ensures BitSet(a[i], j) == BitSet(b[i], j)
  {
    ByteOfBit(i, j, width, height);
    var x, y := 8 * (i % RowBytes(width)) + j, i / RowBytes(width);
    hide BitSet, Cell;
    assert Dot(a, width, x, y) <==> x < width && dots[Cell(x, y, width)];
    assert Dot(b, width, x, y) <==> x < width && dots[Cell(x, y, width)];
    assert Byte(x, y, width) == i;
  }

  lemma SameBits(a: bv8, b: bv8)
    requires forall j :: 0 <= j < 8 ==> BitSet(a, j) == BitSet(b, j)
    ensures a == b
  {
    MaskTable();
    assert BitSet(a, 0) == BitSet(b, 0) && BitSet(a, 1) == BitSet(b, 1) && BitSet(a, 2) == BitSet(b, 2)
      && BitSet(a, 3) == BitSet(b, 3) && BitSet(a, 4) == BitSet(b, 4) && BitSet(a, 5) == BitSet(b, 5)
      && BitSet(a, 6) == BitSet(b, 6) && BitSet(a, 7) == BitSet(b, 7);
  }
}
