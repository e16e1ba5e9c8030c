/** The gap locator of the slider CAPTCHA solver: two screenshots of the same
    challenge are compared column by column, under a per-channel colour
    tolerance, and the first column (from a fixed start offset) that holds a
    differing pixel is the horizontal offset of the gap. */
module GapLocator {

  /** One 8-bit colour channel. */
  type Channel = c: int | 0 <= c < 256

  /** A pixel as the image library decodes it: red, green, blue and alpha. */
  datatype Pixel = Pixel(red: Channel, green: Channel, blue: Channel, alpha: Channel)

  /** Per-channel difference below which two pixels still count as equal. */
  const ColorTolerance: int := 80

  /** The fixed start position of the puzzle piece: columns left of it are never scanned. */
  const ScanStart: nat := 60

  function Abs(n: int): nat
  {
    if n < 0 then -n else n
  }

  /** Fuzzy pixel equality: every colour channel differs by less than the
      tolerance; alpha is not looked at. */
  predicate EqualPixel(p: Pixel, q: Pixel)
  {
    Abs(p.red - q.red) < ColorTolerance &&
    Abs(p.green - q.green) < ColorTolerance &&
    Abs(p.blue - q.blue) < ColorTolerance
  }

  /** The tolerance rule written as open intervals around the first pixel's channels. */
  lemma EqualPixelWithinTolerance(p: Pixel, q: Pixel)
    ensures EqualPixel(p, q) <==>
      (p.red - ColorTolerance < q.red < p.red + ColorTolerance &&
       p.green - ColorTolerance < q.green < p.green + ColorTolerance &&
       p.blue - ColorTolerance < q.blue < p.blue + ColorTolerance)
  {
  }

  lemma EqualPixelReflexive(p: Pixel)
    ensures EqualPixel(p, p)
  {
  }

  lemma EqualPixelSymmetric(p: Pixel, q: Pixel)
    ensures EqualPixel(p, q) == EqualPixel(q, p)
  {
  }

  /** Changing the alpha channel of either pixel never changes the verdict. */
  lemma EqualPixelIgnoresAlpha(p: Pixel, q: Pixel, alphaP: Channel, alphaQ: Channel)
    ensures EqualPixel(p, q) == EqualPixel(p.(alpha := alphaP), q.(alpha := alphaQ))
  {
  }

  /** A raster image; columns[x][y] is the pixel at (x, y). */
  datatype Image = Image(width: nat, height: nat, columns: seq<seq<Pixel>>)
  {
    predicate Valid()
    {
      |columns| == width &&
      forall x | 0 <= x < width :: |columns[x]| == height
    }

    function At(x: nat, y: nat): Pixel
      requires Valid() && x < width && y < height
    {
      columns[x][y]
    }
  }

  /** Both images are well formed and have the same width and height. */
  predicate SameSize(before: Image, after: Image)
  {
    before.Valid() && after.Valid() &&
    before.width == after.width && before.height == after.height
  }

  /** The pixel at (x, y) agrees between the two images. */
  predicate Matches(before: Image, after: Image, x: nat, y: nat)
    requires SameSize(before, after) && x < before.width && y < before.height
  {
    EqualPixel(before.At(x, y), after.At(x, y))
  }

  /** Some row of column x holds a pixel that does not match. */
  ghost predicate ColumnDiffers(before: Image, after: Image, x: nat)
    requires SameSize(before, after) && x < before.width
  {
    exists y | 0 <= y < before.height :: !Matches(before, after, x, y)
  }

  /** x is the gap: the smallest scanned column that differs. */
  ghost predicate IsGap(before: Image, after: Image, x: nat)
    requires SameSize(before, after)
  {
    ScanStart <= x < before.width &&
    ColumnDiffers(before, after, x) &&
    forall c | ScanStart <= c < x :: !ColumnDiffers(before, after, c)
  }

  /** No scanned column differs. */
  ghost predicate NoGap(before: Image, after: Image)
    requires SameSize(before, after)
  {
    forall c | ScanStart <= c < before.width :: !ColumnDiffers(before, after, c)
  }

  datatype GapResult = Found(x: nat) | GapNotFound

  /** Scans columns left to right from ScanStart and, inside a column, rows
      top to bottom; returns the column of the first mismatching pixel, or
      GapNotFound when the scanned region matches everywhere. */
  method GetGap(before: Image, after: Image) returns (r: GapResult)
    requires SameSize(before, after)
    ensures r.Found? ==> IsGap(before, after, r.x)
    ensures r.GapNotFound? ==> NoGap(before, after)
  {
    var width, height := before.width, before.height;
    var i := ScanStart;
    while i < width
      invariant ScanStart <= i
      invariant i <= width || i == ScanStart
      invariant forall c | ScanStart <= c < i :: !ColumnDiffers(before, after, c)
    {
      for j := 0 to height
        invariant forall y | 0 <= y < j :: Matches(before, after, i, y)
      {
        if !EqualPixel(before.At(i, j), after.At(i, j)) {
          assert !Matches(before, after, i, j);
          return Found(i);
        }
      }
      i := i + 1;
    }
    return GapNotFound;
  }

  /** A gap, when there is one, is unique. */
  lemma GapUnique(before: Image, after: Image, x1: nat, x2: nat)
    requires SameSize(before, after)
    requires IsGap(before, after, x1) && IsGap(before, after, x2)
    ensures x1 == x2
  {
  }

  /** Every differing scanned column has a gap at or left of it. */
  lemma {:induction false} GapAtOrBefore(before: Image, after: Image, c: nat)
    requires SameSize(before, after)
    requires ScanStart <= c < before.width && ColumnDiffers(before, after, c)
    ensures exists x: nat :: x <= c && IsGap(before, after, x)
    decreases c
  {
    if forall d | ScanStart <= d < c :: !ColumnDiffers(before, after, d) {
      assert IsGap(before, after, c);
    } else {
      var d :| ScanStart <= d < c && ColumnDiffers(before, after, d);
      GapAtOrBefore(before, after, d);
    }
  }

  /** Exactly one of the two outcomes of the scan describes every image pair:
      either some column is the gap, or no scanned column differs. */
  lemma GapOrNoGap(before: Image, after: Image)
    requires SameSize(before, after)
    ensures NoGap(before, after) <==> !exists x: nat :: IsGap(before, after, x)
  {
    if !NoGap(before, after) {
      var c :| ScanStart <= c < before.width && ColumnDiffers(before, after, c);
      GapAtOrBefore(before, after, c);
    }
  }

  /** Comparing an image with itself finds no gap. */
  lemma IdenticalImagesHaveNoGap(img: Image)
    requires img.Valid()
    ensures NoGap(img, img)
  {
    forall c | ScanStart <= c < img.width
      ensures !ColumnDiffers(img, img, c)
    {
      forall y | 0 <= y < img.height
        ensures Matches(img, img, c, y)
      {
        EqualPixelReflexive(img.At(c, y));
      }
    }
  }

  /** An image no wider than the start offset is never scanned at all. */
  lemma NarrowImagesHaveNoGap(before: Image, after: Image)
    requires SameSize(before, after) && before.width <= ScanStart
    ensures NoGap(before, after)
  {
  }

  /** The gap does not depend on which screenshot is passed first. */
  lemma GapSymmetric(before: Image, after: Image, x: nat)
    requires SameSize(before, after)
    ensures IsGap(before, after, x) <==> IsGap(after, before, x)
  {
    forall c: nat | c < before.width
      ensures ColumnDiffers(before, after, c) <==> ColumnDiffers(after, before, c)
    {
      forall y: nat | y < before.height
        ensures Matches(before, after, c, y) == Matches(after, before, c, y)
      {
        EqualPixelSymmetric(before.At(c, y), after.At(c, y));
      }
    }
  }

  /** A band of columns k..m whose red channel moved by at least the tolerance
      in every row, in a copy that is otherwise identical, is found at its
      left edge k. */
  lemma ShiftedBandIsGap(before: Image, after: Image, k: nat, m: nat)
    requires SameSize(before, after) && 0 < before.height
    requires ScanStart <= k <= m < before.width
    requires forall x, y | 0 <= x < before.width && 0 <= y < before.height && !(k <= x <= m) ::
      after.At(x, y) == before.At(x, y)
    requires forall x, y | k <= x <= m && 0 <= y < before.height ::
      Abs(after.At(x, y).red - before.At(x, y).red) >= ColorTolerance
    ensures IsGap(before, after, k)
  {
    assert !Matches(before, after, k, 0);
    forall c | ScanStart <= c < k
      ensures !ColumnDiffers(before, after, c)
    {
      forall y | 0 <= y < before.height
        ensures Matches(before, after, c, y)
      {
        EqualPixelReflexive(before.At(c, y));
      }
    }
  }
}
