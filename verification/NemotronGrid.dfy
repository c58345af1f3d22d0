/** The image token grid of the Nemotron strategy: rescaling, rounding and the merged-patch grid, in exact rationals. */
module NemotronGrid {
  import opened Options

  /** Pixels along one side of a merged patch: patch size 14, spatial merge 2. */
  const TOKEN_SIDE := 28

  /** At most half a unit away, and even when exactly half. */
  predicate IsRounding(num: nat, den: nat, r: nat)
    requires den > 0
  {
    var p := den * r;
    2 * p <= 2 * num + den && 2 * num <= 2 * p + den
    && (2 * p == 2 * num + den || 2 * num == 2 * p + den ==> r % 2 == 0)
  }

  lemma DivisionRounds(num: nat, den: nat, q: nat, rem: nat)
    requires den > 0 && q == num / den && rem == num % den
    ensures 2 * rem < den || (2 * rem == den && q % 2 == 0) ==> IsRounding(num, den, q)
    ensures !(2 * rem < den || (2 * rem == den && q % 2 == 0)) ==> IsRounding(num, den, q + 1)
  {
    var p := den * q;
    assert num == p + rem;
    Successor(den, q);
  }

  /** `num / den` rounded to the nearest integer, a tie to the even one. */
  function RoundHalfEven(num: nat, den: nat): (r: nat)
    requires den > 0
    ensures IsRounding(num, den, r)
  {
    var q, rem := num / den, num % den;
    DivisionRounds(num, den, q, rem);
    if 2 * rem < den || (2 * rem == den && q % 2 == 0) then q else q + 1
  }

  lemma Successor(a: int, b: int)
    ensures a * (b + 1) == a * b + a
  {
  }

  /** Multiples of `den` of different numbers are at least `den` apart, and further when not neighbours. */
  lemma MultiplesApart(den: nat, r: nat, q: nat)
    requires r < q
    ensures den * q >= den * r + den
    ensures q > r + 1 ==> den * q >= den * r + 2 * den
  {
    Successor(den, r);
    Successor(den, r + 1);
    MulMonotone(r + 1, q, den);
    if q > r + 1 {
      MulMonotone(r + 2, q, den);
    }
  }

  lemma MulMonotone(a: nat, b: nat, c: nat)
    requires a <= b
    ensures c * a <= c * b
  {
    if a < b {
      MulMonotone(a, b - 1, c);
      Successor(c, b - 1);
    }
  }

  /** Only one integer is the rounding of a fraction. */
  lemma RoundingUnique(num: nat, den: nat, r: nat)
    requires den > 0 && IsRounding(num, den, r)
    ensures r == RoundHalfEven(num, den)
  {
    hide RoundHalfEven;
    var q := RoundHalfEven(num, den);
    if r < q {
      MultiplesApart(den, r, q);
    } else if q < r {
      MultiplesApart(den, q, r);
    }
  }

  function Max(a: int, b: int): int {
    if a >= b then a else b
  }

  function Min(a: int, b: int): int {
    if a <= b then a else b
  }

  /** What the constructor accepts; anything else raises. */
  predicate ValidMaxSize(maxSize: int) {
    maxSize >= TOKEN_SIDE && maxSize % TOKEN_SIDE == 0
  }

  /** A side after the image was scaled down to fit; an image that fits keeps its sides. */
  function ScaledSide(maxSize: nat, side: nat, longest: nat): nat
  {
    if longest <= maxSize then side
    else RoundHalfEven(side * maxSize, longest)
  }

  /** Merged patches along a side of `n` pixels; none when the side was rounded to nothing. */
  function Patches(n: nat): (k: nat)
    ensures TOKEN_SIDE * k >= n && TOKEN_SIDE * k < n + TOKEN_SIDE
  {
    (n - 1) / TOKEN_SIDE + 1
  }

  /** `(rows, columns)`, or nothing for a size the source rejects. */
  function ImageTokenGrid(maxSize: nat, height: int, width: int): Option<(nat, nat)> {
    if height <= 0 || width <= 0 then None
    else
      var longest := Max(height, width);
      Some((Patches(ScaledSide(maxSize, height, longest)), Patches(ScaledSide(maxSize, width, longest))))
  }

  function ImageSize(maxSize: nat, height: int, width: int): Option<(nat, nat)> {
    match ImageTokenGrid(maxSize, height, width)
    case None => None
    case Some((rows, columns)) => Some((rows * TOKEN_SIDE, columns * TOKEN_SIDE))
  }

  /** Pads, row breaks, start and end. */
  function ImageTokenCount(maxSize: nat, height: int, width: int): Option<int> {
    match ImageTokenGrid(maxSize, height, width)
    case None => None
    case Some((rows, columns)) => Some(rows * columns + (rows - 1) + 2)
  }

  /** Features of a resized image, or nothing for a size that is not a positive multiple of the token side. */
  function MergedPatchCount(height: int, width: int): Option<nat> {
    if height <= 0 || width <= 0 || height % TOKEN_SIDE != 0 || width % TOKEN_SIDE != 0 then None
    else
      assert height / TOKEN_SIDE >= 0 && width / TOKEN_SIDE >= 0;
      MulMonotone(0, width / TOKEN_SIDE, height / TOKEN_SIDE);
      Some((height / TOKEN_SIDE) * (width / TOKEN_SIDE))
  }

  /** Exactly when scaling leaves both sides at least one pixel: the image fits, or the shorter side is more than
      half a pixel after scaling. */
  predicate BothSidesSurvive(maxSize: nat, height: int, width: int) {
    Max(height, width) <= maxSize || 2 * (Min(height, width) * maxSize) > Max(height, width)
  }

  /** Scaling down `side <= longest`: never above the maximum, exactly the maximum for the longest side, and
      nothing left exactly when less than or exactly half a pixel is. */
  lemma ScaledBound(maxSize: nat, side: nat, longest: nat)
    requires 0 < maxSize && 0 < side <= longest
    ensures ScaledSide(maxSize, side, longest) <= maxSize
    ensures side == longest && maxSize < longest ==> ScaledSide(maxSize, side, longest) == maxSize
    ensures ScaledSide(maxSize, side, longest) >= 1 <==> longest <= maxSize || 2 * (side * maxSize) > longest
  {
    if maxSize < longest {
      MulMonotone(side, longest, maxSize);
      assert side * maxSize == maxSize * side && longest * maxSize == maxSize * longest;
      RoundingBound(side * maxSize, longest, maxSize);
    }
  }

  lemma RoundingBound(num: nat, den: nat, top: nat)
    requires den > 0 && num <= den * top
    ensures RoundHalfEven(num, den) <= top
    ensures num == den * top ==> RoundHalfEven(num, den) == top
    ensures RoundHalfEven(num, den) >= 1 <==> 2 * num > den
  {
    hide RoundHalfEven;
    var r := RoundHalfEven(num, den);
    if top < r {
      MultiplesApart(den, top, r);
    }
    if num == den * top {
      RoundingUnique(num, den, top);
    }
    if 2 * num <= den {
      assert den * 0 == 0;
      RoundingUnique(num, den, 0);
    }
  }

  /** For every positive size the grid fits the maximum on both sides, the longer side of a scaled image fills it,
      and the grid is at least 1x1 exactly when both scaled sides survive the rounding. */
  lemma GridBounds(maxSize: nat, height: int, width: int)
    requires ValidMaxSize(maxSize) && height > 0 && width > 0
    ensures ImageTokenGrid(maxSize, height, width).Some?
    ensures var (rows, columns) := ImageTokenGrid(maxSize, height, width).value;
            && rows <= maxSize / TOKEN_SIDE && columns <= maxSize / TOKEN_SIDE
            && (rows >= 1 && columns >= 1 <==> BothSidesSurvive(maxSize, height, width))
            && (maxSize < height && width <= height ==> rows == maxSize / TOKEN_SIDE)
            && (maxSize < width && height <= width ==> columns == maxSize / TOKEN_SIDE)
  {
    var longest := Max(height, width);
    ScaledBound(maxSize, height, longest);
    ScaledBound(maxSize, width, longest);
    PatchesBound(ScaledSide(maxSize, height, longest), maxSize);
    PatchesBound(ScaledSide(maxSize, width, longest), maxSize);
    LongerSurvives(maxSize, longest);
  }

  lemma LongerSurvives(maxSize: nat, longest: nat)
    requires 0 < maxSize
    ensures longest > 0 ==> 2 * (longest * maxSize) > longest
  {
    MulMonotone(1, maxSize, longest);
    assert longest * 1 == longest;
  }

  lemma PatchesBound(n: nat, maxSize: nat)
    requires ValidMaxSize(maxSize) && n <= maxSize
    ensures Patches(n) <= maxSize / TOKEN_SIDE
    ensures Patches(n) >= 1 <==> n >= 1
    ensures n == maxSize ==> Patches(n) == maxSize / TOKEN_SIDE
  {
  }

  /** The grid of an image is that of its scaled sides: an image that fits keeps its sides; of any other each is the
      nearest integer to its part of the maximum, the even one of two that are as near. Rows come from the height,
      columns from the width, each as many as are needed to cover the side. */
  lemma GridExactly(maxSize: nat, height: int, width: int) returns (h: nat, w: nat)
    requires ValidMaxSize(maxSize) && height > 0 && width > 0
    ensures var longest := if height >= width then height else width;
            && (longest <= maxSize ==> h == height && w == width)
            && (longest > maxSize ==>
                  && 2 * (longest * h) <= 2 * (height * maxSize) + longest
                  && 2 * (height * maxSize) <= 2 * (longest * h) + longest
                  && (2 * (longest * h) == 2 * (height * maxSize) + longest ==> h % 2 == 0)
                  && (2 * (height * maxSize) == 2 * (longest * h) + longest ==> h % 2 == 0)
                  && 2 * (longest * w) <= 2 * (width * maxSize) + longest
                  && 2 * (width * maxSize) <= 2 * (longest * w) + longest
                  && (2 * (longest * w) == 2 * (width * maxSize) + longest ==> w % 2 == 0)
                  && (2 * (width * maxSize) == 2 * (longest * w) + longest ==> w % 2 == 0))
    ensures ImageTokenGrid(maxSize, height, width).Some?
    ensures var (rows, columns) := ImageTokenGrid(maxSize, height, width).value;
            28 * rows - 28 < h <= 28 * rows && 28 * columns - 28 < w <= 28 * columns
  {
    var longest := Max(height, width);
    h, w := ScaledSide(maxSize, height, longest), ScaledSide(maxSize, width, longest);
  }

  /** Resizing is stable: the resized image has the same grid and the same size again, exactly when the grid is at
      least 1x1; otherwise the resized image is rejected. */
  lemma ResizeStable(maxSize: nat, height: int, width: int)
    requires ValidMaxSize(maxSize) && height > 0 && width > 0
    ensures ImageSize(maxSize, height, width).Some?
    ensures var (h, w) := ImageSize(maxSize, height, width).value;
            if BothSidesSurvive(maxSize, height, width) then
              && ImageTokenGrid(maxSize, h, w) == ImageTokenGrid(maxSize, height, width)
              && ImageSize(maxSize, h, w) == Some((h, w))
              && MergedPatchCount(h, w) == Some((h / TOKEN_SIDE) * (w / TOKEN_SIDE))
            else ImageTokenGrid(maxSize, h, w) == None && MergedPatchCount(h, w) == None
  {
    GridBounds(maxSize, height, width);
    var (rows, columns) := ImageTokenGrid(maxSize, height, width).value;
    var h, w := rows * TOKEN_SIDE, columns * TOKEN_SIDE;
    assert h <= maxSize && w <= maxSize;
    assert Patches(h) == rows && Patches(w) == columns;
    assert h % TOKEN_SIDE == 0 && w % TOKEN_SIDE == 0;
  }

  /** For instance, a line of 2800 pixels: its height of half a pixel rounds to nothing, and what it is resized to is
      rejected. A height of two pixels is enough. */
  lemma ThinImage()
    ensures !BothSidesSurvive(1400, 1, 2800) && ImageTokenGrid(1400, 1, 2800) == Some((0, 50))
    ensures ImageSize(1400, 1, 2800) == Some((0, 1400)) && ImageTokenGrid(1400, 0, 1400) == None
    ensures BothSidesSurvive(1400, 2, 2800) && ImageTokenGrid(1400, 2, 2800) == Some((1, 50))
  {
    RoundingUnique(1400, 2800, 0);
    RoundingUnique(2800 * 1400, 2800, 1400);
    RoundingUnique(2 * 1400, 2800, 1);
  }
}
