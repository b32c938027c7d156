/**
 * Raster images as row-major grids, the 90-degree rotations the orientation
 * search tries, and the horizontal cut of the rectified sheet into a top and
 * a bottom slice that the grid scorer stacks back together.
 */
module Raster {

  /** A raster image: `rows[y][x]` is the pixel in row `y`, column `x`. */
  datatype Image<T> = Image(width: nat, rows: seq<seq<T>>) {

    function Height(): nat {
      |rows|
    }

    /** Every row holds exactly `width` pixels, as in a numpy array. */
    predicate Valid() {
      forall y :: 0 <= y < |rows| ==> |rows[y]| == width
    }
  }

  /** Clockwise quarter turn: the top row becomes the right-most column. */
  function RotateClockwise<T>(img: Image<T>): (r: Image<T>)
    requires img.Valid()
    ensures r.Valid() && r.width == img.Height() && r.Height() == img.width
    ensures forall y, x :: 0 <= y < r.Height() && 0 <= x < r.width ==>
              r.rows[y][x] == img.rows[img.Height() - 1 - x][y]
  {
    var h := img.Height();
    Image(h, seq(img.width, y requires 0 <= y < img.width =>
                   seq(h, x requires 0 <= x < h => img.rows[h - 1 - x][y])))
  }

  /** Half turn: the image is mirrored both vertically and horizontally. */
  function RotateHalf<T>(img: Image<T>): (r: Image<T>)
    requires img.Valid()
    ensures r.Valid() && r.width == img.width && r.Height() == img.Height()
    ensures forall y, x :: 0 <= y < r.Height() && 0 <= x < r.width ==>
              r.rows[y][x] == img.rows[img.Height() - 1 - y][img.width - 1 - x]
  {
    var h, w := img.Height(), img.width;
    Image(w, seq(h, y requires 0 <= y < h =>
                   seq(w, x requires 0 <= x < w => img.rows[h - 1 - y][w - 1 - x])))
  }

  /** Counter-clockwise quarter turn: the top row becomes the left-most column. */
  function RotateCounterClockwise<T>(img: Image<T>): (r: Image<T>)
    requires img.Valid()
    ensures r.Valid() && r.width == img.Height() && r.Height() == img.width
    ensures forall y, x :: 0 <= y < r.Height() && 0 <= x < r.width ==>
              r.rows[y][x] == img.rows[x][img.width - 1 - y]
  {
    var h, w := img.Height(), img.width;
    Image(h, seq(w, y requires 0 <= y < w =>
                   seq(h, x requires 0 <= x < h => img.rows[x][w - 1 - y])))
  }

  /** The angle dispatch of the rotation helper: only 90, 180 and 270 rotate. */
  function Rotate<T>(img: Image<T>, angle: int): (r: Image<T>)
    requires img.Valid()
    ensures r.Valid()
    ensures angle !in {90, 180, 270} ==> r == img
    ensures angle in {90, 270} ==> r.width == img.Height() && r.Height() == img.width
    ensures angle == 180 ==> r.width == img.width && r.Height() == img.Height()
    ensures angle == 90 ==> r == RotateClockwise(img)
    ensures angle == 180 ==> r == RotateHalf(img)
    ensures angle == 270 ==> r == RotateCounterClockwise(img)
  {
    if angle == 0 then img
    else if angle == 90 then RotateClockwise(img)
    else if angle == 180 then RotateHalf(img)
    else if angle == 270 then RotateCounterClockwise(img)
    else img
  }

  /** A counter-clockwise turn undoes a clockwise one. */
  lemma RotateClockwiseUndone<T>(img: Image<T>)
    requires img.Valid()
    ensures RotateCounterClockwise(RotateClockwise(img)) == img
  {
    var r := RotateCounterClockwise(RotateClockwise(img));
    assert |r.rows| == |img.rows|;
    forall y | 0 <= y < |img.rows|
      ensures r.rows[y] == img.rows[y]
    {
      assert |r.rows[y]| == |img.rows[y]|;
    }
  }

  /** A clockwise turn undoes a counter-clockwise one. */
  lemma RotateCounterClockwiseUndone<T>(img: Image<T>)
    requires img.Valid()
    ensures RotateClockwise(RotateCounterClockwise(img)) == img
  {
    var r := RotateClockwise(RotateCounterClockwise(img));
    assert |r.rows| == |img.rows|;
    forall y | 0 <= y < |img.rows|
      ensures r.rows[y] == img.rows[y]
    {
      assert |r.rows[y]| == |img.rows[y]|;
    }
  }

  /** Two clockwise quarter turns make the half turn. */
  lemma TwoQuarterTurnsMakeHalfTurn<T>(img: Image<T>)
    requires img.Valid()
    ensures RotateClockwise(RotateClockwise(img)) == RotateHalf(img)
  {
    var r := RotateClockwise(RotateClockwise(img));
    var s := RotateHalf(img);
    assert |r.rows| == |s.rows|;
    forall y | 0 <= y < |s.rows|
      ensures r.rows[y] == s.rows[y]
    {
      assert |r.rows[y]| == |s.rows[y]|;
    }
  }

  /** Four clockwise quarter turns give back the original image. */
  lemma FourQuarterTurnsIdentity<T>(img: Image<T>)
    requires img.Valid()
    ensures RotateClockwise(RotateClockwise(RotateClockwise(RotateClockwise(img)))) == img
  {
    var half := RotateClockwise(RotateClockwise(img));
    TwoQuarterTurnsMakeHalfTurn(img);
    TwoQuarterTurnsMakeHalfTurn(half);
    var r := RotateHalf(half);
    assert |r.rows| == |img.rows|;
    forall y | 0 <= y < |img.rows|
      ensures r.rows[y] == img.rows[y]
    {
      assert |r.rows[y]| == |img.rows[y]|;
    }
  }

  /** The dispatch's 90 and 270 degree rotations are inverse to each other. */
  lemma RotateQuarterRoundTrip<T>(img: Image<T>)
    requires img.Valid()
    ensures Rotate(Rotate(img, 90), 270) == img
    ensures Rotate(Rotate(img, 270), 90) == img
  {
    RotateClockwiseUndone(img);
    RotateCounterClockwiseUndone(img);
  }

  /** Row at which the rectified sheet is cut: 60 percent of the height, rounded down. */
  function CutRow(h: nat): (cut: nat)
    ensures cut <= h
    ensures 100 * cut <= 60 * h < 100 * cut + 100
  {
    (h * 60) / 100
  }

  /** The top slice `rows[..cut]` and the bottom slice `rows[cut..]` of a sheet. */
  function SplitSheet<T>(img: Image<T>): (parts: (Image<T>, Image<T>))
    requires img.Valid()
    ensures parts.0.Valid() && parts.1.Valid()
    ensures parts.0.width == img.width && parts.1.width == img.width
    ensures parts.0.Height() == CutRow(img.Height())
    ensures parts.1.Height() == img.Height() - CutRow(img.Height())
  {
    var cut := CutRow(img.Height());
    (Image(img.width, img.rows[..cut]), Image(img.width, img.rows[cut..]))
  }

  /** Vertical stacking of two images of equal width: `top` above `bottom`. */
  function Stack<T>(top: Image<T>, bottom: Image<T>): (r: Image<T>)
    requires top.Valid() && bottom.Valid() && top.width == bottom.width
    ensures r.Valid() && r.width == top.width
    ensures r.Height() == top.Height() + bottom.Height()
    ensures r.rows[..top.Height()] == top.rows && r.rows[top.Height()..] == bottom.rows
  {
    Image(top.width, top.rows + bottom.rows)
  }

  /** Stacking the two slices of the cut restores the sheet row for row. */
  lemma SplitThenStack<T>(img: Image<T>)
    requires img.Valid()
    ensures Stack(SplitSheet(img).0, SplitSheet(img).1) == img
  {
    var cut := CutRow(img.Height());
    assert img.rows[..cut] + img.rows[cut..] == img.rows;
  }
}
