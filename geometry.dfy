/**
 * The size arithmetic of `resize_and_crop`: which side of the screenshot is
 * fitted to the target, the truncated size of the other side, and the centred
 * crop box.  The ratios `w / h` and `tw / th`, floats in the program, are
 * compared exactly by cross-multiplication.  The crop box has half-integer
 * coordinates in the program, so it is kept here with every coordinate doubled.
 */
module Geometry {
  import opened Wrappers

  datatype Size = Size(width: nat, height: nat)

  /** A crop box `(left, top, right, bottom)` with each coordinate multiplied by two. */
  datatype CropBox = CropBox(left2: int, top2: int, right2: int, bottom2: int)

  /** The scaled size the screenshot is resized to, and the box then cropped from it. */
  datatype Plan = Plan(scaled: Size, box: CropBox)

  /** The program divides by `h`, by `th`, and (when fitting by width) by the ratio `w / h`. */
  datatype GeometryError = ZeroDivision

  /** `w / h > tw / th`, for `h > 0` and `th > 0`: the screenshot is relatively wider than the target. */
  predicate WiderThanTarget(w: nat, h: nat, tw: nat, th: nat)
  {
    w * th > tw * h
  }

  /** `q` is the truncation of the fraction `a / b`: the largest integer not above it. */
  ghost predicate IsFloorOf(q: int, a: int, b: int)
  {
    q * b <= a < (q + 1) * b
  }

  lemma DivIsFloor(a: nat, b: nat)
    requires b > 0
    ensures IsFloorOf(a / b, a, b)
  {
  }

  /** `t * b <= a` implies `a / b >= t`. */
  lemma FloorAtLeast(a: nat, b: nat, t: nat)
    requires b > 0 && t * b <= a
    ensures a / b >= t
  {
    DivIsFloor(a, b);
    if a / b < t {
      assert (a / b + 1) * b <= t * b by {
        assert a / b + 1 <= t;
        MulMonotone(a / b + 1, t, b);
      }
    }
  }

  lemma MulMonotone(x: int, y: int, b: nat)
    requires x <= y
    ensures x * b <= y * b
  {
  }

  /**
   * The size `resize_and_crop` resizes a `w` x `h` screenshot to for a `tw` x `th`
   * target: fit by height when the screenshot is relatively wider, otherwise by
   * width, truncating the other side.  A zero `h` or `th`, or a zero `w` (the
   * width branch then divides by the ratio 0.0), is a division by zero.
   */
  function ScaledSize(w: nat, h: nat, tw: nat, th: nat): (r: Result<Size, GeometryError>)
    ensures r.Failure? <==> (w == 0 || h == 0 || th == 0)
    ensures r.Success? && WiderThanTarget(w, h, tw, th) ==>
      r.value.height == th && IsFloorOf(r.value.width, th * w, h) && r.value.width >= tw
    ensures r.Success? && !WiderThanTarget(w, h, tw, th) ==>
      r.value.width == tw && IsFloorOf(r.value.height, tw * h, w) && r.value.height >= th
  {
    if h == 0 || th == 0 then
      Failure(ZeroDivision)
    else if WiderThanTarget(w, h, tw, th) then
      DivIsFloor(th * w, h);
      assert tw * h <= th * w;
      FloorAtLeast(th * w, h, tw);
      Success(Size((th * w) / h, th))
    else if w == 0 then
      Failure(ZeroDivision)
    else
      DivIsFloor(tw * h, w);
      assert th * w <= tw * h;
      FloorAtLeast(tw * h, w, th);
      Success(Size(tw, (tw * h) / w))
  }

  /** The centred box of the target size inside a scaled image, doubled. */
  function CenteredBox(scaled: Size, tw: nat, th: nat): (b: CropBox)
    ensures b.right2 - b.left2 == 2 * tw && b.bottom2 - b.top2 == 2 * th
    ensures b.left2 + b.right2 == 2 * scaled.width && b.top2 + b.bottom2 == 2 * scaled.height
  {
    CropBox(scaled.width - tw, scaled.height - th, scaled.width + tw, scaled.height + th)
  }

  /** The geometry of `resize_and_crop`: the scaled size, then the centred crop box. */
  function ResizeAndCrop(w: nat, h: nat, tw: nat, th: nat): (r: Result<Plan, GeometryError>)
    ensures r.Failure? <==> (w == 0 || h == 0 || th == 0)
    ensures r.Success? ==> Success(r.value.scaled) == ScaledSize(w, h, tw, th)
  {
    match ScaledSize(w, h, tw, th)
    case Failure(e) => Failure(e)
    case Success(s) => Success(Plan(s, CenteredBox(s, tw, th)))
  }

  /** The scale always covers the target: no side is smaller, so nothing is letterboxed. */
  lemma ScaleCovers(w: nat, h: nat, tw: nat, th: nat)
    requires ScaledSize(w, h, tw, th).Success?
    ensures ScaledSize(w, h, tw, th).value.width >= tw
    ensures ScaledSize(w, h, tw, th).value.height >= th
    ensures ScaledSize(w, h, tw, th).value.width == tw || ScaledSize(w, h, tw, th).value.height == th
  {
  }

  /**
   * The crop box has exactly the target's extent, is centred in the scaled
   * image, and lies inside it; along the fitted side it spans the whole image.
   */
  lemma CropBoxInsideScaled(w: nat, h: nat, tw: nat, th: nat)
    requires ResizeAndCrop(w, h, tw, th).Success?
    ensures var p := ResizeAndCrop(w, h, tw, th).value;
      && p.box.right2 - p.box.left2 == 2 * tw
      && p.box.bottom2 - p.box.top2 == 2 * th
      && p.box.left2 + p.box.right2 == 2 * p.scaled.width
      && p.box.top2 + p.box.bottom2 == 2 * p.scaled.height
      && 0 <= p.box.left2 && p.box.right2 <= 2 * p.scaled.width
      && 0 <= p.box.top2 && p.box.bottom2 <= 2 * p.scaled.height
    ensures var p := ResizeAndCrop(w, h, tw, th).value;
      if WiderThanTarget(w, h, tw, th) then p.box.top2 == 0 else p.box.left2 == 0
  {
  }

  /** A 1000 x 2000 screenshot for the 750 x 1624 screen: fitted by height to 812 x 1624, cropped from x = 31. */
  lemma TallScreenshotExample()
    ensures ResizeAndCrop(1000, 2000, 750, 1624)
      == Success(Plan(Size(812, 1624), CropBox(62, 0, 1562, 3248)))
  {
  }
}
