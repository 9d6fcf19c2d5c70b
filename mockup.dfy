/**
 * `create_mockup`: a transparent-white canvas of the mockup size, the fitted
 * screenshot pasted onto it at the screen offset without a mask, then the frame
 * pasted at the origin with its own alpha as the mask.
 */
module Mockup {
  import opened Wrappers
  import opened Raster
  import opened Geometry

  /** The pixel a masked paste produces at a mask value strictly between 0 and 255 (`under`, `over`, mask). */
  type Blend = (Pixel, Pixel, byte) -> Pixel

  /** Pixel `(x, y)` of the LANCZOS resize of an image to a size: the library's filtering. */
  type Sampler = (Image, Size, nat, nat) -> Pixel

  /**
   * Whether the library's crop rounds an edge whose doubled coordinate `d` is odd,
   * that is, an edge at the half-integer `d / 2`, up rather than down.
   */
  type HalfRound = int -> bool

  /** Whether a paste uses no mask or the pasted image's own alpha channel as its mask. */
  datatype MaskMode = NoMask | OwnAlpha

  /** The fill colour of the new canvas: white, fully transparent. */
  function TransparentWhite(): Pixel
  {
    Pixel(255, 255, 255, 0)
  }

  /** What one canvas pixel `under` becomes when the pixel `over` is pasted onto it. */
  function PastePixel(under: Pixel, over: Pixel, mode: MaskMode, blend: Blend): (p: Pixel)
    ensures mode == NoMask ==> p == over
    ensures mode == OwnAlpha && over.a == 255 ==> p == over
    ensures mode == OwnAlpha && over.a == 0 ==> p == under
  {
    if mode == NoMask || over.a == 255 then over
    else if over.a == 0 then under
    else blend(under, over, over.a)
  }

  /** The whole-pixel position of a crop edge given doubled: exact when even, one of its neighbours when odd. */
  function Edge(d2: int, halfRound: HalfRound): (e: int)
    ensures d2 % 2 == 0 ==> 2 * e == d2
    ensures d2 % 2 == 1 ==> 2 * e == d2 - 1 || 2 * e == d2 + 1
  {
    if d2 % 2 == 0 || !halfRound(d2) then d2 / 2 else d2 / 2 + 1
  }

  /** `image.resize(size, Image.LANCZOS)`: an image of exactly `size`, each pixel sampled by the library. */
  function Resize(img: Image, size: Size, sample: Sampler): (r: Image)
    ensures r.width == size.width && r.height == size.height
    ensures forall x, y :: 0 <= x < size.width && 0 <= y < size.height ==> At(r, x, y) == sample(img, size, x, y)
  {
    var rows := seq(size.height, (y: int) requires 0 <= y =>
      seq(size.width, (x: int) requires 0 <= x => sample(img, size, x, y)));
    assert forall y :: 0 <= y < |rows| ==> |rows[y]| == size.width;
    Grid(size.width, size.height, rows)
  }

  /**
   * `resize_and_crop` on pixels: resize the screenshot to the scaled size of the
   * plan, then crop the plan's box; or the division by zero that stops it.
   */
  function FitScreen(appScreen: Image, screenSize: Size, sample: Sampler, halfRound: HalfRound)
    : (r: Result<Image, GeometryError>)
    ensures r.Failure? <==> (appScreen.width == 0 || appScreen.height == 0 || screenSize.height == 0)
  {
    match ResizeAndCrop(appScreen.width, appScreen.height, screenSize.width, screenSize.height)
    case Failure(e) => Failure(e)
    case Success(plan) =>
      CropBoxInsideScaled(appScreen.width, appScreen.height, screenSize.width, screenSize.height);
      var b := plan.box;
      EdgesOrdered(b.left2, b.right2, screenSize.width, plan.scaled.width, halfRound);
      EdgesOrdered(b.top2, b.bottom2, screenSize.height, plan.scaled.height, halfRound);
      Success(Crop(Resize(appScreen, plan.scaled, sample), Edge(b.left2, halfRound), Edge(b.top2, halfRound),
                   Edge(b.right2, halfRound), Edge(b.bottom2, halfRound)))
  }

  /**
   * The fitted screenshot is cut from the resized one: it lies inside it at the
   * crop box's rounded offset, every pixel is the resized pixel at that offset,
   * and its size is the screen size up to one pixel of rounding, exact on the
   * fitted side.
   */
  lemma FittedFromResized(appScreen: Image, screenSize: Size, sample: Sampler, halfRound: HalfRound)
    requires FitScreen(appScreen, screenSize, sample, halfRound).Success?
    ensures var fitted := FitScreen(appScreen, screenSize, sample, halfRound).value;
      && screenSize.width - 1 <= fitted.width <= screenSize.width + 1
      && screenSize.height - 1 <= fitted.height <= screenSize.height + 1
      && (fitted.width == screenSize.width || fitted.height == screenSize.height)
    ensures var fitted := FitScreen(appScreen, screenSize, sample, halfRound).value;
      var plan := ResizeAndCrop(appScreen.width, appScreen.height, screenSize.width, screenSize.height).value;
      var resized := Resize(appScreen, plan.scaled, sample);
      var left, top := Edge(plan.box.left2, halfRound), Edge(plan.box.top2, halfRound);
      && 0 <= left && left + fitted.width <= resized.width
      && 0 <= top && top + fitted.height <= resized.height
      && forall i, j :: 0 <= i < fitted.width && 0 <= j < fitted.height ==>
           At(fitted, i, j) == At(resized, left + i, top + j)
  {
    var w, h, tw, th := appScreen.width, appScreen.height, screenSize.width, screenSize.height;
    CropBoxInsideScaled(w, h, tw, th);
    var plan := ResizeAndCrop(w, h, tw, th).value;
    var b := plan.box;
    EdgesOrdered(b.left2, b.right2, tw, plan.scaled.width, halfRound);
    EdgesOrdered(b.top2, b.bottom2, th, plan.scaled.height, halfRound);
  }

  /**
   * When the crop box has whole-pixel edges (the scaled size exceeds the screen
   * size by an even amount on the cropped side), the fitted screenshot is exactly
   * the screen size and its pixel `(i, j)` is the resized pixel
   * `(i + left, j + top)`, with `left` and `top` the box's own corner.
   */
  lemma FittedExactly(appScreen: Image, screenSize: Size, sample: Sampler, halfRound: HalfRound)
    requires FitScreen(appScreen, screenSize, sample, halfRound).Success?
    requires var plan := ResizeAndCrop(appScreen.width, appScreen.height, screenSize.width, screenSize.height).value;
      plan.box.left2 % 2 == 0 && plan.box.top2 % 2 == 0
    ensures var fitted := FitScreen(appScreen, screenSize, sample, halfRound).value;
      var plan := ResizeAndCrop(appScreen.width, appScreen.height, screenSize.width, screenSize.height).value;
      var resized := Resize(appScreen, plan.scaled, sample);
      && fitted.width == screenSize.width && fitted.height == screenSize.height
      && forall i, j :: 0 <= i < fitted.width && 0 <= j < fitted.height ==>
           At(fitted, i, j) == At(resized, plan.box.left2 / 2 + i, plan.box.top2 / 2 + j)
  {
    var w, h, tw, th := appScreen.width, appScreen.height, screenSize.width, screenSize.height;
    FittedFromResized(appScreen, screenSize, sample, halfRound);
    CropBoxInsideScaled(w, h, tw, th);
    var plan := ResizeAndCrop(w, h, tw, th).value;
    var b := plan.box;
    EdgesOrdered(b.left2, b.right2, tw, plan.scaled.width, halfRound);
    EdgesOrdered(b.top2, b.bottom2, th, plan.scaled.height, halfRound);
  }

  /** The rounded edges of a doubled span `[l2, r2]` of width `2 * t` inside `[0, 2 * n]`. */
  lemma EdgesOrdered(l2: int, r2: int, t: nat, n: nat, halfRound: HalfRound)
    requires r2 == l2 + 2 * t && 0 <= l2 && r2 <= 2 * n
    ensures 0 <= Edge(l2, halfRound) <= Edge(r2, halfRound) <= n
    ensures t - 1 <= Edge(r2, halfRound) - Edge(l2, halfRound) <= t + 1
    ensures l2 % 2 == 0 ==> Edge(r2, halfRound) - Edge(l2, halfRound) == t && 2 * Edge(l2, halfRound) == l2
    ensures t == 0 || l2 == 0 ==> Edge(r2, halfRound) - Edge(l2, halfRound) == t
  {
    assert r2 % 2 == l2 % 2;
  }

  /** Canvas pixel `(x, y)` after the first paste, which has no mask: the screenshot where it lies, the fill elsewhere. */
  function ScreenLayer(screen: Image, sx: int, sy: int, x: int, y: int): (p: Pixel)
    ensures Covers(screen, sx, sy, x, y) ==> p == At(screen, x - sx, y - sy)
    ensures p != TransparentWhite() ==> Covers(screen, sx, sy, x, y)
  {
    if Covers(screen, sx, sy, x, y) then At(screen, x - sx, y - sy) else TransparentWhite()
  }

  /**
   * Canvas pixel `(x, y)` after the second paste: the frame, masked by its own
   * alpha, over the screen layer.  An opaque frame pixel hides what is below it;
   * where the frame is transparent or absent the screen layer shows unchanged.
   */
  function MockupPixel(screen: Image, frame: Image, sx: int, sy: int, blend: Blend, x: int, y: int): (p: Pixel)
    ensures Covers(frame, 0, 0, x, y) && At(frame, x, y).a == 255 ==> p == At(frame, x, y)
    ensures (Covers(frame, 0, 0, x, y) ==> At(frame, x, y).a == 0) ==> p == ScreenLayer(screen, sx, sy, x, y)
  {
    var under := ScreenLayer(screen, sx, sy, x, y);
    if Covers(frame, 0, 0, x, y) then PastePixel(under, At(frame, x, y), OwnAlpha, blend) else under
  }

  /** The finished mockup of size `mockupSize`, from an already fitted screenshot. */
  function Composite(screen: Image, frame: Image, sx: int, sy: int, mockupSize: Size, blend: Blend): (m: Image)
    ensures m.width == mockupSize.width && m.height == mockupSize.height
  {
    Grid(mockupSize.width, mockupSize.height,
         seq(mockupSize.height, y => seq(mockupSize.width, x => MockupPixel(screen, frame, sx, sy, blend, x, y))))
  }

  lemma CompositeAt(screen: Image, frame: Image, sx: int, sy: int, mockupSize: Size, blend: Blend, x: nat, y: nat)
    requires x < mockupSize.width && y < mockupSize.height
    ensures At(Composite(screen, frame, sx, sy, mockupSize, blend), x, y) == MockupPixel(screen, frame, sx, sy, blend, x, y)
  {
  }

  /** Where the frame is opaque, the mockup shows the frame, whatever the screenshot holds. */
  lemma FrameOccludes(screen: Image, frame: Image, sx: int, sy: int, mockupSize: Size, blend: Blend, x: nat, y: nat)
    requires x < mockupSize.width && y < mockupSize.height
    requires x < frame.width && y < frame.height && At(frame, x, y).a == 255
    ensures At(Composite(screen, frame, sx, sy, mockupSize, blend), x, y) == At(frame, x, y)
  {
    CompositeAt(screen, frame, sx, sy, mockupSize, blend, x, y);
  }

  /**
   * Under the screenshot, where the frame is transparent or absent, the mockup
   * shows the screenshot pixel itself; its own alpha plays no part.
   */
  lemma ScreenShowsThrough(screen: Image, frame: Image, sx: int, sy: int, mockupSize: Size, blend: Blend, x: nat, y: nat)
    requires x < mockupSize.width && y < mockupSize.height
    requires Covers(screen, sx, sy, x, y)
    requires Covers(frame, 0, 0, x, y) ==> At(frame, x, y).a == 0
    ensures At(Composite(screen, frame, sx, sy, mockupSize, blend), x, y) == At(screen, x - sx, y - sy)
  {
    CompositeAt(screen, frame, sx, sy, mockupSize, blend, x, y);
  }

  /** Away from the screenshot, where the frame is transparent or absent, the canvas fill remains. */
  lemma FillRemains(screen: Image, frame: Image, sx: int, sy: int, mockupSize: Size, blend: Blend, x: nat, y: nat)
    requires x < mockupSize.width && y < mockupSize.height
    requires !Covers(screen, sx, sy, x, y)
    requires Covers(frame, 0, 0, x, y) ==> At(frame, x, y).a == 0
    ensures At(Composite(screen, frame, sx, sy, mockupSize, blend), x, y) == TransparentWhite()
  {
    CompositeAt(screen, frame, sx, sy, mockupSize, blend, x, y);
  }

  /** The image being built: `Image.new('RGBA', size, colour)` and its `paste` calls. */
  class Canvas {
    const width: nat
    const height: nat
    /** `pixels[x, y]` is the pixel in column `x` of row `y`. */
    const pixels: array2<Pixel>

    predicate Valid()
    {
      pixels.Length0 == width && pixels.Length1 == height
    }

    constructor (size: Size, fill: Pixel)
      ensures Valid() && width == size.width && height == size.height && fresh(pixels)
      ensures forall x, y :: 0 <= x < width && 0 <= y < height ==> pixels[x, y] == fill
    {
      width, height := size.width, size.height;
      pixels := new Pixel[size.width, size.height]((x, y) => fill);
    }

    /** The canvas as an image value. */
    function Snapshot(): (img: Image)
      requires Valid()
      reads pixels
      ensures img.width == width && img.height == height
      ensures forall x, y :: 0 <= x < width && 0 <= y < height ==> At(img, x, y) == pixels[x, y]
    {
      Grid(width, height,
           seq(height, (y: int) requires 0 <= y < height reads pixels =>
             seq(width, (x: int) requires 0 <= x < width reads pixels => pixels[x, y])))
    }

    /**
     * `paste(img, (ox, oy))`, with `img`'s alpha as the mask when `mode` is
     * `OwnAlpha`: the pixels under `img`, clipped to the canvas, are pasted over
     * and every other pixel is left as it was.
     */
    method Paste(img: Image, ox: int, oy: int, mode: MaskMode, blend: Blend)
      requires Valid()
      modifies pixels
      ensures forall x, y :: 0 <= x < width && 0 <= y < height ==>
        pixels[x, y] == if Covers(img, ox, oy, x, y)
                        then PastePixel(old(pixels[x, y]), At(img, x - ox, y - oy), mode, blend)
                        else old(pixels[x, y])
    {
      var x0, y0 := Max(0, ox), Max(0, oy);
      var x1, y1 := Max(x0, Min(width, ox + img.width)), Max(y0, Min(height, oy + img.height));
      var y := y0;
      while y < y1
        invariant y0 <= y <= y1
        invariant forall i, j :: 0 <= i < width && 0 <= j < height ==>
          pixels[i, j] == if x0 <= i < x1 && y0 <= j < y
                          then PastePixel(old(pixels[i, j]), At(img, i - ox, j - oy), mode, blend)
                          else old(pixels[i, j])
      {
        var x := x0;
        while x < x1
          invariant x0 <= x <= x1
          invariant forall i, j :: 0 <= i < width && 0 <= j < height ==>
            pixels[i, j] == if (x0 <= i < x1 && y0 <= j < y) || (j == y && x0 <= i < x)
                            then PastePixel(old(pixels[i, j]), At(img, i - ox, j - oy), mode, blend)
                            else old(pixels[i, j])
        {
          pixels[x, y] := PastePixel(pixels[x, y], At(img, x - ox, y - oy), mode, blend);
          x := x + 1;
        }
        y := y + 1;
      }
    }
  }

  function Max(a: int, b: int): int { if a < b then b else a }

  function Min(a: int, b: int): int { if a < b then a else b }

  /**
   * The canvas part of `create_mockup`: allocate the transparent-white canvas,
   * paste the fitted screenshot at `(sx, sy)` without a mask, then the frame at
   * the origin masked by its own alpha.
   */
  method Layer(screen: Image, frame: Image, sx: int, sy: int, mockupSize: Size, blend: Blend)
    returns (canvas: Canvas)
    ensures fresh(canvas.pixels) && canvas.Valid()
    ensures canvas.width == mockupSize.width && canvas.height == mockupSize.height
    ensures canvas.Snapshot() == Composite(screen, frame, sx, sy, mockupSize, blend)
  {
    canvas := new Canvas(mockupSize, TransparentWhite());
    canvas.Paste(screen, sx, sy, NoMask, blend);
    assert forall x, y :: 0 <= x < canvas.width && 0 <= y < canvas.height ==>
      canvas.pixels[x, y] == ScreenLayer(screen, sx, sy, x, y);
    canvas.Paste(frame, 0, 0, OwnAlpha, blend);
    assert forall x, y :: 0 <= x < canvas.width && 0 <= y < canvas.height ==>
      canvas.pixels[x, y] == MockupPixel(screen, frame, sx, sy, blend, x, y);
    var expected := Composite(screen, frame, sx, sy, mockupSize, blend);
    forall x, y | 0 <= x < canvas.width && 0 <= y < canvas.height
      ensures At(canvas.Snapshot(), x, y) == At(expected, x, y)
    {
      CompositeAt(screen, frame, sx, sy, mockupSize, blend, x, y);
    }
    SamePixels(canvas.Snapshot(), expected);
  }

  /**
   * `create_mockup`: fit the screenshot to the screen size, then layer it and the
   * frame on a new canvas.  Fails only where fitting divides by zero.
   */
  method CreateMockup(appScreen: Image, frame: Image, screenSize: Size, sx: int, sy: int,
                      mockupSize: Size, sample: Sampler, halfRound: HalfRound, blend: Blend)
    returns (r: Result<Canvas, GeometryError>)
    ensures r.Failure? <==> FitScreen(appScreen, screenSize, sample, halfRound).Failure?
    ensures r.Failure? ==> r.error == FitScreen(appScreen, screenSize, sample, halfRound).error
    ensures r.Success? ==> fresh(r.value.pixels) && r.value.Valid()
    ensures r.Success? ==> r.value.width == mockupSize.width && r.value.height == mockupSize.height
    ensures r.Success? ==>
      r.value.Snapshot() == Composite(FitScreen(appScreen, screenSize, sample, halfRound).value, frame, sx, sy, mockupSize, blend)
  {
    var fitted := FitScreen(appScreen, screenSize, sample, halfRound);
    if fitted.Failure? {
      return Failure(fitted.error);
    }
    var canvas := Layer(fitted.value, frame, sx, sy, mockupSize, blend);
    r := Success(canvas);
  }
}
