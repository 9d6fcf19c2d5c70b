# Smartphone mockup generator: a Dafny model

The program places an app screenshot inside a fixed phone-frame image. It works in three steps:

- It scales the screenshot so that it covers the screen area, then centre-crops it (`resize_and_crop`).
- It pastes the result onto a transparent-white canvas at the screen offset, then pastes the frame artwork on top, using the frame's own alpha as the mask (`create_mockup`).
- For a batch of uploads, it writes one `mockup_<name>.png` entry per upload into a zip archive (`create_zip_from_mockups`).

The model has five modules:

- `Wrappers`: `Option` and `Result`, for the points where the program raises an exception.
- `Geometry`: the size arithmetic of `resize_and_crop`. The float ratio test `w / h > tw / th` is the exact cross-multiplication `w * th > tw * h`. Each `int()` truncation is natural-number division, whose result is proved to be the floor of the fraction. The half-integer crop box is kept doubled. A zero `h`, a zero `th`, or a zero `w` ends in `ZeroDivision`: in the width branch a zero `w` means dividing by the ratio 0.0.
- `Raster`: RGBA pixels and images as values, and `Crop`, the sub-image of a whole-pixel box (transparent where the box leaves the image).
- `Mockup`: the fitted screenshot is `FitScreen`, which resizes to exactly the scaled size (`Resize`) and crops the centred box (`Edge`, `Crop`). The canvas is a class over a 2-D array. `Paste` loops over the clipped rectangle and updates the canvas in place. It is proved pixel by pixel against `PastePixel`. `Layer` runs the two pastes and is proved equal to the pure specification `Composite` / `MockupPixel`, and `CreateMockup` runs the same steps as `create_mockup`, in the same order.
- `Archive`: `MockupOf` is one pass of the loop body. The upload loop is a method, proved equal to the pure fold `ZipEntries` with that step. Lemmas cover the fold's order, its entry naming and its abort-on-first-exception behaviour.

The model follows the code on these points:

- There is no single-file output path. One upload still yields a zip with one entry (`SingleUploadIsArchived`).
- There is no per-file error isolation. The first file that cannot be opened or fitted aborts the whole call (`FailureAborts`, `ZipFailureIsFirst`).
- The screenshot paste uses no mask. The screenshot's own alpha is copied, not used as a stencil (`PastePixel` with `NoMask`, `ScreenShowsThrough`).
- The scaled side is truncated with `int()`, not rounded.
- The crop box keeps its half-integer coordinates. The program hands them to the image library as they are, and the library rounds them.

The parts of the image library the model does not open up are parameters:

- `Sampler`: the value of each pixel of the LANCZOS resize. The size of the resized image is modelled: it is exactly the scaled size.
- `HalfRound`: whether the library rounds a half-integer crop edge up or down. Whole-number edges are modelled exactly.
- `Blend`: the masked-paste result at an intermediate mask value.
- `Decoder`: `Image.open` on the uploaded bytes.

## Model

| member | source | states |
|---|---|---|
| `Geometry.ScaledSize` | app.py:13-23 | Division by zero exactly when `w`, `h` or `th` is zero. When the screenshot is relatively wider, the height is `th` and the width is the floor of `th*w/h`, which is at least `tw`. Otherwise the width is `tw` and the height is the floor of `tw*h/w`, which is at least `th`. |
| `Geometry.CenteredBox` | app.py:28-31 | The doubled box is `2*tw` wide and `2*th` high, and its edges sum to twice the scaled width and height: the box is centred. |
| `Geometry.ResizeAndCrop` | app.py:10-32 | Fails exactly when `resize_and_crop` divides by zero. Otherwise its scaled size is the one `ScaledSize` picks. |
| `Geometry.ScaleCovers` | app.py:16-23 | The scaled image is never smaller than the target on either side, and it matches the target exactly on at least one side (cover, never letterbox). |
| `Geometry.CropBoxInsideScaled` | app.py:28-32 | The crop box has exactly the target extent, is centred, and lies inside the scaled image. Along the fitted side it starts at 0. |
| `Geometry.TallScreenshotExample` | app.py:16-31 | A 1000x2000 screenshot for the 750x1624 screen scales to 812x1624, and the crop starts at left = 31 (62 doubled) and top = 0. |
| `Mockup.PastePixel` | app.py:38-39 | A paste without a mask always writes the pasted pixel. A paste masked by the pixel's own alpha writes the pixel at alpha 255 and keeps the canvas pixel at alpha 0. |
| `Mockup.Edge` | app.py:28-32 | A whole-number edge (even when doubled) is used as it is. A half-integer edge becomes one of its two neighbouring whole numbers. |
| `Mockup.Resize` | app.py:25 | The resized image has exactly the requested size, and each of its pixels is the resampled value at that position. |
| `Raster.Crop` | app.py:32 | The cropped image has the box's size. Each pixel is the source pixel at the box offset where the box lies inside the source, and transparent elsewhere. |
| `Mockup.FitScreen` | app.py:36 | Fitting the screenshot fails exactly when the screenshot has a zero side or the screen height is zero. |
| `Mockup.EdgesOrdered` | app.py:28-32 | The rounded edges of a box of extent `t` inside `[0, n]` stay ordered and inside `[0, n]`, and they are `t` apart up to one pixel. They are exactly `t` apart when the box starts at a whole number, or starts at 0, or has extent 0. |
| `Mockup.FittedFromResized` | app.py:25-32 | A fitted screenshot is within one pixel of the screen size on each side and exact on at least one side. It is a window that lies inside the resized screenshot: pixel `(i, j)` is the resized pixel at `(left + i, top + j)`. |
| `Mockup.FittedExactly` | app.py:25-32 | When the crop box starts on whole pixels, the fitted screenshot is exactly the screen size, and pixel `(i, j)` is the resized pixel at `(left + i, top + j)`, where `left` and `top` are the box's left and top edges. |
| `Mockup.ScreenLayer` | app.py:37-38 | Inside the screenshot's rectangle, the canvas after the first paste holds the screenshot pixel at `(x - sx, y - sy)`. Anything other than the fill lies inside that rectangle. |
| `Mockup.MockupPixel` | app.py:37-39 | After the frame paste, a pixel under an opaque frame pixel is the frame pixel. Where the frame is transparent or absent, the pixel is what the first paste left. |
| `Mockup.Composite` | app.py:37-40 | The mockup is exactly the mockup size, whatever the screenshot's size. |
| `Mockup.FrameOccludes` | app.py:39 | Where the frame's alpha is 255, the mockup pixel is the frame pixel, whatever the screenshot holds. |
| `Mockup.ScreenShowsThrough` | app.py:38-39 | Inside the pasted screenshot's rectangle, wherever the frame is transparent or absent, the mockup pixel is the screenshot pixel at `(x - sx, y - sy)`, whatever that pixel's own alpha is. |
| `Mockup.FillRemains` | app.py:37-39 | Outside the screenshot's rectangle, wherever the frame is transparent or absent, the pixel stays the fill `(255,255,255,0)`. |
| `Mockup.Canvas.constructor` | app.py:37 | A new canvas has the requested size, and every pixel holds the fill colour. |
| `Mockup.Canvas.Paste` | app.py:38-39 | Each canvas pixel under the pasted image, clipped to the canvas, becomes the pasted result of its old value and the image pixel at the offset position. Every other pixel is unchanged. |
| `Mockup.Layer` | app.py:37-39 | The two pastes onto a fresh fill canvas leave exactly `Composite` of the screenshot and the frame, at the mockup size. |
| `Mockup.CreateMockup` | app.py:34-40 | Fails exactly when fitting divides by zero, and then reports that error. Otherwise it returns a fresh canvas of the mockup size whose contents equal `Composite` of the fitted screenshot: screenshot pasted first, frame second. |
| `Archive.MockupOf` | app.py:47-48 | An upload that cannot be opened raises the open error. One that opens but cannot be fitted raises the division by zero. Otherwise the mockup has the mockup size. |
| `Archive.ZipEntries` | app.py:46-51 | A produced archive has exactly one entry per upload. |
| `Archive.FailureAborts` | app.py:46-48 | Once processing a prefix of the uploads raises, the whole call ends with that same exception. |
| `Archive.ZipSucceedsIff` | app.py:46-51 | The archive is produced exactly when every upload is processed without an exception. |
| `Archive.ZipEntriesInOrder` | app.py:46-51 | A produced archive has one entry per upload, in upload order. Entry `i` is named `"mockup_" + files[i].name + ".png"` and holds the mockup of upload `i`. |
| `Archive.ZipFailureIsFirst` | app.py:46-48 | A failed call reports the exception of the first upload that raised, and every earlier upload succeeded. |
| `Archive.SingleUploadIsArchived` | app.py:42-53 | A single upload still yields an archive, holding exactly that upload's one entry. |
| `Archive.CreateZipFromMockups` | app.py:42-53 | The loop's result equals `ZipEntries` with `MockupOf` as the step: entries appended in upload order, or the first exception raised. |

## Left out

- The Streamlit page (`main`): title, uploader, download button, and the fixed geometry 864x1728 / 750x1624 / (57, 51). This is user-interface plumbing. Only the screen size 750x1624 appears in the model, in `TallScreenshotExample`. The mockup size 864x1728 and the offset (57, 51) do not appear: they are the parameters `mockupSize`, `sx` and `sy` (the fields of `Archive.Setup`).
- Loading the frame (`load_mockup_image`, app.py:6-8, 58): the frame is the given image `Setup.frame`, and nothing in the model decodes it. The `Image.open` call on each upload (app.py:47) is the `Decoder` parameter. PIL opens files lazily. A decoding error that surfaces later, at the resize, aborts the call the same way and is modelled as `CannotOpen`.
- PNG encoding, the `BytesIO` buffers and the zip file format: these are library I/O. An entry holds the mockup image rather than its PNG bytes. Duplicate names are kept as separate entries, as `zipfile` keeps them.
- The pixel values of the LANCZOS resize: this is floating-point filtering inside the library. It is the `Sampler` parameter.
- The blend at mask values strictly between 0 and 255: this is a library formula. It is the `Blend` parameter.
- Image modes: every image is RGBA in the model. The program converts an RGB or palette screenshot to RGBA inside the paste, after the resize and the crop. The model treats the decoded screenshot as RGBA from the start, and the `Sampler` parameter stands for the resized pixel values. The model does not tell apart two screenshots with the same RGBA colours but different image modes, although the library resizes a palette or bilevel image with a different filter. The frame's alpha band is its mask.
- How PIL behaves when it resizes to a zero width, which happens only for a zero target width: the model does not fail there.
- Geometry.ScaledSize: compares the ratios exactly and truncates the exact fraction. The program compares two floats and truncates a float product. Equal ratios become the same float, so at an exact tie the program takes the width branch, as the model does. Distinct ratios within one rounding error of each other can compare the other way. A float product can also truncate one lower than the exact fraction. For example, a 17x7 screenshot at height 1624 gives width 3943, not 3944. In the width branch, this can make the scaled height `th - 1`: a 2x186 screenshot for a 1x93 target gives height 92. Then the bounds of `ScaleCovers` and `CropBoxInsideScaled` do not hold for the program. For the 750x1624 screen this cannot happen: every exact tie has the ratio 375/812, so the program computes one and the same float, and `750 / (375/812)` is exactly `1624.0`. So the height stays 1624.
- Mockup.FitScreen: the size of the fitted screenshot is exact only up to one pixel when a crop edge is a half-integer, because the library's rounding of that edge is the `HalfRound` parameter. `FittedExactly` gives the exact size and pixels when the box starts on whole pixels.
