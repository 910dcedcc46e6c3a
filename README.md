# ray_tracing_in_rust: a Dafny model of the renderer's core

The renderer writes a plain-text PPM ("P3") image to an output stream. It has two modes:

- **Gradient mode** (`output_ppm_image`): pixel (i, j) gets red i / (W - 1), green j / (H - 1)
  and blue 0.
- **Ray-traced mode** (`ray_output_ppm_image`): a pinhole camera sits at the origin and looks
  down -z at a viewport one unit away and two units high. The viewport's width follows the
  image's aspect ratio. A ray goes through the centre of every pixel. It is shaded with a
  vertical sky gradient from white to light blue.

Both modes rely on these pieces:
- a three-component vector type (`vec3.rs`)
- a ray (`ray.rs`)
- `write_color` (`color.rs`), which scales each channel by 255.999, casts it to a byte and
  prints "r g b" on one line.

The model is split into seven modules, one file each:

| file | module | models |
|---|---|---|
| `vec3.dfy` | `Vectors` | `Vec3` and its operators, `dot`, `cross`, `length`, `unit_vector` |
| `ray.dfy` | `Rays` | `Ray::new`, the getters, `at` |
| `text.dfy` | `Text` | how `{}` prints an unsigned integer, how `"{} {} {}"` prints a list, and a reader for that text |
| `sink.dfy` | `Output` | the output stream, as a class `Sink` whose `lines` field each write extends |
| `color.dfy` | `Colors` | the channel-to-byte cast and `write_color` |
| `camera.dfy` | `Camera` | the viewport constants, the pixel ray and the sky shade of `ray_output_ppm_image` |
| `render.dfy` | `Render` | the header and the two pixel loops of `output_ppm_image` and `ray_output_ppm_image` |

A few conventions run through the model:
- **Numbers.** Floating point is idealised as `real`. The sizes and indices (`usize`) are `nat`,
  converted with `as real` where the renderer converts with `as f64`.
- **Lines.** Every line the renderer writes ends in exactly one `\n`. So the stream is modelled
  as its list of lines, and `Output.Stream` gives the characters.
- **The `length` quirk is kept.** `length` returns `dot(a, a)`, the squared magnitude, and
  `unit_vector` divides by it. So `unit_vector` only normalises vectors whose magnitude is
  already 1. `UnitVectorScales` and `RayColorLongerIsPaler` state the consequences.
- **Images as values.** `GradientImage(w, h)` and `RayImage(w, h)` define each image as a list of
  lines: the three header lines, then one line per pixel, rows top to bottom and each row left
  to right. The imperative loops are proved to append exactly those lines. The lemmas about the
  images say which line holds which pixel, and what each line reads back as.

## Model

| member | source | states |
|---|---|---|
| Vectors.Add | src/vec3.rs:50-55 | `a + b`, component by component; commutative and undone by `-` (AddCommutative, AddSubCancel) |
| Vectors.AddScalar | src/vec3.rs:57-62 | `a + t` adds the scalar to every component (AddScalarIsAddSplat) |
| Vectors.Sub | src/vec3.rs:64-69 | `a - b`, component by component; inverse of `+`, and `a - a` is zero (AddSubCancel) |
| Vectors.Mul | src/vec3.rs:71-76 | `a * t`, each component times t; `* -1` is negation, and `* t` undoes `/ t` (NegInvolutive, DivMulCancel) |
| Vectors.Div | src/vec3.rs:78-83 | `a / t`, each component divided by t, for t != 0; undone by `* t` (DivMulCancel) |
| Vectors.Neg | src/vec3.rs:85-90 | `-a`, each component negated; an involution and the additive inverse (NegInvolutive) |
| Vectors.Dot | src/vec3.rs:30-32 | the sum of the component products; symmetric and positive definite (DotSymmetric, DotSelfPositiveDefinite) |
| Vectors.Cross | src/vec3.rs:33-39 | the right-handed cross product; anti-commutative and orthogonal to both operands (CrossAntiCommutative, CrossOrthogonal) |
| Vectors.Length | src/vec3.rs:24-26 | `length` is never negative, and it is zero exactly for the zero vector |
| Vectors.UnitVector | src/vec3.rs:40-47 | the zero vector is returned unchanged (no division by zero) |
| Vectors.UnitVectorScales | src/vec3.rs:40-47 | a nonzero vector is scaled by the positive factor 1 / `length`; the result's `dot` with itself is the reciprocal of `length`, so it is not of unit length in general |
| Vectors.UnitVectorFixesUnitLength | src/vec3.rs:40-47 | vectors of magnitude 1 are returned unchanged |
| Vectors.UnitVectorNotNormalising | src/vec3.rs:40-47 | (2, 0, 0) becomes (0.5, 0, 0), whose `length` is 0.25: other vectors are not brought to unit length |
| Vectors.LengthIsSquaredMagnitude | src/vec3.rs:24-26 | `length` is quadratic: scaling by k multiplies it by k*k; `length` of (3, 4, 0) is 25, not 5 |
| Vectors.AddCommutative | src/vec3.rs:52-54 | `+` is component-wise and commutative |
| Vectors.AddSubCancel | src/vec3.rs:52-68 | `(a + b) - b == a` and `a - a` is zero |
| Vectors.AddScalarIsAddSplat | src/vec3.rs:52-61 | adding a scalar adds it to every component, i.e. adds the vector (t, t, t), and subtracting that vector undoes it |
| Vectors.NegInvolutive | src/vec3.rs:87-89 | `-(-a) == a`, `-a == a * -1` and `a + (-a)` is zero |
| Vectors.DivMulCancel | src/vec3.rs:73-82 | for a nonzero scalar, `(a / t) * t == a` |
| Vectors.DotSymmetric | src/vec3.rs:30-32 | `dot(a, b) == dot(b, a)` |
| Vectors.DotSelfPositiveDefinite | src/vec3.rs:30-32 | `dot(a, a) >= 0`, with equality exactly for the zero vector |
| Vectors.CrossAntiCommutative | src/vec3.rs:33-39 | `cross(a, b) == -cross(b, a)` and `cross(a, a)` is zero |
| Vectors.CrossOrthogonal | src/vec3.rs:33-39 | `cross(a, b)` is orthogonal to both a and b |
| Rays.New | src/ray.rs:10-12 | stores origin and direction unchecked; the getters return them (GettersReturnArguments) |
| Rays.Origin | src/ray.rs:14-16 | the stored origin (GettersReturnArguments, AtEndpoints) |
| Rays.Direction | src/ray.rs:18-20 | the stored direction (GettersReturnArguments, AtAffine) |
| Rays.At | src/ray.rs:22-24 | origin + direction * t; affine in t, the origin at 0 (AtAffine, AtEndpoints, AtZeroDirection) |
| Rays.GettersReturnArguments | src/ray.rs:10-20 | `origin()` and `direction()` return what `new` stored, and a ray is rebuilt from its getters |
| Rays.AtEndpoints | src/ray.rs:22-24 | `at(0)` is the origin and `at(1)` is origin + direction |
| Rays.AtAffine | src/ray.rs:22-24 | `at(s) - at(t) == direction * (s - t)` |
| Rays.AtZeroDirection | src/ray.rs:22-24 | with a zero direction every `at(t)` is the origin |
| Text.Decimal | src/color.rs:9 | `{}` of an unsigned integer is a nonempty digit string with a leading zero only for 0, which prints as "0" |
| Text.DecimalRoundTrip | src/color.rs:9 | reading back the printed digits of n gives n |
| Text.Spaced | src/color.rs:9 | a space-separated list of numbers contains only digits and spaces |
| Text.SpacedRoundTrip | src/color.rs:9 | reading back a printed nonempty list of numbers gives that list, in order |
| Output.Sink.WriteLine | src/main.rs:25-27 | a write appends exactly one line to the stream |
| Output.StreamAppend | src/main.rs:25-27 | the characters of two batches of lines are the first batch's followed by the second's |
| Colors.SaturatingU8 | src/color.rs:5-7 | the float-to-`u8` cast lands in 0..255: 0 below 1, 255 from 255 up, and the floor in between |
| Colors.ChannelByte | src/color.rs:5-7 | a channel maps to a byte; at most 0 gives 0, at least 1 gives 255, and in [0, 1] the byte is the floor of 255.999 times the channel |
| Colors.ChannelByteExamples | src/color.rs:5-7 | 1.0 encodes to 255, 0.0 to 0 and 0.5 to 127 (truncated, not rounded) |
| Colors.ChannelByteMonotone | src/color.rs:5-7 | a brighter channel never gets a smaller byte |
| Colors.ColorLine | src/color.rs:5-9 | the text "r g b" of a colour's three channel bytes; reads back as those bytes (ColorLineReadsBack, ColorLineExample) |
| Colors.ColorLineReadsBack | src/color.rs:4-10 | a colour's line contains no newline and reads back as its three channel bytes in the order r, g, b |
| Colors.ColorLineExample | src/color.rs:4-10 | (1.0, 0.5, 0.0) is printed as "255 127 0" |
| Colors.WriteColor | src/color.rs:4-10 | `write_color` appends exactly the colour's line to the stream |
| Camera.SetUpViewport | src/main.rs:57-80 | the camera is at the origin, the focal length is 1 and the viewport is 2 high |
| Camera.ViewportGeometry | src/main.rs:57-80 | the constants derived for a W by H image have their closed forms: width 2W/H, pixel steps (2/H, 0, 0) and (0, -2/H, 0), upper-left corner (-W/H, 1, -1), first pixel ((1-W)/H, 1-1/H, -1) |
| Camera.ViewportShapeForms | src/main.rs:60-80 | the viewport has the image's aspect ratio, the horizontal step is width / W (square pixels), and the first pixel is half a step inside the corner |
| Camera.PixelRay | src/main.rs:96-98 | the ray from the camera through first pixel + du * i + dv * j; its closed form, order and symmetry are in PixelRayClosedForm, PixelRayMonotone, PixelRaysInsideViewport |
| Camera.PixelRayClosedForm | src/main.rs:96-98 | the ray through pixel (i, j) starts at the camera and has direction ((2i+1-W)/H, (H-2j-1)/H, -1) |
| Camera.PixelRayMonotone | src/main.rs:96-98 | moving right strictly increases the ray's x and moving down strictly decreases its y, each independent of the other index (both directions of each equivalence) |
| Camera.PixelRaysInsideViewport | src/main.rs:75-98 | every pixel's ray passes strictly inside the viewport rectangle, and pixel (W-1-i, H-1-j) mirrors pixel (i, j) through the viewport centre |
| Camera.SkyParam | src/main.rs:100-101 | the y of the ray's `unit_vector`, mapped by t / 2 + 1 / 2; in [0.25, 0.75] for every pixel ray (SkyParamOneDeep, BlendBounds, PixelColorInRange) |
| Camera.RayColor | src/main.rs:100-102 | the shade is white blended toward (0.5, 0.7, 1) by the parameter t: blue is 1, red 1 - 0.5t and green 1 - 0.3t, and for t in [0, 1] each channel lies between the two end colours |
| Camera.RayColorIgnoresOrigin | src/main.rs:98-102 | the shade depends on the ray's direction only |
| Camera.RayColorEnds | src/main.rs:101-102 | parameter 0 gives white and parameter 1 gives sky blue |
| Camera.RayColorStraightUpAndDown | src/main.rs:100-102 | a ray straight up is sky blue and one straight down is white |
| Camera.RayColorLongerIsPaler | src/main.rs:100-102 | because `unit_vector` divides by the squared length, the upward ray (0, 2, 0) gets parameter 0.75 and colour (0.625, 0.775, 1) |
| Camera.SkyParamOneDeep | src/main.rs:100-101 | for a ray one unit deep, as all pixel rays are, `unit_vector` divides by 1 + x^2 + y^2, and the blend parameter is y / (1 + x^2 + y^2) / 2 + 1/2 |
| Camera.BlendBounds | src/main.rs:100-101 | that blend parameter lies in [0.25, 0.75] for every x and y |
| Camera.PixelColorInRange | src/main.rs:96-102 | every pixel's blend parameter lies in [0.25, 0.75], so its shade has red and green in [0, 1] and blue exactly 1 |
| Render.Header | src/main.rs:25-27 | the three header lines "P3", "<w> <h>", "255" (HeaderFields, HeaderText) |
| Render.WriteHeader | src/main.rs:25-27 | the three header lines are appended in order |
| Render.HeaderFields | src/main.rs:25-27 | the header is "P3", then a line reading back as [width, height], then "255" |
| Render.HeaderText | src/main.rs:25-27 | the characters of the stream start with "P3\n", "<w> <h>\n" and "255\n" |
| Render.Row | src/main.rs:30-40 | a row of `cols` pixels has `cols` lines, and line i is pixel (i, j) |
| Render.Scan | src/main.rs:29-41 | the scan of `rows` rows has one line per pixel, counted row by row |
| Render.ScanAt | src/main.rs:29-41 | pixel (i, j) is line Offset(w, j) + i of the scan |
| Render.PixelLine | src/main.rs:29-41 | a w by h scan has w*h lines, and pixel (i, j) is line j*w + i |
| Render.LinePixel | src/main.rs:29-41 | conversely, line k is pixel (k mod w, k div w) |
| Render.ImageLinePixel | src/main.rs:25-41 | after a 3-line header, line 3 + k is pixel (k mod w, k div w) |
| Render.GradientChannel | src/main.rs:33-37 | i / (n - 1) lies in [0, 1] for i < n; it is 0 at the first position and 1 at the last |
| Render.GradientColor | src/main.rs:33-37 | pixel (i, j) is coloured (i/(w-1), j/(h-1), 0) (GradientChannel, GradientPixelBytes) |
| Render.GradientImage | src/main.rs:25-41 | the gradient image starts with the header |
| Render.GradientPixelAt | src/main.rs:29-39 | the gradient image has 3 + w*h lines, and line 3 + j*w + i is the line of colour (i/(w-1), j/(h-1), 0) |
| Render.GradientLinePixel | src/main.rs:29-39 | conversely, line 3 + k of the gradient image is the colour of pixel (k mod w, k div w) |
| Render.GradientPixelBytes | src/main.rs:33-39 | every gradient line reads back as the scaled red and green channels and a blue of 0 |
| Render.GradientTopLeftBlack | src/main.rs:29-39 | the first pixel line reads back as 0 0 0 |
| Render.GradientBottomRightYellow | src/main.rs:29-39 | for w, h >= 2 the last pixel line reads back as 255 255 0 |
| Render.GradientImageTwoByTwo | src/main.rs:25-41 | the 2 by 2 image has 7 lines: "P3", "2 2", "255", then black, red, green and yellow |
| Render.OutputPpmImage | src/main.rs:10-46 | `output_ppm_image` appends exactly the gradient image to the stream |
| Render.TracedPixel | src/main.rs:96-104 | the line of pixel (i, j) is the shade of the ray through it; it reads back with blue 255 (TracedPixelBytes) |
| Render.RayImage | src/main.rs:88-106 | the ray-traced image starts with the header |
| Render.ImageLineCount | src/main.rs:25-106 | for every size, 0 included, both images have the 3 header lines and exactly w*h pixel lines; with a width or height of 0 only the header is written |
| Render.RayPixelAt | src/main.rs:92-104 | the ray-traced image has 3 + w*h lines, and line 3 + j*w + i is the shade of the ray through pixel (i, j) |
| Render.RayLinePixel | src/main.rs:92-104 | conversely, line 3 + k of the ray-traced image is the shade of pixel (k mod w, k div w) |
| Render.TracedPixelBytes | src/main.rs:96-104 | every ray-traced line reads back with blue 255 and red at most green |
| Render.RayPixelBytes | src/main.rs:57-104 | line 3 + j*w + i of the ray-traced image reads back with blue 255 and red at most green, shaded in the viewport set up for that size |
| Render.RayOutputPpmImage | src/main.rs:48-111 | `ray_output_ppm_image` appends exactly the ray-traced image to the stream |
| Render.TracePixels | src/main.rs:92-106 | the outer pixel loop appends the scan of the shaded pixel lines |
| Render.TraceRow | src/main.rs:93-105 | the inner pixel loop appends one row of shaded pixel lines |

## Left out

- `main` (src/main.rs:113-135) is not modelled:
  - reading the command-line arguments
  - the 256 by 256 default, which also applies when exactly one argument is given
  - the panic on an argument that is not a non-negative integer
  - the choice of the ray-traced mode

  All of these are process-level I/O.
- The progress and completion messages on the error stream are not modelled, because they are diagnostic output only. This covers src/main.rs:19-23, 31 and 43, and src/main.rs:82-86 and 108.
- `io::Result` is not modelled: writes to the stream cannot fail here. An I/O failure would end the render after a prefix of the lines has been written.
- Floating-point rounding, infinities and NaN are not modelled: all arithmetic is on reals. So the byte of a channel is the exact floor of 255.999 times the channel, where the renderer may round differently at a boundary.
- `length_squared` (src/vec3.rs:27-29) is not modelled, because it takes a square root, which has no real-valued counterpart here. It is not called anywhere.
- The `Display` impl for `Vec3` (src/vec3.rs:92-96) is not modelled, because the renderer never uses it.
- `Vec3::new` and the getters `x()`, `y()`, `z()` are the datatype's constructor and destructors. They have no members of their own.
- Render.GradientChannel: when the image is one pixel wide or high, the renderer divides 0.0 by 0.0. The NaN it gets is cast to the byte 0. The model uses 0.0 for that channel, which encodes to the same byte.
- Render.RayOutputPpmImage: the renderer derives the viewport constants before the loops even when the width or height is 0. Some of them are then infinite or NaN (from x / 0 or 0 / 0), and none is used. The model derives them only when both sizes are positive, and writes the same lines.
- Camera.SetUpViewport: the viewport centre `camera_origin - (0, 0, focal_length)` is computed as the equal sum `camera_origin + (0, 0, -focal_length)`.
- Render.TracePixels and Render.TraceRow are the two loops of `ray_output_ppm_image`, split into methods of their own. Render.WriteHeader is the three header writes that both modes share, also split into a method of its own. The lines written and their order are those of the renderer.
