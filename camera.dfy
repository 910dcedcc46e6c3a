/** The pinhole camera of the ray-traced mode: the viewport geometry derived once from the image
    size, the ray through the centre of each pixel, and the sky gradient each ray is shaded with.
    World x grows to the right and y upwards; pixel column i grows to the right and row j downwards. */
module Camera {
  import opened Vectors
  import opened Rays

  /** The constants derived before the pixel loops. */
  datatype Viewport = Viewport(
    origin: Vec3,
    focalLength: real,
    height: real,
    width: real,
    horizontal: Vec3,
    vertical: Vec3,
    pixelDu: Vec3,
    pixelDv: Vec3,
    center: Vec3,
    upperLeft: Vec3,
    firstPixel: Vec3)

  /** The viewport for a `W` by `H` image (the sizes converted to reals, as the renderer converts
      them to `f64`): the camera at the origin looking down -z, focal length 1, a viewport 2 high;
      what follows from these is stated in `ViewportGeometry`. */
  function SetUpViewport(W: real, H: real): (v: Viewport)
    requires W > 0.0 && H > 0.0
    ensures v.origin == Zero && v.focalLength == 1.0 && v.height == 2.0
  {
    var cameraOrigin := Vec3(0.0, 0.0, 0.0);
    var focalLength := 1.0;
    var viewportHeight := 2.0;
    var viewportWidth := viewportHeight * (W / H);
    var viewportHorizontal := Vec3(viewportWidth, 0.0, 0.0);
    var viewportVertical := Vec3(0.0, -viewportHeight, 0.0);
    var perPixelHorizontal := Div(viewportHorizontal, W);
    var perPixelVertical := Div(viewportVertical, H);
    // camera_origin - (0, 0, focal_length), written as the equal sum with (0, 0, -focal_length)
    var viewportCenter := Add(cameraOrigin, Vec3(0.0, 0.0, -focalLength));
    var upperLeftCorner := Sub(Sub(viewportCenter, Div(viewportHorizontal, 2.0)), Div(viewportVertical, 2.0));
    var firstPixel := Add(Add(upperLeftCorner, Div(perPixelVertical, 2.0)), Div(perPixelHorizontal, 2.0));
    Viewport(cameraOrigin, focalLength, viewportHeight, viewportWidth, viewportHorizontal, viewportVertical,
             perPixelHorizontal, perPixelVertical, viewportCenter, upperLeftCorner, firstPixel)
  }

  /** The closed forms of a `W` by `H` viewport: the viewport is 2W/H wide (the image's aspect
      ratio times its height 2); a pixel covers the same world distance across as down, 2 / H; the
      upper-left corner is half a viewport (W / H) left of and one unit above the centre
      (0, 0, -1); the first sample point is the centre of the top-left pixel, half a pixel step
      right of and below that corner. */
  predicate ViewportShape(v: Viewport, W: real, H: real) {
    && W > 0.0 && H > 0.0
    && v.origin == Zero
    && v.height == 2.0
    && v.width == 2.0 * W / H
    && v.pixelDu == Vec3(2.0 / H, 0.0, 0.0)
    && v.pixelDv == Vec3(0.0, -2.0 / H, 0.0)
    && v.upperLeft == Vec3(-(W / H), 1.0, -1.0)
    && v.firstPixel == Vec3((1.0 - W) / H, 1.0 - 1.0 / H, -1.0)
  }

  /** The viewport set up for a `W` by `H` image has the closed forms of `ViewportShape`. */
  lemma ViewportGeometry(W: real, H: real)
    requires W > 0.0 && H > 0.0
    ensures ViewportShape(SetUpViewport(W, H), W, H)
  {
    var v := SetUpViewport(W, H);
    ViewportSteps(W, H, v.width, v.horizontal, v.vertical, v.center,
                  v.pixelDu, v.pixelDv, v.upperLeft, v.firstPixel);
  }

  /** The same viewport in the terms it is built from: its width over its height is the image's
      aspect ratio, a pixel step across is the viewport's width over W, and the first sample point
      is half a pixel step in from the left edge. */
  lemma ViewportShapeForms(v: Viewport, W: real, H: real)
    requires ViewportShape(v, W, H)
    ensures v.width / v.height == W / H
    ensures v.pixelDu == Vec3(v.width / W, 0.0, 0.0)
    ensures v.firstPixel == Vec3(-v.width / 2.0 + v.width / (2.0 * W), 1.0 - 1.0 / H, -1.0)
  {
    ViewportArithmetic(W, H);
    assert 2.0 * W / H == 2.0 * (W / H);
  }

  /** The steps of `SetUpViewport` for a `W` by `H` image, one hypothesis per step, and where they lead. */
  lemma ViewportSteps(W: real, H: real, vw: real, hz: Vec3, vt: Vec3, c: Vec3, du: Vec3, dv: Vec3, ul: Vec3, fp: Vec3)
    requires W > 0.0 && H > 0.0
    requires vw == 2.0 * (W / H) && hz == Vec3(vw, 0.0, 0.0) && vt == Vec3(0.0, -2.0, 0.0)
    requires c == Vec3(0.0, 0.0, -1.0)
    requires du == Div(hz, W) && dv == Div(vt, H)
    requires ul == Sub(Sub(c, Div(hz, 2.0)), Div(vt, 2.0))
    requires fp == Add(Add(ul, Div(dv, 2.0)), Div(du, 2.0))
    ensures vw == 2.0 * W / H
    ensures du == Vec3(2.0 / H, 0.0, 0.0) && dv == Vec3(0.0, -2.0 / H, 0.0)
    ensures ul == Vec3(-(W / H), 1.0, -1.0)
    ensures fp == Vec3((1.0 - W) / H, 1.0 - 1.0 / H, -1.0)
  {
    ViewportArithmetic(W, H);
    assert du == Vec3(vw / W, 0.0 / W, 0.0 / W);
    assert dv == Vec3(0.0 / H, -2.0 / H, 0.0 / H);
    assert ul == Vec3(-(vw / 2.0), 1.0, -1.0);
    assert fp == Vec3(-(vw / 2.0) + (vw / W) / 2.0, 1.0 + (-2.0 / H) / 2.0, -1.0);
  }

  /** The real-number identities behind the viewport's closed forms, for vw = 2 * (W / H). */
  lemma ViewportArithmetic(W: real, H: real)
    requires W > 0.0 && H > 0.0
    ensures 2.0 * (W / H) == 2.0 * W / H
    ensures 2.0 * (W / H) / W == 2.0 / H
    ensures (2.0 * (W / H)) / 2.0 == W / H
    ensures (2.0 * (W / H) / W) / 2.0 == 2.0 * (W / H) / (2.0 * W) == 1.0 / H
    ensures -(W / H) + 1.0 / H == (1.0 - W) / H
    ensures (-2.0 / H) / 2.0 == -(1.0 / H)
  {
    var q := W / H;
    assert q * H == W;
    ScaleDiv(2.0, W, H);
    CrossDiv(2.0 * q, W, 2.0, H);
    CrossDiv(2.0 * q, 2.0 * W, 1.0, H);
    CrossDiv(2.0 / H, 2.0, 1.0, H);
    CrossDiv(-2.0 / H, 2.0, -1.0, H);
    SumDiv(-W, 1.0, H);
    NegDiv(W, H);
    NegDiv(1.0, H);
  }

  /** x / a == y / b whenever the cross products agree. */
  lemma CrossDiv(x: real, a: real, y: real, b: real)
    requires a != 0.0 && b != 0.0 && x * b == y * a
    ensures x / a == y / b
  {
    var p, q := x / a, y / b;
    assert p * a == x;
    assert q * b == y;
    assert p * a * b == q * b * a;
    assert (p - q) * (a * b) == 0.0;
    assert a * b != 0.0;
  }

  lemma ScaleDiv(k: real, x: real, a: real)
    requires a != 0.0
    ensures k * (x / a) == (k * x) / a
  {
    CrossDiv(k * (x / a), 1.0, k * x, a);
  }

  lemma SumDiv(x: real, y: real, a: real)
    requires a != 0.0
    ensures x / a + y / a == (x + y) / a
  {
    CrossDiv(x / a + y / a, 1.0, x + y, a);
  }

  lemma NegDiv(x: real, a: real)
    requires a != 0.0
    ensures (-x) / a == -(x / a)
  {
    ScaleDiv(-1.0, x, a);
  }

  /** The ray from the camera through the centre of pixel (I, J), column I and row J converted to
      reals. */
  function PixelRay(v: Viewport, I: real, J: real): Ray {
    var viewportPixel := Add(Add(v.firstPixel, Mul(v.pixelDu, I)), Mul(v.pixelDv, J));
    New(v.origin, Sub(viewportPixel, v.origin))
  }

  /** In a viewport of that shape, every pixel ray starts at the camera and points one unit down
      -z, through x = (2I + 1 - W) / H and y = (H - 2J - 1) / H. */
  lemma PixelRayClosedForm(v: Viewport, W: real, H: real, I: real, J: real)
    requires ViewportShape(v, W, H)
    ensures Origin(PixelRay(v, I, J)) == Zero
    ensures Direction(PixelRay(v, I, J)) == Vec3((2.0 * I + 1.0 - W) / H, (H - 2.0 * J - 1.0) / H, -1.0)
  {
    PixelCoordinates(W, H, I, J);
  }

  lemma PixelCoordinates(W: real, H: real, I: real, J: real)
    requires H > 0.0
    ensures (1.0 - W) / H + (2.0 / H) * I == (2.0 * I + 1.0 - W) / H
    ensures 1.0 - 1.0 / H + (-2.0 / H) * J == (H - 2.0 * J - 1.0) / H
  {
    ScaleDiv(I, 2.0, H);
    SumDiv(1.0 - W, I * 2.0, H);
    ScaleDiv(J, -2.0, H);
    assert H / H == 1.0;
    SumDiv(H, -1.0, H);
    SumDiv(H - 1.0, J * -2.0, H);
  }

  /** Moving right along a row strictly increases the ray's x, moving down a column strictly
      decreases its y, and neither depends on the other index. */
  lemma PixelRayMonotone(v: Viewport, W: real, H: real, I: real, J: real, I': real, J': real)
    requires ViewportShape(v, W, H)
    ensures var d, d' := Direction(PixelRay(v, I, J)), Direction(PixelRay(v, I', J'));
      (d.x < d'.x <==> I < I') && (d.y > d'.y <==> J < J') && (d.x == d'.x <==> I == I') && (d.y == d'.y <==> J == J')
  {
    PixelRayClosedForm(v, W, H, I, J);
    PixelRayClosedForm(v, W, H, I', J');
    DivideOrder(2.0 * I + 1.0 - W, 2.0 * I' + 1.0 - W, H);
    DivideOrder(H - 2.0 * J' - 1.0, H - 2.0 * J - 1.0, H);
  }

  lemma DivideOrder(p: real, q: real, d: real)
    requires d > 0.0
    ensures p / d < q / d <==> p < q
    ensures p / d == q / d <==> p == q
  {
    assert (p / d) * d == p && (q / d) * d == q;
    assert q / d - p / d == (q - p) / d;
  }

  /** The sample points of the image's pixels (0 <= I <= W - 1, 0 <= J <= H - 1) lie strictly
      inside the viewport rectangle spanned from its upper-left corner to the opposite one, and the
      image is symmetric: pixel (W-1-I, H-1-J) mirrors pixel (I, J) through the viewport's centre. */
  lemma PixelRaysInsideViewport(v: Viewport, W: real, H: real, I: real, J: real)
    requires ViewportShape(v, W, H)
    requires 0.0 <= I <= W - 1.0 && 0.0 <= J <= H - 1.0
    ensures var d := Direction(PixelRay(v, I, J));
      v.upperLeft.x < d.x < -v.upperLeft.x && -v.upperLeft.y < d.y < v.upperLeft.y
    ensures var d := Direction(PixelRay(v, I, J));
      Direction(PixelRay(v, W - 1.0 - I, H - 1.0 - J)) == Vec3(-d.x, -d.y, -1.0)
  {
    PixelRayClosedForm(v, W, H, I, J);
    PixelRayClosedForm(v, W, H, W - 1.0 - I, H - 1.0 - J);
    var px, py := 2.0 * I + 1.0 - W, H - 2.0 * J - 1.0;
    assert 2.0 * (W - 1.0 - I) + 1.0 - W == -px;
    assert H - 2.0 * (H - 1.0 - J) - 1.0 == -py;
    MirrorInside(W, H, px, py);
  }

  /** For -W < px < W and -H < py < H, the scaled coordinates lie inside (-W/H, W/H) and
      (-1, 1), and negating a coordinate negates its scaled value. */
  lemma MirrorInside(W: real, H: real, px: real, py: real)
    requires H > 0.0 && -W < px < W && -H < py < H
    ensures -(W / H) < px / H < W / H && -1.0 < py / H < 1.0
    ensures (-px) / H == -(px / H) && (-py) / H == -(py / H)
  {
    DivideOrder(-W, px, H);
    DivideOrder(px, W, H);
    DivideOrder(-H, py, H);
    DivideOrder(py, H, H);
    NegDiv(W, H);
    NegDiv(H, H);
    NegDiv(px, H);
    NegDiv(py, H);
    assert H / H == 1.0;
  }

  const White: Vec3 := Vec3(1.0, 1.0, 1.0)
  const SkyBlue: Vec3 := Vec3(0.5, 0.7, 1.0)

  /** The blend parameter: the y of the ray's `unit_vector`, mapped from [-1, 1] to [0, 1]. */
  function SkyParam(r: Ray): real {
    UnitVector(Direction(r)).y * 0.5 + 0.5
  }

  /** The ray-traced shade: white blended toward sky blue by the blend parameter t, so blue is
      always 1, and red and green fall linearly in t from white's toward sky blue's. */
  function RayColor(r: Ray): (c: Vec3)
    ensures c == Vec3(1.0 - 0.5 * SkyParam(r), 1.0 - 0.3 * SkyParam(r), 1.0)
    ensures 0.0 <= SkyParam(r) <= 1.0 ==> SkyBlue.x <= c.x <= White.x && SkyBlue.y <= c.y <= White.y
  {
    var param := SkyParam(r);
    Add(Mul(White, 1.0 - param), Mul(SkyBlue, param))
  }

  /** The shade depends on the direction only, never on the origin. */
  lemma RayColorIgnoresOrigin(o: Vec3, o': Vec3, d: Vec3)
    ensures RayColor(New(o, d)) == RayColor(New(o', d))
  {
  }

  /** The blend's end points: parameter 0 gives white, parameter 1 sky blue. */
  lemma RayColorEnds(r: Ray)
    ensures SkyParam(r) == 0.0 ==> RayColor(r) == White
    ensures SkyParam(r) == 1.0 ==> RayColor(r) == SkyBlue
  {
  }

  /** A ray straight up is sky blue and one straight down is white, whatever the origin. */
  lemma RayColorStraightUpAndDown(o: Vec3)
    ensures RayColor(New(o, Vec3(0.0, 1.0, 0.0))) == SkyBlue
    ensures RayColor(New(o, Vec3(0.0, -1.0, 0.0))) == White
  {
    var up, down := New(o, Vec3(0.0, 1.0, 0.0)), New(o, Vec3(0.0, -1.0, 0.0));
    UnitVectorFixesUnitLength(Direction(up));
    UnitVectorFixesUnitLength(Direction(down));
    assert SkyParam(up) == 1.0;
    assert SkyParam(down) == 0.0;
    RayColorEnds(up);
    RayColorEnds(down);
  }

  /** Because `unit_vector` divides by the squared length, a longer upward ray is paler:
      (0, 2, 0) gets the blend parameter 0.75, not 1. */
  lemma RayColorLongerIsPaler(o: Vec3)
    ensures SkyParam(New(o, Vec3(0.0, 2.0, 0.0))) == 0.75
    ensures RayColor(New(o, Vec3(0.0, 2.0, 0.0))) == Vec3(0.625, 0.775, 1.0)
  {
    var up := Vec3(0.0, 2.0, 0.0);
    assert Length(up) == 4.0;
    assert UnitVector(up) == Vec3(0.0, 0.5, 0.0);
  }

  /** For a ray whose direction has z = -1, as every pixel ray does, the squared length is
      1 + x^2 + y^2, never 0, so the blend parameter is y / (1 + x^2 + y^2) mapped by t / 2 + 1 / 2. */
  lemma SkyParamOneDeep(r: Ray)
    requires Direction(r).z == -1.0
    ensures var d := Direction(r);
      SkyParam(r) == d.y * (1.0 / (d.x * d.x + d.y * d.y + 1.0)) * 0.5 + 0.5
  {
    var d := Direction(r);
    assert d != Zero;
    UnitVectorScales(d);
    assert Length(d) == d.x * d.x + d.y * d.y + 1.0;
  }

  /** The squared length 1 + x^2 + y^2 is at least 2|y|, so the blend parameter of a ray one unit
      deep stays within [1/4, 3/4]. */
  lemma BlendBounds(x: real, y: real)
    ensures 0.25 <= y * (1.0 / (x * x + y * y + 1.0)) * 0.5 + 0.5 <= 0.75
  {
    var len := x * x + y * y + 1.0;
    SquareNonNegative(x);
    SquareNonNegative(y - 1.0);
    SquareNonNegative(y + 1.0);
    assert (y - 1.0) * (y - 1.0) == y * y - 2.0 * y + 1.0;
    assert (y + 1.0) * (y + 1.0) == y * y + 2.0 * y + 1.0;
    assert len >= 1.0;
    assert -len <= 2.0 * y <= len;
    DivideOrder(2.0 * y, len, len);
    DivideOrder(-len, 2.0 * y, len);
    NegDiv(len, len);
    assert len / len == 1.0;
    ScaleDiv(2.0, y, len);
    ScaleDiv(y, 1.0, len);
  }

  /** Every pixel of the ray-traced image gets a blend parameter in [1/4, 3/4], and so a colour
      with all channels in [0, 1] and blue exactly 1: the byte conversion never saturates. */
  lemma PixelColorInRange(v: Viewport, W: real, H: real, I: real, J: real)
    requires ViewportShape(v, W, H)
    ensures 0.25 <= SkyParam(PixelRay(v, I, J)) <= 0.75
    ensures var c := RayColor(PixelRay(v, I, J));
      0.0 <= c.x <= 1.0 && 0.0 <= c.y <= 1.0 && c.z == 1.0
  {
    var r := PixelRay(v, I, J);
    PixelRayClosedForm(v, W, H, I, J);
    SkyParamOneDeep(r);
    BlendBounds(Direction(r).x, Direction(r).y);
  }
}
