/** The two image generators: a header, then one line per pixel, rows top to bottom and each row
    left to right. The gradient mode colours pixel (i, j) by its position; the ray-traced mode
    shades the camera ray through the pixel. The images are defined as lists of lines, and the
    two generators are proved to append exactly those lines to the output. */
module Render {
  import opened Vectors
  import opened Rays
  import opened Text
  import opened Output
  import opened Colors
  import opened Camera

  /** The header of a plain ("P3") PPM image: the magic number, then width and height, then the
      largest channel value. */
  function Header(w: nat, h: nat): seq<string> {
    ["P3", Spaced([w, h]), "255"]
  }

  method WriteHeader(out: Sink, w: nat, h: nat)
    modifies out
    ensures out.lines == old(out.lines) + Header(w, h)
  {
    out.WriteLine("P3");
    out.WriteLine(Spaced([w, h]));
    out.WriteLine("255");
  }

  /** The header's second line reads back as the width and the height. */
  lemma HeaderFields(w: nat, h: nat)
    ensures |Header(w, h)| == 3 && Header(w, h)[0] == "P3" && Header(w, h)[2] == "255"
    ensures ParseNats(Header(w, h)[1]) == Some([w, h])
  {
    SpacedRoundTrip([w, h]);
  }

  /** The characters of the header: "P3\n", "<w> <h>\n", "255\n". */
  lemma HeaderText(w: nat, h: nat, pixels: seq<string>)
    ensures Stream(Header(w, h) + pixels) == "P3\n" + Spaced([w, h]) + "\n" + "255\n" + Stream(pixels)
  {
    StreamAppend(Header(w, h), pixels);
    var size := Spaced([w, h]);
    assert Stream(["255"]) == "255\n" by {
      assert ["255"][1..] == [];
    }
    assert Stream([size, "255"]) == size + "\n" + "255\n" by {
      assert [size, "255"][1..] == ["255"];
    }
    assert Stream(Header(w, h)) == "P3\n" + size + "\n" + "255\n" by {
      assert Header(w, h)[1..] == [size, "255"];
    }
  }

  // ---------------------------------------------------------------------------
  // Scan order

  /** The lines of pixels (0, j) .. (cols - 1, j): one row, left to right. */
  function Row(cols: nat, j: nat, pixel: (nat, nat) -> string): (r: seq<string>)
    ensures |r| == cols
    ensures forall i :: 0 <= i < cols ==> r[i] == pixel(i, j)
  {
    if cols == 0 then [] else Row(cols - 1, j, pixel) + [pixel(cols - 1, j)]
  }

  /** The number of lines in the first j rows of a `w`-wide image, counted row by row. */
  function Offset(w: nat, j: nat): nat {
    if j == 0 then 0 else Offset(w, j - 1) + w
  }

  lemma {:induction false} OffsetIsProduct(w: nat, j: nat)
    ensures Offset(w, j) == j * w
  {
    if j > 0 {
      OffsetIsProduct(w, j - 1);
      assert (j - 1) * w + w == j * w;
    }
  }

  lemma {:induction false} OffsetMonotone(w: nat, j: nat, k: nat)
    requires j <= k
    ensures Offset(w, j) <= Offset(w, k)
  {
    if j < k {
      OffsetMonotone(w, j, k - 1);
    }
  }

  /** The lines of rows 0 .. rows - 1 of a `w`-wide image, top to bottom. */
  function Scan(w: nat, rows: nat, pixel: (nat, nat) -> string): (s: seq<string>)
    ensures |s| == Offset(w, rows)
  {
    if rows == 0 then [] else Scan(w, rows - 1, pixel) + Row(w, rows - 1, pixel)
  }

  lemma {:induction false} ScanAt(w: nat, rows: nat, pixel: (nat, nat) -> string, i: nat, j: nat)
    requires i < w && j < rows
    ensures Offset(w, j) + i < |Scan(w, rows, pixel)|
    ensures Scan(w, rows, pixel)[Offset(w, j) + i] == pixel(i, j)
  {
    if j < rows - 1 {
      ScanAt(w, rows - 1, pixel, i, j);
      OffsetMonotone(w, j + 1, rows - 1);
    }
  }

  /** A `w` by `rows` scan has w * rows lines, and pixel (i, j) is line j * w + i: rows top to
      bottom, each row left to right. */
  lemma PixelLine(w: nat, rows: nat, pixel: (nat, nat) -> string, i: nat, j: nat)
    requires i < w && j < rows
    ensures |Scan(w, rows, pixel)| == w * rows && 0 <= j * w && j * w + i < w * rows
    ensures Scan(w, rows, pixel)[j * w + i] == pixel(i, j)
  {
    ScanAt(w, rows, pixel, i, j);
    OffsetIsProduct(w, j);
    OffsetIsProduct(w, rows);
  }

  /** The same for an image: a 3-line header followed by the scan. */
  lemma ImageLine(hd: seq<string>, w: nat, h: nat, pixel: (nat, nat) -> string, i: nat, j: nat)
    requires |hd| == 3 && i < w && j < h
    ensures |hd + Scan(w, h, pixel)| == 3 + w * h && 0 <= j * w && 3 + j * w + i < 3 + w * h
    ensures (hd + Scan(w, h, pixel))[3 + j * w + i] == pixel(i, j)
  {
    PixelLine(w, h, pixel, i, j);
  }

  /** The same for an image: a 3-line header followed by the scan, whose line 3 + k is pixel
      (k mod w, k div w). */
  lemma ImageLinePixel(hd: seq<string>, w: nat, h: nat, pixel: (nat, nat) -> string, k: nat)
    requires |hd| == 3 && k < w * h
    ensures w > 0 && k / w < h && |hd + Scan(w, h, pixel)| == 3 + w * h
    ensures (hd + Scan(w, h, pixel))[3 + k] == pixel(k % w, k / w)
  {
    LinePixel(w, h, pixel, k);
  }

  /** Conversely, line k of the scan belongs to pixel (k mod w, k div w). */
  lemma LinePixel(w: nat, rows: nat, pixel: (nat, nat) -> string, k: nat)
    requires k < w * rows
    ensures |Scan(w, rows, pixel)| == w * rows && w > 0 && k / w < rows
    ensures Scan(w, rows, pixel)[k] == pixel(k % w, k / w)
  {
    var i, j := DivMod(k, w, rows);
    PixelLine(w, rows, pixel, i, j);
  }

  lemma DivMod(k: nat, w: nat, rows: nat) returns (i: nat, j: nat)
    requires k < w * rows
    ensures w > 0 && i == k % w && j == k / w && i < w && j < rows && k == j * w + i
  {
    i, j := k % w, k / w;
    if j >= rows {
      MulMonotone(rows, j, w);
    }
  }

  lemma AppendAssoc<T>(a: seq<T>, b: seq<T>, c: seq<T>)
    ensures (a + b) + c == a + (b + c)
  {
  }

  lemma MulMonotone(a: nat, b: nat, c: nat)
    requires a <= b
    ensures a * c <= b * c
  {
  }

  // ---------------------------------------------------------------------------
  // Gradient mode

  /** The gradient channel of position `i` among `n`: i / (n - 1), running from 0 at the first
      position to 1 at the last. A one-pixel-wide image divides 0 by 0; the NaN it gets is cast
      to the byte 0, which the stand-in 0.0 also gives. */
  function GradientChannel(i: nat, n: nat): (c: real)
    ensures i < n ==> 0.0 <= c <= 1.0
    ensures i == 0 ==> c == 0.0
    ensures n >= 2 && i == n - 1 ==> c == 1.0
  {
    if n == 1 then 0.0
    else
      UnitFraction(i as real, (n as real) - 1.0);
      (i as real) / ((n as real) - 1.0)
  }

  lemma UnitFraction(p: real, q: real)
    requires q != 0.0
    ensures p == 0.0 ==> p / q == 0.0
    ensures 0.0 <= p <= q ==> 0.0 <= p / q <= 1.0
    ensures p == q ==> p / q == 1.0
  {
    if 0.0 <= p <= q {
      assert (p / q) * q == p;
    }
  }

  /** The gradient colour of pixel (i, j) of a `w` by `h` image: red grows to the right, green
      downwards, blue is 0. */
  function GradientColor(w: nat, h: nat, i: nat, j: nat): Vec3 {
    Vec3(GradientChannel(i, w), GradientChannel(j, h), 0.0)
  }

  function GradientPixel(w: nat, h: nat): (nat, nat) -> string {
    (i: nat, j: nat) => ColorLine(GradientColor(w, h, i, j))
  }

  /** The lines `output_ppm_image` writes for a `w` by `h` image. */
  function GradientImage(w: nat, h: nat): (img: seq<string>)
    ensures |img| >= 3 && img[..3] == Header(w, h)
  {
    Header(w, h) + Scan(w, h, GradientPixel(w, h))
  }

  /** A `w` by `h` gradient image has the header and w * h pixel lines, and line 3 + j * w + i
      holds the colour of pixel (i, j): red i / (w - 1), green j / (h - 1), blue 0. */
  lemma GradientPixelAt(w: nat, h: nat, i: nat, j: nat)
    requires i < w && j < h
    ensures |GradientImage(w, h)| == 3 + w * h && 0 <= j * w && 3 + j * w + i < 3 + w * h
    ensures GradientImage(w, h)[3 + j * w + i] == ColorLine(GradientColor(w, h, i, j))
  {
    PixelLine(w, h, GradientPixel(w, h), i, j);
  }

  /** Conversely, pixel line k of a gradient image, line 3 + k, is the colour of pixel (i, j)
      for i = k mod w and j = k div w. */
  lemma GradientLinePixel(w: nat, h: nat, k: nat, i: nat, j: nat)
    requires k < w * h && w > 0 && i == k % w && j == k / w
    ensures |GradientImage(w, h)| == 3 + w * h && i < w && j < h
    ensures GradientImage(w, h)[3 + k] == ColorLine(GradientColor(w, h, i, j))
  {
    var pixel := GradientPixel(w, h);
    assert GradientImage(w, h) == Header(w, h) + Scan(w, h, pixel);
    ImageLinePixel(Header(w, h), w, h, pixel, k);
  }

  /** Every gradient pixel line reads back as three bytes: the scaled red and green channels and
      a blue of 0. */
  lemma GradientPixelBytes(w: nat, h: nat, i: nat, j: nat)
    ensures ParseNats(ColorLine(GradientColor(w, h, i, j)))
         == Some([ChannelByte(GradientChannel(i, w)), ChannelByte(GradientChannel(j, h)), 0])
  {
    ColorLineReadsBack(GradientColor(w, h, i, j));
  }

  /** The first pixel line, the top-left corner, is black. */
  lemma GradientTopLeftBlack(w: nat, h: nat)
    requires w >= 1 && h >= 1
    ensures |GradientImage(w, h)| == 3 + w * h
    ensures ParseNats(GradientImage(w, h)[3]) == Some([0, 0, 0])
  {
    GradientPixelAt(w, h, 0, 0);
    GradientPixelBytes(w, h, 0, 0);
  }

  /** The last pixel line, the bottom-right corner, is yellow: full red and green. */
  lemma GradientBottomRightYellow(w: nat, h: nat)
    requires w >= 2 && h >= 2
    ensures |GradientImage(w, h)| == 3 + w * h
    ensures ParseNats(GradientImage(w, h)[3 + w * h - 1]) == Some([255, 255, 0])
  {
    GradientPixelAt(w, h, w - 1, h - 1);
    GradientPixelBytes(w, h, w - 1, h - 1);
    LastLine(w, h);
  }

  lemma LastLine(w: nat, h: nat)
    requires w >= 1 && h >= 1
    ensures (h - 1) * w + (w - 1) == w * h - 1
  {
  }

  /** The whole 2 by 2 gradient image, character for character. */
  lemma GradientImageTwoByTwo()
    ensures var img := GradientImage(2, 2);
      |img| == 7 && img[0] == "P3" && ParseNats(img[1]) == Some([2, 2]) && img[2] == "255"
      && ParseNats(img[3]) == Some([0, 0, 0]) && ParseNats(img[4]) == Some([255, 0, 0])
      && ParseNats(img[5]) == Some([0, 255, 0]) && ParseNats(img[6]) == Some([255, 255, 0])
  {
    HeaderFields(2, 2);
    ChannelByteExamples();
    assert GradientChannel(1, 2) == 1.0;
    GradientPixelAt(2, 2, 0, 0);
    GradientPixelBytes(2, 2, 0, 0);
    GradientPixelAt(2, 2, 1, 0);
    GradientPixelBytes(2, 2, 1, 0);
    GradientPixelAt(2, 2, 0, 1);
    GradientPixelBytes(2, 2, 0, 1);
    GradientPixelAt(2, 2, 1, 1);
    GradientPixelBytes(2, 2, 1, 1);
  }

  /** `output_ppm_image`: the header, then for each row j and each column i the gradient colour of
      pixel (i, j), one line each. */
  method OutputPpmImage(out: Sink, w: nat, h: nat)
    modifies out
    ensures out.lines == old(out.lines) + GradientImage(w, h)
  {
    WriteHeader(out, w, h);
    ghost var pixel := GradientPixel(w, h);
    ghost var written := out.lines;
    var j := 0;
    while j < h
      invariant j <= h
      invariant out.lines == written + Scan(w, j, pixel)
    {
      ghost var rowStart := out.lines;
      var i := 0;
      while i < w
        invariant i <= w
        invariant out.lines == rowStart + Row(i, j, pixel)
      {
        var color := Vec3(GradientChannel(i, w), GradientChannel(j, h), 0.0);
        WriteColor(out, color);
        assert ColorLine(color) == pixel(i, j);
        AppendAssoc(rowStart, Row(i, j, pixel), [pixel(i, j)]);
        i := i + 1;
      }
      AppendAssoc(written, Scan(w, j, pixel), Row(w, j, pixel));
      j := j + 1;
    }
  }

  // ---------------------------------------------------------------------------
  // Ray-traced mode

  function TracedPixel(v: Viewport): (nat, nat) -> string {
    (i: nat, j: nat) => ColorLine(RayColor(PixelRay(v, i as real, j as real)))
  }

  /** The lines `ray_output_ppm_image` writes for a `w` by `h` image; an image with no pixels has
      only the header. */
  function RayImage(w: nat, h: nat): (img: seq<string>)
    ensures |img| >= 3 && img[..3] == Header(w, h)
  {
    Header(w, h) + if w > 0 && h > 0 then Scan(w, h, TracedPixel(SetUpViewport(w as real, h as real))) else []
  }

  /** For every size, empty ones included, each image is the header followed by exactly w * h
      pixel lines; with a width or a height of 0 it is the header alone. */
  lemma ImageLineCount(w: nat, h: nat)
    ensures |GradientImage(w, h)| == 3 + w * h && |RayImage(w, h)| == 3 + w * h
    ensures w == 0 || h == 0 ==> GradientImage(w, h) == Header(w, h) && RayImage(w, h) == Header(w, h)
  {
    OffsetIsProduct(w, h);
    if w == 0 || h == 0 {
      assert Scan(w, h, GradientPixel(w, h)) == [];
      assert Header(w, h) + [] == Header(w, h);
    }
  }

  /** A `w` by `h` ray-traced image has the header and w * h pixel lines, and line 3 + j * w + i
      holds the shade of the ray through pixel (i, j) of the viewport set up for that size. */
  lemma RayPixelAt(w: nat, h: nat, i: nat, j: nat)
    requires i < w && j < h
    ensures |RayImage(w, h)| == 3 + w * h && 0 <= j * w && 3 + j * w + i < 3 + w * h
    ensures RayImage(w, h)[3 + j * w + i] == TracedPixel(SetUpViewport(w as real, h as real))(i, j)
  {
    var v := SetUpViewport(w as real, h as real);
    assert w > 0 && h > 0;
    assert RayImage(w, h) == Header(w, h) + Scan(w, h, TracedPixel(v));
    ImageLine(Header(w, h), w, h, TracedPixel(v), i, j);
  }

  /** Conversely, pixel line k of a ray-traced image, line 3 + k, is the shade of pixel (i, j)
      for i = k mod w and j = k div w. */
  lemma RayLinePixel(w: nat, h: nat, k: nat, i: nat, j: nat)
    requires k < w * h && w > 0 && i == k % w && j == k / w
    ensures |RayImage(w, h)| == 3 + w * h && i < w && j < h
    ensures RayImage(w, h)[3 + k] == TracedPixel(SetUpViewport(w as real, h as real))(i, j)
  {
    var v := SetUpViewport(w as real, h as real);
    assert w > 0 && h > 0;
    assert RayImage(w, h) == Header(w, h) + Scan(w, h, TracedPixel(v));
    ImageLinePixel(Header(w, h), w, h, TracedPixel(v), k);
  }

  /** Every ray-traced pixel line reads back as three bytes with blue 255 and red at most green:
      the sky is a blend of white and light blue, and no channel saturates below 0. */
  lemma TracedPixelBytes(v: Viewport, W: real, H: real, i: nat, j: nat)
    requires ViewportShape(v, W, H)
    ensures var c := RayColor(PixelRay(v, i as real, j as real));
      ParseNats(TracedPixel(v)(i, j)) == Some([ChannelByte(c.x), ChannelByte(c.y), 255])
      && ChannelByte(c.x) <= ChannelByte(c.y)
  {
    var c := RayColor(PixelRay(v, i as real, j as real));
    PixelColorInRange(v, W, H, i as real, j as real);
    ChannelByteMonotone(c.x, c.y);
    ColorLineReadsBack(c);
  }

  /** In the ray-traced image itself, line 3 + j * w + i reads back as the bytes of the shade of
      pixel (i, j): blue 255 and red at most green. The viewport `v` it is shaded in is returned,
      with the closed forms of `ViewportShape`. */
  lemma RayPixelBytes(w: nat, h: nat, i: nat, j: nat) returns (v: Viewport)
    requires i < w && j < h
    ensures |RayImage(w, h)| == 3 + w * h && 0 <= j * w && 3 + j * w + i < 3 + w * h
    ensures var c := RayColor(PixelRay(v, i as real, j as real));
      ParseNats(RayImage(w, h)[3 + j * w + i]) == Some([ChannelByte(c.x), ChannelByte(c.y), 255])
      && ChannelByte(c.x) <= ChannelByte(c.y)
    ensures v == SetUpViewport(w as real, h as real) && ViewportShape(v, w as real, h as real)
  {
    v := SetUpViewport(w as real, h as real);
    ViewportGeometry(w as real, h as real);
    RayPixelAt(w, h, i, j);
    TracedPixelBytes(v, w as real, h as real, i, j);
  }

  /** `ray_output_ppm_image`: the header, then, when the image has pixels, the viewport constants
      derived once and the pixel loops of `TracePixels`. */
  method RayOutputPpmImage(out: Sink, w: nat, h: nat)
    modifies out
    ensures out.lines == old(out.lines) + RayImage(w, h)
  {
    WriteHeader(out, w, h);
    if w > 0 && h > 0 {
      var v := SetUpViewport(w as real, h as real);
      TracePixels(out, v, w, h);
      AppendAssoc(old(out.lines), Header(w, h), Scan(w, h, TracedPixel(v)));
    } else {
      assert Header(w, h) + [] == Header(w, h);
    }
  }

  /** The pixel loops of `ray_output_ppm_image`: for each row j, top to bottom, the row's pixels. */
  method TracePixels(out: Sink, v: Viewport, w: nat, h: nat)
    modifies out
    ensures out.lines == old(out.lines) + Scan(w, h, TracedPixel(v))
  {
    ghost var written := out.lines;
    var j := 0;
    while j < h
      invariant j <= h
      invariant out.lines == written + Scan(w, j, TracedPixel(v))
    {
      TraceRow(out, v, w, j);
      AppendAssoc(written, Scan(w, j, TracedPixel(v)), Row(w, j, TracedPixel(v)));
      j := j + 1;
    }
  }

  /** The inner loop of `ray_output_ppm_image`: for each column i of row j, the sky shade of the
      ray from the camera through the centre of pixel (i, j), one line each. */
  method TraceRow(out: Sink, v: Viewport, w: nat, j: nat)
    modifies out
    ensures out.lines == old(out.lines) + Row(w, j, TracedPixel(v))
  {
    ghost var pixel := TracedPixel(v);
    ghost var rowStart := out.lines;
    var i := 0;
    while i < w
      invariant i <= w
      invariant out.lines == rowStart + Row(i, j, pixel)
    {
      var ray := PixelRay(v, i as real, j as real);
      var color := RayColor(ray);
      WriteColor(out, color);
      assert ColorLine(color) == pixel(i, j);
      AppendAssoc(rowStart, Row(i, j, pixel), [pixel(i, j)]);
      i := i + 1;
    }
  }
}
