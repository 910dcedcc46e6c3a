/** Turning a colour into one line of the image: each channel scaled to a byte, the three bytes
    printed as decimals. */
module Colors {
  import opened Vectors
  import opened Text
  import opened Output

  /** The factor a channel is multiplied by before the cast, so that 1.0 lands just below 256. */
  const Scale: real := 255.999

  /** A float-to-`u8` cast: truncation toward zero, saturating at 0 below and 255 above.
      Over the reals this is the floor inside [0, 256) and a clamp outside it. */
  function SaturatingU8(v: real): (b: nat)
    ensures b <= 255
    ensures v < 1.0 ==> b == 0
    ensures v >= 255.0 ==> b == 255
    ensures 0.0 <= v < 256.0 ==> b as real <= v < b as real + 1.0
  {
    if v <= 0.0 then 0 else if v >= 255.0 then 255 else v.Floor
  }

  /** `(255.999 * c) as u8` for one channel. */
  function ChannelByte(c: real): (b: nat)
    ensures b <= 255
    ensures c <= 0.0 ==> b == 0
    ensures c >= 1.0 ==> b == 255
    ensures 0.0 <= c <= 1.0 ==> b as real <= Scale * c < b as real + 1.0
  {
    SaturatingU8(Scale * c)
  }

  /** 1.0 encodes to 255 and 0.0 to 0; 0.5 encodes to 127, not 128, because the cast truncates
      127.9995 instead of rounding it. */
  lemma ChannelByteExamples()
    ensures ChannelByte(1.0) == 255
    ensures ChannelByte(0.0) == 0
    ensures ChannelByte(0.5) == 127 && Scale * 0.5 > 127.5
  {
    assert Scale * 0.5 == 127.9995;
  }

  /** A brighter channel never encodes to a smaller byte. */
  lemma ChannelByteMonotone(c1: real, c2: real)
    requires c1 <= c2
    ensures ChannelByte(c1) <= ChannelByte(c2)
  {
    var v1, v2 := Scale * c1, Scale * c2;
    assert v1 <= v2;
  }

  /** The text `write_color` prints for a colour: "r g b". */
  function ColorLine(pixelColor: Vec3): string {
    Spaced([ChannelByte(pixelColor.x), ChannelByte(pixelColor.y), ChannelByte(pixelColor.z)])
  }

  /** A colour's line is a single line that reads back as its three channel bytes. */
  lemma ColorLineReadsBack(pixelColor: Vec3)
    ensures ParseNats(ColorLine(pixelColor))
         == Some([ChannelByte(pixelColor.x), ChannelByte(pixelColor.y), ChannelByte(pixelColor.z)])
    ensures forall k :: 0 <= k < |ColorLine(pixelColor)| ==> ColorLine(pixelColor)[k] != '\n'
  {
    SpacedRoundTrip([ChannelByte(pixelColor.x), ChannelByte(pixelColor.y), ChannelByte(pixelColor.z)]);
  }

  /** Full red, half green and no blue is printed as "255 127 0". */
  lemma ColorLineExample()
    ensures ColorLine(Vec3(1.0, 0.5, 0.0)) == "255 127 0"
  {
    ChannelByteExamples();
    assert Decimal(255) == "255" && Decimal(127) == "127";
    assert Spaced([127, 0]) == "127 0" by {
      assert [127, 0][1..] == [0];
    }
    assert [255, 127, 0][1..] == [127, 0];
  }

  /** `write_color`: quantises the three channels and appends exactly one line to `out`. */
  method WriteColor(out: Sink, pixelColor: Vec3)
    modifies out
    ensures out.lines == old(out.lines) + [ColorLine(pixelColor)]
  {
    var r := ChannelByte(pixelColor.x);
    var g := ChannelByte(pixelColor.y);
    var b := ChannelByte(pixelColor.z);
    out.WriteLine(Spaced([r, g, b]));
  }
}
