/**
  ARGB8888 pixels: one 32-bit word per pixel with alpha in the top byte,
  then red, green and blue. Both the frame buffer and every texture hold
  pixels in this layout.
 */
module Argb {

  type Colour = bv32

  function Alpha(c: Colour): bv8
  {
    (c >> 24) as bv8
  }

  function Red(c: Colour): bv8
  {
    ((c >> 16) & 0xFF) as bv8
  }

  function Green(c: Colour): bv8
  {
    ((c >> 8) & 0xFF) as bv8
  }

  function Blue(c: Colour): bv8
  {
    (c & 0xFF) as bv8
  }

  /** Builds a pixel from its four channels; each channel reads back unchanged. */
  function Pack(a: bv8, r: bv8, g: bv8, b: bv8): (c: Colour)
    ensures Alpha(c) == a && Red(c) == r && Green(c) == g && Blue(c) == b
  {
    ((a as bv32) << 24) | ((r as bv32) << 16) | ((g as bv32) << 8) | (b as bv32)
  }

  /** A pixel is nothing but its four channels. */
  lemma PackChannels(c: Colour)
    ensures Pack(Alpha(c), Red(c), Green(c), Blue(c)) == c
  {
  }

  /**
    The darkening applied to walls hit on a horizontal grid line: mask off
    the low bit of every colour channel, shift the word right by one and
    force alpha to opaque. Masking first is what keeps a channel's low bit
    from sliding into the top of its neighbour.
   */
  function Shade(c: Colour): (d: Colour)
    ensures Alpha(d) == 0xFF
    ensures Red(d) == Red(c) >> 1
    ensures Green(d) == Green(c) >> 1
    ensures Blue(d) == Blue(c) >> 1
  {
    ((c & 0xFEFEFE) >> 1) | 0xFF000000
  }

  lemma HalfIsShift(v: bv8)
    ensures v / 2 == v >> 1
  {
  }

  /** Two pixels with the same four channels are the same pixel. */
  lemma ChannelsDetermine(c: Colour, d: Colour)
    requires Alpha(c) == Alpha(d) && Red(c) == Red(d) && Green(c) == Green(d) && Blue(c) == Blue(d)
    ensures c == d
  {
    PackChannels(c);
    PackChannels(d);
  }

  /** One channel of a shaded pixel: if it is the original channel shifted right once, it is the original halved. */
  lemma HalvedChannel(shaded: bv8, original: bv8, target: bv8)
    requires shaded == original >> 1
    requires target == original / 2
    ensures shaded == target
  {
    HalfIsShift(original);
  }

  /** A pixel whose channels are opaque alpha and the halved colour channels of `c` is the shaded `c`. */
  lemma ShadeFromChannels(c: Colour, e: Colour)
    requires Alpha(e) == 0xFF
    requires Red(e) == Red(c) / 2 && Green(e) == Green(c) / 2 && Blue(e) == Blue(c) / 2
    ensures Shade(c) == e
  {
    var d := Shade(c);
    HalvedChannel(Red(d), Red(c), Red(e));
    HalvedChannel(Green(d), Green(c), Green(e));
    HalvedChannel(Blue(d), Blue(c), Blue(e));
    ChannelsDetermine(d, e);
  }

  /** Channel by channel, shading halves red, green and blue and makes the pixel opaque. */
  lemma ShadeHalvesChannels(a: bv8, r: bv8, g: bv8, b: bv8)
    ensures Shade(Pack(a, r, g, b)) == Pack(0xFF, r / 2, g / 2, b / 2)
  {
    ShadeFromChannels(Pack(a, r, g, b), Pack(0xFF, r / 2, g / 2, b / 2));
  }
}
