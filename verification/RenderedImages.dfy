// A photo in the panel's own pixel format, and the two ways of making one.
module RenderedImages {
  import opened Wrappers
  import opened CardCache

  type Pixel = bv16

  datatype RenderedImage = RenderedImage(width: nat, height: nat, rgb565: seq<Pixel>, id: Option<string>)

  datatype ImageError = WrongLength(actual: nat, expected: nat)

  function New(width: nat, height: nat, rgb565: seq<Pixel>): Result<RenderedImage, ImageError> {
    if |rgb565| != width * height then Failure(WrongLength(|rgb565|, width * height))
    else Success(RenderedImage(width, height, rgb565, None))
  }

  function WithId(image: RenderedImage, id: string): RenderedImage {
    image.(id := if id == "" then None else Some(id))
  }

  // The frame's own conversion from decoded triplets.

  function PackTriplet(r: Byte, g: Byte, b: Byte): Pixel {
    ((r >> 3) as bv16 << 11) | ((g >> 2) as bv16 << 5) | (b >> 3) as bv16
  }

  function PackAll(rgb8: seq<Byte>): seq<Pixel> {
    if |rgb8| < 3 then []
    else [PackTriplet(rgb8[0], rgb8[1], rgb8[2])] + PackAll(rgb8[3..])
  }

  function FromRgb8(width: nat, height: nat, rgb8: seq<Byte>): Result<RenderedImage, ImageError> {
    if |rgb8| != width * height * 3 then Failure(WrongLength(|rgb8|, width * height * 3))
    else New(width, height, PackAll(rgb8))
  }

  // The controller's pixels, read as they arrive: low byte first.

  function FromLittleEndian(low: Byte, high: Byte): Pixel {
    low as bv16 | (high as bv16 << 8)
  }

  function ReadPixels(bytes: seq<Byte>): seq<Pixel> {
    if |bytes| < 2 then []
    else [FromLittleEndian(bytes[0], bytes[1])] + ReadPixels(bytes[2..])
  }

  function FromRgb565Bytes(bytes: seq<Byte>): Result<RenderedImage, ImageError> {
    if |bytes| != PHOTO_BYTES then Failure(WrongLength(|bytes|, PHOTO_BYTES))
    else New(PANEL_LOGICAL_WIDTH, PANEL_LOGICAL_HEIGHT, ReadPixels(bytes))
  }

  function LowByte(p: Pixel): Byte {
    (p & 0xFF) as bv8
  }

  function HighByte(p: Pixel): Byte {
    (p >> 8) as bv8
  }

  /** The bytes that spell out `pixels`, low byte first. */
  function WritePixels(pixels: seq<Pixel>): (bytes: seq<Byte>)
    ensures |bytes| == 2 * |pixels|
  {
    if pixels == [] then []
    else [LowByte(pixels[0]), HighByte(pixels[0])] + WritePixels(pixels[1..])
  }

  // The controller's conversion.

  function PackMasked(r: Byte, g: Byte, b: Byte): Pixel {
    ((r as bv16 & 0xF8) << 8) | ((g as bv16 & 0xFC) << 3) | (b as bv16 >> 3)
  }

  /** Shifting channels down and masking them in place give the same pixel. */
  lemma PackingsAgree(r: Byte, g: Byte, b: Byte)
    ensures PackMasked(r, g, b) == PackTriplet(r, g, b)
  {
  }

  function Top5(channel: Byte): Byte { channel >> 3 }
  function Top6(channel: Byte): Byte { channel >> 2 }

  function RedOf(p: Pixel): Byte { (p >> 11) as bv8 }
  function GreenOf(p: Pixel): Byte { ((p >> 5) & 0x3F) as bv8 }
  function BlueOf(p: Pixel): Byte { (p & 0x1F) as bv8 }

  function Join(red: Byte, green: Byte, blue: Byte): Pixel {
    (red as bv16 << 11) | (green as bv16 << 5) | blue as bv16
  }

  lemma ChannelsUnpack(r: Byte, g: Byte, b: Byte)
    ensures RedOf(PackTriplet(r, g, b)) == Top5(r)
    ensures GreenOf(PackTriplet(r, g, b)) == Top6(g)
    ensures BlueOf(PackTriplet(r, g, b)) == Top5(b)
    ensures PackTriplet(r, g, b) == Join(Top5(r), Top6(g), Top5(b))
  {
  }

  /** A pixel keeps the top five, six and five bits of its channels, and nothing else. */
  lemma PixelKeepsTopBits(r: Byte, g: Byte, b: Byte, r': Byte, g': Byte, b': Byte)
    ensures PackTriplet(r, g, b) == PackTriplet(r', g', b')
       <==> Top5(r) == Top5(r') && Top6(g) == Top6(g') && Top5(b) == Top5(b')
  {
    hide *;
    ChannelsUnpack(r, g, b);
    ChannelsUnpack(r', g', b');
  }

  lemma BytesRejoin(p: Pixel)
    ensures FromLittleEndian(LowByte(p), HighByte(p)) == p
  {
  }

  lemma BytesResplit(low: Byte, high: Byte)
    ensures LowByte(FromLittleEndian(low, high)) == low
    ensures HighByte(FromLittleEndian(low, high)) == high
  {
  }

  lemma {:induction false} WrittenPixelsReadBack(pixels: seq<Pixel>)
    ensures ReadPixels(WritePixels(pixels)) == pixels
  {
    if pixels != [] {
      BytesRejoin(pixels[0]);
      assert WritePixels(pixels)[2..] == WritePixels(pixels[1..]);
      WrittenPixelsReadBack(pixels[1..]);
    }
  }

  lemma {:induction false} ReadPixelsWriteBack(bytes: seq<Byte>)
    requires |bytes| % 2 == 0
    ensures WritePixels(ReadPixels(bytes)) == bytes
    ensures |ReadPixels(bytes)| == |bytes| / 2
  {
    if bytes != [] {
      BytesResplit(bytes[0], bytes[1]);
      ReadPixelsWriteBack(bytes[2..]);
      assert bytes == [bytes[0], bytes[1]] + bytes[2..];
    }
  }

  lemma {:induction false} PackedLength(rgb8: seq<Byte>)
    ensures |PackAll(rgb8)| == |rgb8| / 3
  {
    if |rgb8| >= 3 {
      PackedLength(rgb8[3..]);
    }
  }

  lemma {:induction false} PackAppend(rgb8: seq<Byte>, r: Byte, g: Byte, b: Byte)
    requires |rgb8| % 3 == 0
    ensures PackAll(rgb8 + [r, g, b]) == PackAll(rgb8) + [PackTriplet(r, g, b)]
  {
    var all := rgb8 + [r, g, b];
    if rgb8 == [] {
      assert all == [r, g, b];
      assert PackAll(all[3..]) == [];
    } else {
      assert all[3..] == rgb8[3..] + [r, g, b];
      PackAppend(rgb8[3..], r, g, b);
    }
  }

  lemma {:induction false} WriteAppend(pixels: seq<Pixel>, p: Pixel)
    ensures WritePixels(pixels + [p]) == WritePixels(pixels) + [LowByte(p), HighByte(p)]
  {
    if pixels == [] {
      assert pixels + [p] == [p];
      assert WritePixels([p][1..]) == [];
    } else {
      assert (pixels + [p])[1..] == pixels[1..] + [p];
      WriteAppend(pixels[1..], p);
    }
  }

  lemma NextTriplet(pixels: seq<Byte>, i: nat)
    requires i % 3 == 0 && i + 3 <= |pixels|
    ensures PackAll(pixels[..i + 3])
         == PackAll(pixels[..i]) + [PackMasked(pixels[i], pixels[i + 1], pixels[i + 2])]
    ensures |PackAll(pixels[..i])| == i / 3
  {
    hide PackTriplet, PackMasked;
    PackingsAgree(pixels[i], pixels[i + 1], pixels[i + 2]);
    assert pixels[..i + 3] == pixels[..i] + [pixels[i], pixels[i + 1], pixels[i + 2]];
    PackAppend(pixels[..i], pixels[i], pixels[i + 1], pixels[i + 2]);
    PackedLength(pixels[..i]);
  }

  /** The controller's byte loop writes out the very pixels the frame would have packed. */
  method ToRgb565(pixels: seq<Byte>) returns (out: array<Byte>)
    requires |pixels| % 3 == 0
    ensures out[..] == WritePixels(PackAll(pixels))
  {
    hide PackAll, PackMasked, LowByte, HighByte;
    out := new Byte[|pixels| / 3 * 2];
    var i := 0;
    ghost var done: seq<Pixel> := [];
    assert PackAll(pixels[..0]) == [] by {
      PackedLength(pixels[..0]);
    }
    while i < |pixels|
      invariant i % 3 == 0 && 0 <= i <= |pixels|
      invariant done == PackAll(pixels[..i]) && |done| == i / 3
      invariant out[..i / 3 * 2] == WritePixels(done)
    {
      var value := PackMasked(pixels[i], pixels[i + 1], pixels[i + 2]);
      out[i / 3 * 2] := LowByte(value);
      out[i / 3 * 2 + 1] := HighByte(value);
      NextTriplet(pixels, i);
      WriteAppend(done, value);
      done := done + [value];
      i := i + 3;
    }
    assert pixels[..i] == pixels;
    assert out[..] == out[..i / 3 * 2];
  }

  lemma {:induction false} PackedAt(rgb8: seq<Byte>, k: nat)
    requires 3 * k + 2 < |rgb8|
    ensures k < |PackAll(rgb8)|
    ensures PackAll(rgb8)[k] == PackTriplet(rgb8[3 * k], rgb8[3 * k + 1], rgb8[3 * k + 2])
  {
    hide PackTriplet;
    if k > 0 {
      PackedAt(rgb8[3..], k - 1);
    }
  }

  /** Triplets make an image of any size if and only if there are exactly as many as it has
      pixels, and then each pixel keeps its triplet's top bits; the refusal says what was
      given and what was wanted. */
  lemma Rgb8BytesAreAnImage(width: nat, height: nat, rgb8: seq<Byte>)
    ensures var r := FromRgb8(width, height, rgb8);
      if |rgb8| != 3 * (width * height) then r == Failure(WrongLength(|rgb8|, 3 * (width * height)))
      else
        && r.Success? && r.value.width == width && r.value.height == height && r.value.id == None
        && |r.value.rgb565| == width * height
        && forall k :: 0 <= k < width * height ==>
             r.value.rgb565[k] == Join(Top5(rgb8[3 * k]), Top6(rgb8[3 * k + 1]), Top5(rgb8[3 * k + 2]))
  {
    PackedLength(rgb8);
    hide PackAll, PackTriplet, Join, Top5, Top6;
    if |rgb8| == 3 * (width * height) {
      forall k | 0 <= k < width * height
        ensures PackAll(rgb8)[k] == Join(Top5(rgb8[3 * k]), Top6(rgb8[3 * k + 1]), Top5(rgb8[3 * k + 2]))
      {
        PackedAt(rgb8, k);
        ChannelsUnpack(rgb8[3 * k], rgb8[3 * k + 1], rgb8[3 * k + 2]);
      }
    }
  }

  /** Converted by the controller and read by the frame, or converted by the
      frame: the same photo, and the same refusal of the wrong size. */
  lemma PixelPathsAgree(rgb8: seq<Byte>)
    requires |rgb8| % 3 == 0
    ensures var local := FromRgb8(PANEL_LOGICAL_WIDTH, PANEL_LOGICAL_HEIGHT, rgb8);
            var remote := FromRgb565Bytes(WritePixels(PackAll(rgb8)));
            (local.Success? <==> remote.Success?) && (local.Success? ==> local.value == remote.value)
  {
    PackedLength(rgb8);
    WrittenPixelsReadBack(PackAll(rgb8));
  }

  /** Bytes of the right length always make a photo, and it spells the same bytes. */
  lemma PhotoBytesAreAPhoto(bytes: seq<Byte>)
    ensures FromRgb565Bytes(bytes).Success? <==> |bytes| == PHOTO_BYTES
    ensures |bytes| != 2_048_000 ==> FromRgb565Bytes(bytes) == Failure(WrongLength(|bytes|, 2_048_000))
    ensures |bytes| == PHOTO_BYTES ==> WritePixels(FromRgb565Bytes(bytes).value.rgb565) == bytes
  {
    if |bytes| == PHOTO_BYTES {
      ReadPixelsWriteBack(bytes);
    }
  }
}
