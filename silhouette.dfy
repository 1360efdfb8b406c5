/** The silhouette extractor (`generate_bottle_images`): a blurred luminance image,
    row-major as `getdata()` yields it, is thresholded to a 0/255 mask, inverted
    when black outnumbers white, and mapped to a gray sprite on a transparent
    background. */
module Silhouette {

  /** One RGBA pixel; every channel is in 0..255. */
  datatype Rgba = Rgba(r: int, g: int, b: int, a: int)

  /** Mask value of a bottle pixel and of a background pixel. */
  const Bottle: int := 255
  const Background: int := 0

  /** Sprite colour of a bottle pixel and of a background pixel. */
  const Gray := Rgba(150, 150, 150, 255)
  const Transparent := Rgba(0, 0, 0, 0)

  /** Every pixel is either background (0) or bottle (255). */
  predicate IsBinary(mask: seq<int>) {
    forall i :: 0 <= i < |mask| ==> mask[i] == Background || mask[i] == Bottle
  }

  /** Number of pixels equal to `v`. */
  function Count(pixels: seq<int>, v: int): nat {
    if pixels == [] then 0
    else Count(pixels[..|pixels| - 1], v) + (if pixels[|pixels| - 1] == v then 1 else 0)
  }

  /** `img.point(lambda p: 255 if p > threshold else 0)`. */
  function Binarize(luminance: seq<int>, threshold: int): (mask: seq<int>)
    ensures |mask| == |luminance| && IsBinary(mask)
    ensures forall i :: 0 <= i < |luminance| ==> (mask[i] == Bottle <==> luminance[i] > threshold)
  {
    seq(|luminance|, i requires 0 <= i < |luminance| => if luminance[i] > threshold then Bottle else Background)
  }

  /** `ImageOps.invert` on a one-channel image: each value `p` becomes `255 - p`. */
  function Invert(mask: seq<int>): (r: seq<int>)
    ensures |r| == |mask|
  {
    seq(|mask|, i requires 0 <= i < |mask| => 255 - mask[i])
  }

  /** Inverting twice gives back the image, and a 0/255 mask stays a 0/255 mask
      with every pixel swapped. */
  lemma InvertSwapsMask(mask: seq<int>)
    requires IsBinary(mask)
    ensures IsBinary(Invert(mask)) && Invert(Invert(mask)) == mask
    ensures forall i :: 0 <= i < |mask| ==> (Invert(mask)[i] == Bottle <==> mask[i] == Background)
  {
  }

  /** The pixel count in `sum(1 for p in img.getdata() if p == v)`, as a loop. */
  method CountPixels(pixels: seq<int>, v: int) returns (n: nat)
    ensures n == Count(pixels, v)
  {
    n := 0;
    for i := 0 to |pixels|
      invariant n == Count(pixels[..i], v)
    {
      assert pixels[..i + 1][..i] == pixels[..i];
      if pixels[i] == v {
        n := n + 1;
      }
    }
    assert pixels[..|pixels|] == pixels;
  }

  /** In a 0/255 mask every pixel is counted once, as black or as white. */
  lemma {:induction false} CountsCoverMask(mask: seq<int>)
    requires IsBinary(mask)
    ensures Count(mask, Background) + Count(mask, Bottle) == |mask|
  {
    if mask != [] {
      CountsCoverMask(mask[..|mask| - 1]);
    }
  }

  /** Inversion turns the pixels of value `v` into exactly the pixels of value `255 - v`. */
  lemma {:induction false} CountOfInverted(mask: seq<int>, v: int)
    ensures Count(Invert(mask), 255 - v) == Count(mask, v)
  {
    if mask != [] {
      var front := mask[..|mask| - 1];
      assert Invert(mask)[..|mask| - 1] == Invert(front);
      CountOfInverted(front, v);
    }
  }

  /** The polarity correction: invert only when black STRICTLY outnumbers white. */
  function CorrectPolarity(mask: seq<int>): seq<int> {
    if Count(mask, Background) > Count(mask, Bottle) then Invert(mask) else mask
  }

  /** After the correction the mask is still 0/255, white is at least as common as
      black, a tie is left alone, and an inversion swaps every pixel. */
  lemma PolarityCorrected(mask: seq<int>)
    requires IsBinary(mask)
    ensures var r := CorrectPolarity(mask);
      && |r| == |mask| && IsBinary(r)
      && Count(r, Bottle) >= Count(r, Background)
      && Count(r, Bottle) + Count(r, Background) == |mask|
      && (Count(mask, Background) <= Count(mask, Bottle) ==> r == mask)
      && (Count(mask, Background) > Count(mask, Bottle) ==>
            forall i :: 0 <= i < |mask| ==> (r[i] == Bottle <==> mask[i] == Background))
  {
    InvertSwapsMask(mask);
    CountOfInverted(mask, Background);
    CountOfInverted(mask, Bottle);
    CountsCoverMask(mask);
  }

  /** The sprite colour of one mask pixel: gray where the mask is exactly 255. */
  function SpritePixel(p: int): Rgba {
    if p == Bottle then Gray else Transparent
  }

  /** The `for px in data: new_data.append(...)` loop building the empty-bottle sprite. */
  method EmptySprite(mask: seq<int>) returns (sprite: seq<Rgba>)
    ensures |sprite| == |mask|
    ensures forall i :: 0 <= i < |mask| ==>
      (mask[i] == Bottle ==> sprite[i] == Gray) && (mask[i] != Bottle ==> sprite[i] == Transparent)
  {
    sprite := [];
    for i := 0 to |mask|
      invariant |sprite| == i
      invariant forall k :: 0 <= k < i ==> sprite[k] == SpritePixel(mask[k])
    {
      if mask[i] == Bottle {
        sprite := sprite + [Gray];
      } else {
        sprite := sprite + [Transparent];
      }
    }
  }

  /** Whether the thresholded image of `luminance` gets inverted. */
  predicate Inverted(luminance: seq<int>, threshold: int) {
    var m := Binarize(luminance, threshold);
    Count(m, Background) > Count(m, Bottle)
  }

  /** `generate_bottle_images` without the blur and the file I/O: the mask and the
      empty-bottle sprite computed from a luminance image. */
  method GenerateBottleImages(luminance: seq<int>, threshold: int) returns (mask: seq<int>, sprite: seq<Rgba>)
    ensures mask == CorrectPolarity(Binarize(luminance, threshold))
    ensures |mask| == |luminance| && IsBinary(mask)
    ensures Count(mask, Bottle) >= Count(mask, Background)
    ensures forall i :: 0 <= i < |luminance| ==>
      (mask[i] == Bottle <==> (luminance[i] > threshold) != Inverted(luminance, threshold))
    ensures |sprite| == |mask|
    ensures forall i :: 0 <= i < |mask| ==> sprite[i] == SpritePixel(mask[i])
  {
    var img := Binarize(luminance, threshold);
    var whiteCount := CountPixels(img, Bottle);
    var blackCount := CountPixels(img, Background);
    if blackCount > whiteCount {
      img := Invert(img);
    }
    mask := img;
    PolarityCorrected(Binarize(luminance, threshold));
    sprite := EmptySprite(mask);
  }
}
