/** The fill renderer (`update_filled_bottle`): the fill height derived from the
    total, the fill layer whose alpha is replaced by the mask, and its composite
    over the empty-bottle sprite. Images are row-major, `w` pixels per row and
    `h` rows, so pixel `i` lies in row `i / w`. */
module FillRenderer {
  import opened Silhouette
  import opened PyArith

  /** `WaterTrackerApp.CAPACITY`, in millilitres. */
  const Capacity: int := 3000

  /** The fill colour, opaque, and the colour the layer has outside the rectangle once
      `putalpha` has made it opaque. */
  const Blue := Rgba(0, 0, 255, 255)
  const Black := Rgba(0, 0, 0, 255)

  /** `int(h * min(1.0, total / CAPACITY))`, in exact arithmetic. */
  function FillHeight(h: nat, total: int): int {
    if total < Capacity then TruncDiv(h * total, Capacity) else h
  }

  /** For a non-negative total the fill height is `min(h, floor(h * total / 3000))`:
      it lies in `[0, h]`, is 0 for an empty bottle and `h` from 3000 ml on. */
  lemma FillHeightRange(h: nat, total: int)
    requires total >= 0
    ensures var fh := FillHeight(h, total);
      && 0 <= fh <= h
      && (total < Capacity ==> fh * Capacity <= h * total < (fh + 1) * Capacity)
      && (total >= Capacity ==> fh == h)
      && (total == 0 ==> fh == 0)
  {
    if total < Capacity {
      MulLeft(h, total, Capacity);
    }
  }

  /** More water never lowers the fill line. */
  lemma FillHeightMonotone(h: nat, t1: int, t2: int)
    requires 0 <= t1 <= t2
    ensures FillHeight(h, t1) <= FillHeight(h, t2)
  {
    FillHeightRange(h, t1);
    FillHeightRange(h, t2);
    if t2 < Capacity {
      MulLeft(h, t1, t2);
      DivMonotone(h * t1, h * t2, Capacity);
    }
  }

  /** Every pixel of a `w` by `h` row-major image lies in a row below `h`. */
  lemma RowInRange(i: int, w: nat, h: nat)
    requires 0 <= i < w * h
    ensures w > 0 && 0 <= i / w < h
  {
  }

  /** Whether pixel `i` is inside the rectangle `[0, h - fh, w, h]` of line 236. */
  predicate InFill(i: int, w: nat, h: nat, fh: int)
    requires w > 0
  {
    h - fh <= i / w
  }

  /** The fill layer once `putalpha(mask)` has replaced its alpha: blue inside the
      rectangle, black outside it, and the mask value as alpha everywhere. */
  function FillLayer(w: nat, h: nat, fh: int, mask: seq<int>): (layer: seq<Rgba>)
    requires |mask| == w * h
    ensures |layer| == |mask|
  {
    seq(|mask|, i requires 0 <= i < |mask| =>
      RowInRange(i, w, h);
      Rgba(0, 0, if InFill(i, w, h, fh) then 255 else 0, mask[i]))
  }

  /** `Image.alpha_composite(dst, src)` for a source pixel that is fully transparent
      (the destination shows) or fully opaque (the source replaces it). */
  function Over(dst: Rgba, src: Rgba): Rgba
    requires src.a == 0 || src.a == 255
  {
    if src.a == 0 then dst else src
  }

  /** `update_filled_bottle` as written: the composite of the masked fill layer over the sprite. */
  function RenderFilledBottle(w: nat, h: nat, mask: seq<int>, sprite: seq<Rgba>, total: int): (image: seq<Rgba>)
    requires |mask| == w * h && |sprite| == |mask| && IsBinary(mask)
    requires total >= 0
    ensures |image| == |mask|
  {
    var layer := FillLayer(w, h, FillHeight(h, total), mask);
    seq(|mask|, i requires 0 <= i < |mask| => Over(sprite[i], layer[i]))
  }

  /** The fill layer is blue exactly in the rows `[h - fh, h)` and its alpha is the
      mask; with no water nothing in it is blue. */
  lemma FillLayerRows(w: nat, h: nat, total: int, mask: seq<int>)
    requires |mask| == w * h && total >= 0
    ensures var fh := FillHeight(h, total);
      var layer := FillLayer(w, h, fh, mask);
      forall i :: 0 <= i < |mask| ==>
        && w > 0
        && layer[i].a == mask[i]
        && (layer[i].b == 255 <==> h - fh <= i / w < h)
        && (total == 0 ==> layer[i].b == 0)
  {
    FillHeightRange(h, total);
  }

  /** What the displayed bottle shows, pixel by pixel: outside the bottle the sprite
      is untouched, so the fill never paints outside the silhouette; inside it, blue
      in the filled rows and opaque black above them. */
  lemma RenderedPixels(w: nat, h: nat, mask: seq<int>, sprite: seq<Rgba>, total: int)
    requires |mask| == w * h && |sprite| == |mask| && IsBinary(mask)
    requires total >= 0
    ensures var image := RenderFilledBottle(w, h, mask, sprite, total);
      var fh := FillHeight(h, total);
      forall i :: 0 <= i < |mask| ==>
        && w > 0
        && (mask[i] == Background ==> image[i] == sprite[i])
        && (mask[i] == Bottle && h - fh <= i / w ==> image[i] == Blue)
        && (mask[i] == Bottle && i / w < h - fh ==> image[i] == Black)
  {
  }

  /** The display saturates at the capacity: 3000 ml and 10000 ml look the same. */
  lemma RenderSaturates(w: nat, h: nat, mask: seq<int>, sprite: seq<Rgba>, t1: int, t2: int)
    requires |mask| == w * h && |sprite| == |mask| && IsBinary(mask)
    requires t1 >= Capacity && t2 >= Capacity
    ensures RenderFilledBottle(w, h, mask, sprite, t1) == RenderFilledBottle(w, h, mask, sprite, t2)
  {
  }

  /** As written, an empty one-pixel bottle is shown opaque black, not gray: the
      sprite's gray is covered wherever the mask is 255. */
  lemma EmptyBottleShowsBlack()
    ensures RenderFilledBottle(1, 1, [Bottle], [Gray], 0) == [Black]
    ensures RenderFilledBottle(1, 1, [Bottle], [Gray], 0) != [Gray]
  {
    var image := RenderFilledBottle(1, 1, [Bottle], [Gray], 0);
    RenderedPixels(1, 1, [Bottle], [Gray], 0);
    assert image[0] == Black;
  }

  /** The fill layer the program evidently intends: the mask clips the rectangle, so
      the layer is opaque blue inside both and transparent everywhere else. */
  function ClippedFillLayer(w: nat, h: nat, fh: int, mask: seq<int>): (layer: seq<Rgba>)
    requires |mask| == w * h && IsBinary(mask)
    ensures |layer| == |mask|
    ensures forall i :: 0 <= i < |layer| ==> layer[i].a == 0 || layer[i].a == 255
  {
    seq(|mask|, i requires 0 <= i < |mask| =>
      RowInRange(i, w, h);
      if InFill(i, w, h, fh) then Rgba(0, 0, 255, mask[i]) else Transparent)
  }

  /** The corrected rendering: the clipped fill layer composited over the sprite. */
  function RenderClipped(w: nat, h: nat, mask: seq<int>, sprite: seq<Rgba>, total: int): (image: seq<Rgba>)
    requires |mask| == w * h && |sprite| == |mask| && IsBinary(mask)
    requires total >= 0
    ensures |image| == |mask|
  {
    var layer := ClippedFillLayer(w, h, FillHeight(h, total), mask);
    seq(|mask|, i requires 0 <= i < |mask| => Over(sprite[i], layer[i]))
  }

  /** With the clipped layer the empty part of the bottle keeps the sprite, the fill
      still stays inside the silhouette, and an empty bottle is the sprite itself. */
  lemma RenderClippedPixels(w: nat, h: nat, mask: seq<int>, sprite: seq<Rgba>, total: int)
    requires |mask| == w * h && |sprite| == |mask| && IsBinary(mask)
    requires total >= 0
    ensures var image := RenderClipped(w, h, mask, sprite, total);
      var fh := FillHeight(h, total);
      && (forall i :: 0 <= i < |mask| ==>
        && w > 0
        && (mask[i] == Background ==> image[i] == sprite[i])
        && (mask[i] == Bottle && h - fh <= i / w ==> image[i] == Blue)
        && (i / w < h - fh ==> image[i] == sprite[i]))
      && (total == 0 ==> image == sprite)
  {
    FillHeightRange(h, total);
  }

  /** The corrected rendering shows the same empty one-pixel bottle gray. */
  lemma EmptyBottleShowsGrayWhenClipped()
    ensures RenderClipped(1, 1, [Bottle], [Gray], 0) == [Gray]
  {
    RenderClippedPixels(1, 1, [Bottle], [Gray], 0);
  }
}
