/** The Node script's preprocessing: letterbox a resized image onto a square
    size-by-size RGB canvas at whole-pixel offsets, then scale the canvas bytes to
    [0, 1] for the model. */
module ScriptPreprocess {
  import opened Numeric
  import opened Letterbox
  import opened Packing

  /** The scale factor, the resized size and the whole-pixel offsets of the placed image. */
  datatype Placement = Placement(ratio: real, newW: nat, newH: nat, dx: nat, dy: nat)

  /** The placement: the detector's letterbox with the padding floored to whole
      pixels, so the image fits the canvas and sits at most half a pixel left of
      and above the detector's centred position. */
  function Place(width: nat, height: nat, size: nat): (p: Placement)
    requires width > 0 && height > 0
    ensures p.ratio <= size as real / width as real && p.ratio <= size as real / height as real
    ensures p.ratio == size as real / width as real || p.ratio == size as real / height as real
    ensures p.newW == size || p.newH == size
    ensures p.newW as real - 0.5 <= width as real * p.ratio < p.newW as real + 0.5
    ensures p.newH as real - 0.5 <= height as real * p.ratio < p.newH as real + 0.5
    ensures p.dx + p.newW <= size && p.dy + p.newH <= size
    ensures 2 * p.dx <= size - p.newW <= 2 * p.dx + 1
    ensures 2 * p.dy <= size - p.newH <= 2 * p.dy + 1
    ensures var m := Letterbox.Letterbox(width, height, size, size);
            && p.dx as real <= m.dw < p.dx as real + 1.0
            && p.dy as real <= m.dh < p.dy as real + 1.0
  {
    var m := Letterbox.Letterbox(width, height, size, size);
    Placement(m.r, m.ow, m.oh, (size - m.ow) / 2, (size - m.oh) / 2)
  }

  /** Byte i of the resized image; past its end the read is undefined, which the
      clamped canvas stores as 0. */
  function SourceByte(data: seq<Byte>, i: nat): Byte
  {
    if i < |data| then data[i] else 0
  }

  /** Channel ch (0 red, 1 green, 2 blue) copied for pixel (x, y) of the resized
      image: blue falls back to the first channel when the image has at most two. */
  function SourceChannel(data: seq<Byte>, channels: nat, newW: nat, x: nat, y: nat, ch: nat): Byte
  {
    var src := y * newW * channels + x * channels;
    if ch == 2 && channels <= 2 then SourceByte(data, src) else SourceByte(data, src + ch)
  }

  /** Canvas pixel (px, py), channel ch, after placement: the resized image inside
      the placed rectangle, 0 elsewhere. */
  function CanvasByte(data: seq<Byte>, channels: nat, p: Placement, px: nat, py: nat, ch: nat): Byte
  {
    if p.dx <= px < p.dx + p.newW && p.dy <= py < p.dy + p.newH
    then SourceChannel(data, channels, p.newW, px - p.dx, py - p.dy, ch)
    else 0
  }

  /** Offset of channel ch of pixel (px, py) in the interleaved canvas. */
  function PixelIndex(size: nat, px: nat, py: nat, ch: nat): (k: nat)
    requires px < size && py < size && ch < 3
    ensures k < size * size * 3
  {
    FlatBound(size, size, py, px);
    FlatBound(size * size, 3, py * size + px, ch);
    (py * size + px) * 3 + ch
  }

  /** Offset of channel ch of pixel (px, py) in a channel-major (planar) input. */
  function PlaneIndex(size: nat, px: nat, py: nat, ch: nat): (k: nat)
    requires px < size && py < size && ch < 3
    ensures k < 3 * (size * size)
  {
    FlatBound(size, size, py, px);
    FlatBound(3, size * size, ch, py * size + px);
    ch * (size * size) + (py * size + px)
  }

  /** Different pixels or channels have different canvas offsets. */
  lemma PixelIndexDistinct(size: nat, px: nat, py: nat, ch: nat, qx: nat, qy: nat, ch2: nat)
    requires px < size && py < size && ch < 3 && qx < size && qy < size && ch2 < 3
    requires px != qx || py != qy || ch != ch2
    ensures PixelIndex(size, px, py, ch) != PixelIndex(size, qx, qy, ch2)
  {
    FlatDistinct(size, py, px, qy, qx);
    FlatDistinct(3, py * size + px, ch, qy * size + qx, ch2);
  }

  /** The placement loops: a zero canvas with the resized image copied in at (dx, dy). */
  method PlaceOnCanvas(data: seq<Byte>, channels: nat, p: Placement, size: nat) returns (canvas: seq<Byte>)
    requires p.dx + p.newW <= size && p.dy + p.newH <= size
    ensures |canvas| == size * size * 3
    ensures forall px, py, ch :: 0 <= px < size && 0 <= py < size && 0 <= ch < 3 ==>
              canvas[PixelIndex(size, px, py, ch)] == CanvasByte(data, channels, p, px, py, ch)
  {
    var c := new Byte[size * size * 3](_ => 0);
    for y := 0 to p.newH
      invariant forall px, py, ch :: 0 <= px < size && 0 <= py < size && 0 <= ch < 3 ==>
                  c[PixelIndex(size, px, py, ch)] == if py < p.dy + y then CanvasByte(data, channels, p, px, py, ch) else 0
    {
      var srcRow := y * p.newW * channels;
      var dstRow := (y + p.dy) * size * 3;
      for x := 0 to p.newW
        invariant forall px, py, ch :: 0 <= px < size && 0 <= py < size && 0 <= ch < 3 ==>
                    c[PixelIndex(size, px, py, ch)] ==
                      if py < p.dy + y || (py == p.dy + y && px < p.dx + x) then CanvasByte(data, channels, p, px, py, ch) else 0
      {
        var srcIdx := srcRow + x * channels;
        var dstIdx := dstRow + (x + p.dx) * 3;
        WritePixel(c, size, x + p.dx, y + p.dy, dstIdx,
                   SourceByte(data, srcIdx), SourceByte(data, srcIdx + 1),
                   if channels > 2 then SourceByte(data, srcIdx + 2) else SourceByte(data, srcIdx));
        assert forall ch :: 0 <= ch < 3 ==>
          c[PixelIndex(size, x + p.dx, y + p.dy, ch)] == SourceChannel(data, channels, p.newW, x, y, ch);
      }
    }
    canvas := c[..];
  }

  /** The three assignments of the placement loop's body, at the offset of pixel (px, py). */
  method WritePixel(c: array<Byte>, size: nat, px: nat, py: nat, dstIdx: nat, red: Byte, green: Byte, blue: Byte)
    requires px < size && py < size && c.Length == size * size * 3
    requires dstIdx == py * size * 3 + px * 3
    modifies c
    ensures c[PixelIndex(size, px, py, 0)] == red
    ensures c[PixelIndex(size, px, py, 1)] == green
    ensures c[PixelIndex(size, px, py, 2)] == blue
    ensures forall qx, qy, ch :: 0 <= qx < size && 0 <= qy < size && 0 <= ch < 3 && (qx != px || qy != py) ==>
              c[PixelIndex(size, qx, qy, ch)] == old(c[PixelIndex(size, qx, qy, ch)])
  {
    assert dstIdx == PixelIndex(size, px, py, 0);
    assert dstIdx + 2 == PixelIndex(size, px, py, 2);
    c[dstIdx] := red;
    c[dstIdx + 1] := green;
    c[dstIdx + 2] := blue;
    forall qx, qy, ch | 0 <= qx < size && 0 <= qy < size && 0 <= ch < 3 && (qx != px || qy != py)
      ensures c[PixelIndex(size, qx, qy, ch)] == old(c[PixelIndex(size, qx, qy, ch)])
    {
      PixelIndexDistinct(size, qx, qy, ch, px, py, 0);
      PixelIndexDistinct(size, qx, qy, ch, px, py, 1);
      PixelIndexDistinct(size, qx, qy, ch, px, py, 2);
    }
  }

  /** The script's conversion loop as written: input[k] is canvas byte k over 255
      for every k, so the input keeps the canvas's interleaved order. */
  method ToFloatInterleaved(canvas: seq<Byte>, size: nat) returns (input: seq<real>)
    requires |canvas| == size * size * 3
    ensures |input| == 3 * (size * size)
    ensures forall k :: 0 <= k < |input| ==> input[k] == Unit(canvas[k])
  {
    var plane := size * size;
    var buf := new real[3 * plane];
    for i := 0 to plane
      invariant forall k :: 0 <= k < 3 * plane && (k < i || plane <= k < plane + i || 2 * plane <= k < 2 * plane + i) ==>
                  buf[k] == Unit(canvas[k])
    {
      buf[i] := Unit(canvas[i]);
      buf[i + plane] := Unit(canvas[i + plane]);
      buf[i + 2 * plane] := Unit(canvas[i + 2 * plane]);
    }
    input := buf[..];
  }

  /** The conversion the model's [1, 3, size, size] input needs: channel ch of
      pixel (px, py) goes to plane ch, as the detector's packing loop does. */
  method ToFloatPlanar(canvas: seq<Byte>, size: nat) returns (input: seq<real>)
    requires |canvas| == size * size * 3
    ensures |input| == 3 * (size * size)
    ensures forall px, py, ch :: 0 <= px < size && 0 <= py < size && 0 <= ch < 3 ==>
              input[PlaneIndex(size, px, py, ch)] == Unit(canvas[PixelIndex(size, px, py, ch)])
    ensures forall k :: 0 <= k < |input| ==> 0.0 <= input[k] <= 1.0
  {
    var plane := size * size;
    var buf := new real[3 * plane];
    PackPlanar(canvas, 3, plane, buf);
    input := buf[..];
    forall px, py, ch | 0 <= px < size && 0 <= py < size && 0 <= ch < 3
      ensures input[PlaneIndex(size, px, py, ch)] == Unit(canvas[PixelIndex(size, px, py, ch)])
    {
      var i := py * size + px;
      FlatBound(size, size, py, px);
      assert Channel(canvas, 3, i, ch) == canvas[PixelIndex(size, px, py, ch)];
    }
  }

  /** On a 2-by-2 canvas whose only lit byte is the green of pixel (0, 0), the
      planar slot of that green (offset 4) holds 0 after the conversion as written,
      because offset 4 of the canvas is the green of pixel (1, 0); it should hold 1. */
  lemma InterleavedIsNotPlanar()
    ensures var canvas: seq<Byte> := [0, 255, 0, 0, 0, 0, 0, 0, 0, 0, 0, 0];
            && PlaneIndex(2, 0, 0, 1) == 4
            && Unit(canvas[PlaneIndex(2, 0, 0, 1)]) == 0.0
            && Unit(canvas[PixelIndex(2, 0, 0, 1)]) == 1.0
  {
  }

  /** preprocess as written: the placement, and an input holding, for every canvas
      pixel and channel, the placed image's byte over 255 (0 in the padding), at
      that byte's offset in the interleaved canvas. */
  method Preprocess(data: seq<Byte>, width: nat, height: nat, channels: nat, size: nat)
    returns (input: seq<real>, ratio: real, dx: nat, dy: nat)
    requires width > 0 && height > 0
    ensures var p := Place(width, height, size); ratio == p.ratio && dx == p.dx && dy == p.dy
    ensures |input| == 3 * (size * size)
    ensures forall px, py, ch :: 0 <= px < size && 0 <= py < size && 0 <= ch < 3 ==>
              input[PixelIndex(size, px, py, ch)] == Unit(CanvasByte(data, channels, Place(width, height, size), px, py, ch))
    ensures forall k :: 0 <= k < |input| ==> 0.0 <= input[k] <= 1.0
  {
    var p := Place(width, height, size);
    ratio, dx, dy := p.ratio, p.dx, p.dy;
    var canvas := PlaceOnCanvas(data, channels, p, size);
    input := ToFloatInterleaved(canvas, size);
  }

  /** preprocess with the corrected conversion: the same values, in the planar
      order the model reads. */
  method PreprocessPlanar(data: seq<Byte>, width: nat, height: nat, channels: nat, size: nat)
    returns (input: seq<real>, ratio: real, dx: nat, dy: nat)
    requires width > 0 && height > 0
    ensures var p := Place(width, height, size); ratio == p.ratio && dx == p.dx && dy == p.dy
    ensures |input| == 3 * (size * size)
    ensures forall px, py, ch :: 0 <= px < size && 0 <= py < size && 0 <= ch < 3 ==>
              input[PlaneIndex(size, px, py, ch)] == Unit(CanvasByte(data, channels, Place(width, height, size), px, py, ch))
    ensures forall k :: 0 <= k < |input| ==> 0.0 <= input[k] <= 1.0
  {
    var p := Place(width, height, size);
    ratio, dx, dy := p.ratio, p.dx, p.dy;
    var canvas := PlaceOnCanvas(data, channels, p, size);
    input := ToFloatPlanar(canvas, size);
  }
}
