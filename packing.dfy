/** Packing interleaved colour pixels into the model's planar input: the red,
    green and blue channels of pixel i go to positions i, i + size and
    i + 2 * size of the input buffer, each scaled to [0, 1]. */
module Packing {
  import opened Numeric

  /** Channel ch of pixel i in an interleaved buffer with `stride` bytes per
      pixel; 0 past the end of the buffer. */
  function Channel(pixels: seq<Byte>, stride: nat, i: nat, ch: nat): Byte
  {
    if i * stride + ch < |pixels| then pixels[i * stride + ch] else 0
  }

  /** The packing loop of the detector (stride 4, RGBA from getImageData): every
      pixel's red, green and blue land in the three planes of buf, alpha is
      dropped, and every value lies in [0, 1]. */
  method PackPlanar(pixels: seq<Byte>, stride: nat, size: nat, buf: array<real>)
    requires 3 <= stride && |pixels| == size * stride
    requires buf.Length == 3 * size
    modifies buf
    ensures forall i :: 0 <= i < size ==>
              && buf[i] == Unit(Channel(pixels, stride, i, 0))
              && buf[i + size] == Unit(Channel(pixels, stride, i, 1))
              && buf[i + 2 * size] == Unit(Channel(pixels, stride, i, 2))
    ensures forall k :: 0 <= k < buf.Length ==> 0.0 <= buf[k] <= 1.0
  {
    for i := 0 to size
      invariant forall p :: 0 <= p < i ==>
                  && buf[p] == Unit(Channel(pixels, stride, p, 0))
                  && buf[p + size] == Unit(Channel(pixels, stride, p, 1))
                  && buf[p + 2 * size] == Unit(Channel(pixels, stride, p, 2))
      invariant forall k :: 0 <= k < buf.Length && (k < i || size <= k < size + i || 2 * size <= k < 2 * size + i) ==>
                  0.0 <= buf[k] <= 1.0
    {
      var offset := i * stride;
      FlatBound(size, stride, i, 2);
      buf[i] := Unit(pixels[offset]);
      buf[i + size] := Unit(pixels[offset + 1]);
      buf[i + size * 2] := Unit(pixels[offset + 2]);
    }
  }
}
