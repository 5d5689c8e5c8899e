/** The letterbox transform of the browser detector: scale a w-by-h frame by the
    factor that makes it fit an nw-by-nh model input, round the scaled size, and
    centre it by splitting the slack evenly between both sides. */
module Letterbox {
  import opened Numeric

  /** The scale factor r, the placed size (ow, oh) and the padding (dw, dh) on the
      left and on the top. */
  datatype Meta = Meta(r: real, ow: int, oh: int, dw: real, dh: real)

  /** A side of length len scaled by a factor that keeps it within n rounds to at
      most n, and to exactly n when the factor is the one that fills n. */
  lemma ScaledSideFits(len: nat, r: real, n: nat)
    requires len > 0 && 0.0 <= r <= n as real / len as real
    ensures 0 <= Round(len as real * r) <= n
    ensures r == n as real / len as real ==> Round(len as real * r) == n
  {
    var l := len as real;
    assert l * r <= l * (n as real / l);
    assert l * (n as real / l) == n as real;
    RoundMonotone(0.0, l * r);
    RoundMonotone(l * r, n as real);
    RoundOfInteger(0);
    RoundOfInteger(n);
  }

  function Letterbox(w: nat, h: nat, nw: nat, nh: nat): (m: Meta)
    requires w > 0 && h > 0
    ensures m.r <= nw as real / w as real && m.r <= nh as real / h as real
    ensures m.r == nw as real / w as real || m.r == nh as real / h as real
    ensures 0 <= m.ow <= nw && 0 <= m.oh <= nh
    ensures m.ow == nw || m.oh == nh
    ensures m.ow as real - 0.5 <= w as real * m.r < m.ow as real + 0.5
    ensures m.oh as real - 0.5 <= h as real * m.r < m.oh as real + 0.5
    ensures 0.0 <= m.dw && m.dw + m.ow as real + m.dw == nw as real
    ensures 0.0 <= m.dh && m.dh + m.oh as real + m.dh == nh as real
  {
    var r := Min(nw as real / w as real, nh as real / h as real);
    ScaledSideFits(w, r, nw);
    ScaledSideFits(h, r, nh);
    var ow := Round(w as real * r);
    var oh := Round(h as real * r);
    Meta(r, ow, oh, (nw - ow) as real / 2.0, (nh - oh) as real / 2.0)
  }

  /** Where drawImage puts source coordinate v: scaled by r, shifted by the padding. */
  function ToModel(v: real, pad: real, r: real): real
  {
    v * r + pad
  }

  /** The decoder's inverse: a model-input coordinate back to source pixels. */
  function FromModel(v: real, pad: real, r: real): (u: real)
    requires r > 0.0
    ensures ToModel(u, pad, r) == v
  {
    (v - pad) / r
  }

  /** Un-letterboxing recovers a source coordinate placed by the letterbox. */
  lemma FromModelInvertsToModel(v: real, pad: real, r: real)
    requires r > 0.0
    ensures FromModel(ToModel(v, pad, r), pad, r) == v
  {
    assert (v * r + pad - pad) / r == v * r / r;
  }
}
