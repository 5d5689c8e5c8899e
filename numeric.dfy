/** Arithmetic shared by the browser detector and the Node script: JavaScript's
    Math.min, Math.max and Math.round on reals, the byte-to-[0,1] conversion, and
    row-major flat buffers (cells, their indices, and transposition). */
module Numeric {

  function Min(a: real, b: real): real { if a <= b then a else b }

  function Max(a: real, b: real): real { if a >= b then a else b }

  /** Math.round: the nearest integer, halves rounded up. */
  function Round(x: real): int { (x + 0.5).Floor }

  lemma RoundMonotone(x: real, y: real)
    requires x <= y
    ensures Round(x) <= Round(y)
  {
  }

  lemma RoundOfInteger(n: int)
    ensures Round(n as real) == n
  {
  }

  /** One element of a Uint8Array / Uint8ClampedArray. */
  type Byte = b: int | 0 <= b < 256

  /** `b / 255`: a colour channel scaled to [0, 1]. */
  function Unit(b: Byte): (u: real)
    ensures 0.0 <= u <= 1.0
    ensures u == 0.0 <==> b == 0
    ensures u == 1.0 <==> b == 255
  {
    b as real / 255.0
  }

  /** Element (r, c) of a row-major buffer with `width` columns; 0.0 past its end. */
  function Cell(s: seq<real>, width: nat, r: nat, c: nat): real
  {
    if r * width + c < |s| then s[r * width + c] else 0.0
  }

  lemma MulSucc(a: int, w: int)
    ensures (a + 1) * w == a * w + w
  {
  }

  lemma {:induction false} MulMonotone(a: nat, b: nat, w: nat)
    requires a <= b
    ensures a * w <= b * w
    decreases b - a
  {
    if a < b {
      MulMonotone(a, b - 1, w);
      MulSucc(b - 1, w);
    }
  }

  /** The flat offset of cell (r, c) lies inside a height-by-width buffer. */
  lemma FlatBound(height: nat, width: nat, r: nat, c: nat)
    requires r < height && c < width
    ensures r * width + c < height * width
  {
    MulSucc(r, width);
    MulMonotone(r + 1, height, width);
  }

  /** Flat offsets follow row order: a cell of an earlier row comes first. */
  lemma FlatOrder(width: nat, r1: nat, c1: nat, r2: nat, c2: nat)
    requires c1 < width
    ensures r1 < r2 ==> r1 * width + c1 < r2 * width + c2
  {
    if r1 < r2 {
      MulSucc(r1, width);
      MulMonotone(r1 + 1, r2, width);
    }
  }

  /** Distinct cells have distinct flat offsets. */
  lemma FlatDistinct(width: nat, r1: nat, c1: nat, r2: nat, c2: nat)
    requires c1 < width && c2 < width
    ensures (r1 != r2 || c1 != c2) ==> r1 * width + c1 != r2 * width + c2
  {
    FlatOrder(width, r1, c1, r2, c2);
    FlatOrder(width, r2, c2, r1, c1);
  }

  /** Every offset of a height-by-width buffer is the offset of some cell. */
  lemma {:induction false} FlatSplit(height: nat, width: nat, k: nat) returns (r: nat, c: nat)
    requires k < height * width
    ensures r < height && c < width && k == r * width + c
    decreases k
  {
    MulSucc(height - 1, width);
    if k < width {
      r, c := 0, k;
    } else {
      var r', c' := FlatSplit(height - 1, width, k - width);
      MulSucc(r', width);
      r, c := r' + 1, c';
    }
  }

  /** Two buffers of the same shape that agree on every cell are equal. */
  lemma CellExtensionality(s: seq<real>, t: seq<real>, height: nat, width: nat)
    requires |s| == height * width && |t| == height * width
    requires forall r, c :: 0 <= r < height && 0 <= c < width ==> Cell(s, width, r, c) == Cell(t, width, r, c)
    ensures s == t
  {
    forall k | 0 <= k < |s|
      ensures s[k] == t[k]
    {
      var r, c := FlatSplit(height, width, k);
      assert Cell(s, width, r, c) == Cell(t, width, r, c);
    }
  }

  /** Column c of a buffer with `width` columns and `height` rows. */
  function Column(s: seq<real>, height: nat, width: nat, c: nat): (col: seq<real>)
    ensures |col| == height
  {
    seq(height, r requires 0 <= r < height => Cell(s, width, r, c))
  }

  /** The first n rows of the transpose: columns 0 .. n-1 of the buffer, one after the other. */
  function TransposedRows(s: seq<real>, height: nat, width: nat, n: nat): (t: seq<real>)
    ensures |t| == n * height
  {
    if n == 0 then []
    else
      MulSucc(n - 1, height);
      TransposedRows(s, height, width, n - 1) + Column(s, height, width, n - 1)
  }

  /** The transpose of a buffer of `height` rows and `width` columns: a buffer of
      `width` rows and `height` columns. */
  function Transposed(s: seq<real>, height: nat, width: nat): (t: seq<real>)
    ensures |t| == height * width
  {
    TransposedRows(s, height, width, width)
  }

  lemma {:induction false} TransposedRowsCell(s: seq<real>, height: nat, width: nat, n: nat, r: nat, c: nat)
    requires r < n && c < height
    ensures Cell(TransposedRows(s, height, width, n), height, r, c) == Cell(s, width, c, r)
  {
    var prefix := TransposedRows(s, height, width, n - 1);
    MulSucc(n - 1, height);
    if r < n - 1 {
      FlatBound(n - 1, height, r, c);
      TransposedRowsCell(s, height, width, n - 1, r, c);
    }
  }

  /** Cell (r, c) of the transpose is cell (c, r) of the original. */
  lemma TransposedCell(s: seq<real>, height: nat, width: nat, r: nat, c: nat)
    requires r < width && c < height
    ensures Cell(Transposed(s, height, width), height, r, c) == Cell(s, width, c, r)
  {
    TransposedRowsCell(s, height, width, width, r, c);
  }

  /** Transposing twice gives back the buffer. */
  lemma TransposeInvolution(s: seq<real>, height: nat, width: nat)
    requires |s| == height * width
    ensures Transposed(Transposed(s, height, width), width, height) == s
  {
    var t := Transposed(s, height, width);
    var u := Transposed(t, width, height);
    forall r, c | 0 <= r < height && 0 <= c < width
      ensures Cell(u, width, r, c) == Cell(s, width, r, c)
    {
      TransposedCell(t, width, height, r, c);
      TransposedCell(s, height, width, c, r);
    }
    CellExtensionality(u, s, height, width);
  }
}
