/** The detector's reading of the model output's shape: how many candidate rows
    there are, how many attributes each row has, and whether the buffer has to be
    transposed so that each row's attributes are contiguous. */
module OutputLayout {
  import opened Numeric

  /** An output tensor whose data fills its dimensions: rank 3 with a batch of
      one, or rank 2. Other ranks carry no constraint. */
  predicate Shaped(data: seq<real>, dims: seq<nat>)
  {
    && (|dims| == 3 ==> dims[0] == 1 && |data| == dims[1] * dims[2])
    && (|dims| == 2 ==> |data| == dims[0] * dims[1])
  }

  /** A row-major decode buffer: `rows` candidates of `cols` attributes each. */
  datatype Layout = Layout(rows: nat, cols: nat, data: seq<real>)

  lemma DivBound(n: nat, d: nat)
    requires d > 0
    ensures (n / d) * d <= n
  {
  }

  /** The detector's layout as written: a rank-3 output whose middle dimension is
      larger than its last one is taken to be attribute-major and is transposed;
      otherwise the middle dimension counts rows. Ranks other than 2 and 3 fall
      back to K + 5 attributes per row. */
  function DetectorLayoutAsWritten(data: seq<real>, dims: seq<nat>, classCount: nat): (l: Layout)
    requires Shaped(data, dims)
    ensures |l.data| == |data| && l.rows * l.cols <= |data|
  {
    if |dims| == 3 then
      if dims[1] > dims[2] then Layout(dims[2], dims[1], Transposed(data, dims[1], dims[2]))
      else Layout(dims[1], dims[2], data)
    else if |dims| == 2 then Layout(dims[0], dims[1], data)
    else
      DivBound(|data|, classCount + 5);
      Layout(|data| / (classCount + 5), classCount + 5, data)
  }

  /** The layout with the orientation test the decoder needs: a rank-3 output is
      attribute-major, and is transposed, when it has fewer rows than columns,
      because a detection head has far more candidates than attributes. */
  function DetectorLayout(data: seq<real>, dims: seq<nat>, classCount: nat): (l: Layout)
    requires Shaped(data, dims)
    ensures |l.data| == |data| && l.rows * l.cols <= |data|
    ensures |dims| == 3 ==> l.rows >= l.cols
  {
    if |dims| == 3 then
      if dims[1] < dims[2] then Layout(dims[2], dims[1], Transposed(data, dims[1], dims[2]))
      else Layout(dims[1], dims[2], data)
    else if |dims| == 2 then Layout(dims[0], dims[1], data)
    else
      DivBound(|data|, classCount + 5);
      Layout(|data| / (classCount + 5), classCount + 5, data)
  }

  /** The transposition loop: an attribute-major buffer of `cols` rows of `rows`
      entries becomes a row-major buffer of `rows` rows of `cols` entries, filled
      column by column. */
  method TransposeAttributeMajor(data: seq<real>, rows: nat, cols: nat) returns (t: seq<real>)
    requires |data| == rows * cols
    ensures t == Transposed(data, cols, rows)
    ensures forall r, c :: 0 <= r < rows && 0 <= c < cols ==> Cell(t, cols, r, c) == Cell(data, rows, c, r)
  {
    var buf := new real[rows * cols];
    for c := 0 to cols
      invariant forall r', c' :: 0 <= r' < rows && 0 <= c' < c ==>
                  Cell(buf[..], cols, r', c') == Cell(data, rows, c', r')
    {
      for r := 0 to rows
        invariant forall r', c' :: 0 <= r' < rows && 0 <= c' < c ==>
                    Cell(buf[..], cols, r', c') == Cell(data, rows, c', r')
        invariant forall r' :: 0 <= r' < r ==> Cell(buf[..], cols, r', c) == Cell(data, rows, c, r')
      {
        FlatBound(rows, cols, r, c);
        FlatBound(cols, rows, c, r);
        ghost var before := buf[..];
        buf[r * cols + c] := data[c * rows + r];
        assert buf[..] == before[r * cols + c := data[c * rows + r]];
        forall r', c' | 0 <= r' < rows && 0 <= c' < cols && (r' != r || c' != c)
          ensures Cell(buf[..], cols, r', c') == Cell(before, cols, r', c')
        {
          FlatDistinct(cols, r, c, r', c');
        }
      }
    }
    t := buf[..];
    forall r, c | 0 <= r < rows && 0 <= c < cols
      ensures Cell(t, cols, r, c) == Cell(Transposed(data, cols, rows), cols, r, c)
    {
      TransposedCell(data, cols, rows, r, c);
    }
    CellExtensionality(t, Transposed(data, cols, rows), rows, cols);
  }

  /** The layout step of the detector as written. */
  method NormalizeLayoutAsWritten(data: seq<real>, dims: seq<nat>, classCount: nat)
    returns (rows: nat, cols: nat, out: seq<real>)
    requires Shaped(data, dims)
    ensures Layout(rows, cols, out) == DetectorLayoutAsWritten(data, dims, classCount)
  {
    out := data;
    if |dims| == 3 {
      if dims[1] > dims[2] {
        rows, cols := dims[2], dims[1];
        out := TransposeAttributeMajor(data, rows, cols);
      } else {
        rows, cols := dims[1], dims[2];
      }
    } else if |dims| == 2 {
      rows, cols := dims[0], dims[1];
    } else {
      rows, cols := |data| / (classCount + 5), classCount + 5;
    }
  }

  /** The layout step with the orientation test corrected. */
  method NormalizeLayout(data: seq<real>, dims: seq<nat>, classCount: nat)
    returns (rows: nat, cols: nat, out: seq<real>)
    requires Shaped(data, dims)
    ensures Layout(rows, cols, out) == DetectorLayout(data, dims, classCount)
  {
    out := data;
    if |dims| == 3 {
      if dims[1] < dims[2] {
        rows, cols := dims[2], dims[1];
        out := TransposeAttributeMajor(data, rows, cols);
      } else {
        rows, cols := dims[1], dims[2];
      }
    } else if |dims| == 2 {
      rows, cols := dims[0], dims[1];
    } else {
      rows, cols := |data| / (classCount + 5), classCount + 5;
    }
  }

  /** With the corrected test, a head with more candidates than attributes is
      decoded the same way whether it is exported candidate-major ([1, N, A]) or
      attribute-major ([1, A, N]): N rows of A attributes, in candidate-major order. */
  lemma DetectorLayoutOrientation(rowMajor: seq<real>, boxes: nat, attrs: nat, classCount: nat)
    requires attrs < boxes && |rowMajor| == boxes * attrs
    ensures DetectorLayout(rowMajor, [1, boxes, attrs], classCount) == Layout(boxes, attrs, rowMajor)
    ensures DetectorLayout(Transposed(rowMajor, boxes, attrs), [1, attrs, boxes], classCount)
              == Layout(boxes, attrs, rowMajor)
  {
    TransposeInvolution(rowMajor, boxes, attrs);
  }

  /** The test as written gets both orientations backwards for such a head: it
      reads the candidate-major export as A rows of N attributes, and leaves the
      attribute-major export untransposed, so every row it decodes mixes attributes
      of different candidates. */
  lemma DetectorLayoutAsWrittenSwapsRows(rowMajor: seq<real>, boxes: nat, attrs: nat, classCount: nat)
    requires attrs < boxes && |rowMajor| == boxes * attrs
    ensures DetectorLayoutAsWritten(rowMajor, [1, boxes, attrs], classCount)
              == Layout(attrs, boxes, Transposed(rowMajor, boxes, attrs))
    ensures DetectorLayoutAsWritten(Transposed(rowMajor, boxes, attrs), [1, attrs, boxes], classCount)
              == Layout(attrs, boxes, Transposed(rowMajor, boxes, attrs))
  {
  }

  /** A concrete case: a head of 20 candidates with 5 + 7 attributes each, exported
      candidate-major, is read by the detector as 12 rows; the corrected test reads
      20 rows. */
  lemma DetectorLayoutAsWrittenCounterexample(rowMajor: seq<real>)
    requires |rowMajor| == 240
    ensures DetectorLayoutAsWritten(rowMajor, [1, 20, 12], 7).rows == 12
    ensures DetectorLayout(rowMajor, [1, 20, 12], 7).rows == 20
  {
  }
}
