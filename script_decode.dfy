/** The Node script's reading of the model output: rows of K + 4 entries (box and
    class scores, no objectness), transposed when exported attribute-major, and a
    count of the rows whose best sigmoid class score reaches 0.4, per class. */
module ScriptDecode {
  import opened Numeric
  import opened OutputLayout
  import opened Decoder

  /** The script's layout: a rank-3 output whose last dimension is K + 4 is used as
      is (this test comes first); one whose middle dimension is K + 4 is
      attribute-major and is transposed; any other rank-3 output is read as rows of
      K + 4. Rank 2 is used as is; other ranks give no rows. */
  function ScriptLayout(data: seq<real>, dims: seq<nat>, classCount: nat): (l: Layout)
    requires Shaped(data, dims)
    ensures |l.data| == |data| && l.rows * l.cols <= |data|
    ensures |dims| == 3 ==> l.cols == classCount + 4 || (l.rows == dims[1] && l.cols == dims[2])
    ensures |dims| != 2 && |dims| != 3 ==> l.rows == 0
  {
    var expected := classCount + 4;
    if |dims| == 3 then
      if dims[2] == expected then Layout(dims[1], dims[2], data)
      else if dims[1] == expected then Layout(dims[2], dims[1], Transposed(data, dims[1], dims[2]))
      else
        DivBound(|data|, expected);
        Layout(|data| / expected, expected, data)
    else if |dims| == 2 then Layout(dims[0], dims[1], data)
    else Layout(0, 0, data)
  }

  /** A head of N candidates with K + 4 entries each reads as N rows in candidate-major
      order whichever way it is exported, unless N is itself K + 4. */
  lemma ScriptLayoutOrientation(rowMajor: seq<real>, boxes: nat, classCount: nat)
    requires boxes != classCount + 4 && |rowMajor| == boxes * (classCount + 4)
    ensures ScriptLayout(rowMajor, [1, boxes, classCount + 4], classCount) == Layout(boxes, classCount + 4, rowMajor)
    ensures ScriptLayout(Transposed(rowMajor, boxes, classCount + 4), [1, classCount + 4, boxes], classCount)
              == Layout(boxes, classCount + 4, rowMajor)
  {
    TransposeInvolution(rowMajor, boxes, classCount + 4);
  }

  /** The script's transposition loop: box by box, attribute by attribute. */
  method TransposeBoxMajor(data: seq<real>, rows: nat, cols: nat) returns (t: seq<real>)
    requires |data| == rows * cols
    ensures t == Transposed(data, cols, rows)
  {
    var buf := new real[rows * cols];
    for box := 0 to rows
      invariant forall b, a :: 0 <= b < box && 0 <= a < cols ==> Cell(buf[..], cols, b, a) == Cell(data, rows, a, b)
    {
      for attr := 0 to cols
        invariant forall b, a :: 0 <= b < box && 0 <= a < cols ==> Cell(buf[..], cols, b, a) == Cell(data, rows, a, b)
        invariant forall a :: 0 <= a < attr ==> Cell(buf[..], cols, box, a) == Cell(data, rows, a, box)
      {
        FlatBound(rows, cols, box, attr);
        FlatBound(cols, rows, attr, box);
        ghost var before := buf[..];
        buf[box * cols + attr] := data[attr * rows + box];
        assert buf[..] == before[box * cols + attr := data[attr * rows + box]];
        forall b, a | 0 <= b < rows && 0 <= a < cols && (b != box || a != attr)
          ensures Cell(buf[..], cols, b, a) == Cell(before, cols, b, a)
        {
          FlatDistinct(cols, box, attr, b, a);
        }
      }
    }
    t := buf[..];
    forall b, a | 0 <= b < rows && 0 <= a < cols
      ensures Cell(t, cols, b, a) == Cell(Transposed(data, cols, rows), cols, b, a)
    {
      TransposedCell(data, cols, rows, b, a);
    }
    CellExtensionality(t, Transposed(data, cols, rows), rows, cols);
  }

  /** The script's layout block. */
  method DetectLayout(data: seq<real>, dims: seq<nat>, classCount: nat) returns (rows: nat, cols: nat, out: seq<real>)
    requires Shaped(data, dims)
    ensures Layout(rows, cols, out) == ScriptLayout(data, dims, classCount)
  {
    var expectedCols := classCount + 4;
    rows, cols, out := 0, 0, data;
    if |dims| == 3 {
      var dim1, dim2 := dims[1], dims[2];
      if dim2 == expectedCols {
        rows, cols := dim1, dim2;
      } else if dim1 == expectedCols {
        rows, cols := dim2, dim1;
        out := TransposeBoxMajor(data, rows, cols);
      } else {
        cols := expectedCols;
        rows := |data| / cols;
      }
    } else if |dims| == 2 {
      rows, cols := dims[0], dims[1];
    }
  }

  /** A row is counted when its best score reaches this. */
  const KeepThreshold: real := 0.4

  // The script's class loop applies the sigmoid at each read, so its score window
  // and running best are stated here over the raw buffer with the sigmoid applied
  // entry by entry, rather than over a sigmoid-mapped copy of the whole buffer: the
  // copy would need a buffer-wide comprehension in every contract that mentions it.
  // Both are linked to Decoder.BestClass, which holds the argmax facts once.

  /** The sigmoid of the `count` entries from index `from` on, cut short at the end
      of the buffer (a read past the end gives undefined, whose sigmoid is NaN, which
      never compares greater than anything). The sigmoid itself is left abstract. */
  function SigmoidScores(data: seq<real>, from: nat, count: nat, sigmoid: real -> real): (t: seq<real>)
    ensures |t| <= count
    ensures from + count <= |data| ==> |t| == count
    ensures |t| > 0 ==> from + |t| <= |data|
    ensures forall i :: 0 <= i < |t| ==> t[i] == sigmoid(data[from + i])
  {
    if count == 0 then []
    else
      var earlier := SigmoidScores(data, from, count - 1, sigmoid);
      if from + count - 1 < |data| then
        assert |earlier| == count - 1;
        earlier + [sigmoid(data[from + count - 1])]
      else earlier
  }

  /** The K sigmoid scores of row r: the entries after its four box entries. */
  function RowScores(data: seq<real>, r: nat, cols: nat, classCount: nat, sigmoid: real -> real): seq<real>
  {
    SigmoidScores(data, RowStart(r, cols) + 4, classCount, sigmoid)
  }

  /** The class loop's running best after its first `count` steps over the scores
      that start at `from`: a score replaces the best when it is strictly larger;
      entries past the end of the buffer are skipped. */
  function RunningSigmoidBest(data: seq<real>, from: nat, count: nat, sigmoid: real -> real): (b: Best)
    ensures -1 <= b.index < count
  {
    if count == 0 then Best(-1, 0.0)
    else
      var earlier := RunningSigmoidBest(data, from, count - 1, sigmoid);
      if from + count - 1 < |data| && sigmoid(data[from + count - 1]) > earlier.score
      then Best(count - 1, sigmoid(data[from + count - 1]))
      else earlier
  }

  /** The running best is the best class of the sigmoid scores it has seen. */
  lemma {:induction false} RunningSigmoidBestIsBestClass(data: seq<real>, from: nat, count: nat, sigmoid: real -> real)
    ensures RunningSigmoidBest(data, from, count, sigmoid) == BestClass(SigmoidScores(data, from, count, sigmoid))
  {
    if count > 0 {
      RunningSigmoidBestIsBestClass(data, from, count - 1, sigmoid);
      if from + count - 1 < |data| {
        BestClassAppend(SigmoidScores(data, from, count - 1, sigmoid), sigmoid(data[from + count - 1]));
      }
    }
  }

  /** The class row r is counted for: the best class of its sigmoid scores when the
      best score reaches 0.4; -1 when the row is not counted. */
  function RowVote(data: seq<real>, r: nat, cols: nat, classCount: nat, sigmoid: real -> real): (v: int)
    ensures -1 <= v < classCount
  {
    var best := RunningSigmoidBest(data, RowStart(r, cols) + 4, classCount, sigmoid);
    if best.score < KeepThreshold then -1 else best.index
  }

  /** A row is counted exactly when one of its scores reaches 0.4, and then for the
      first index of its largest score. */
  lemma RowVoteMeaning(data: seq<real>, r: nat, cols: nat, classCount: nat, sigmoid: real -> real)
    ensures var s, v := RowScores(data, r, cols, classCount, sigmoid), RowVote(data, r, cols, classCount, sigmoid);
            && (v == -1 <==> forall i :: 0 <= i < |s| ==> s[i] < KeepThreshold)
            && (v >= 0 ==> v < |s| && KeepThreshold <= s[v]
                           && (forall i :: 0 <= i < |s| ==> s[i] <= s[v])
                           && (forall i :: 0 <= i < v ==> s[i] < s[v]))
  {
    var s := RowScores(data, r, cols, classCount, sigmoid);
    RunningSigmoidBestIsBestClass(data, RowStart(r, cols) + 4, classCount, sigmoid);
    BestClassIsFirstMaximum(s);
  }

  /** The votes of rows 0 .. rows-1, in row order. */
  function Votes(data: seq<real>, rows: nat, cols: nat, classCount: nat, sigmoid: real -> real): (v: seq<int>)
    ensures |v| == rows
  {
    if rows == 0 then []
    else Votes(data, rows - 1, cols, classCount, sigmoid) + [RowVote(data, rows - 1, cols, classCount, sigmoid)]
  }

  /** Entry r of the votes is row r's vote. */
  lemma {:induction false} VotesAt(data: seq<real>, rows: nat, cols: nat, classCount: nat, sigmoid: real -> real, r: nat)
    requires r < rows
    ensures Votes(data, rows, cols, classCount, sigmoid)[r] == RowVote(data, r, cols, classCount, sigmoid)
  {
    var front := Votes(data, rows - 1, cols, classCount, sigmoid);
    assert Votes(data, rows, cols, classCount, sigmoid) == front + [RowVote(data, rows - 1, cols, classCount, sigmoid)];
    if r < rows - 1 {
      VotesAt(data, rows - 1, cols, classCount, sigmoid, r);
      assert (front + [RowVote(data, rows - 1, cols, classCount, sigmoid)])[r] == front[r];
    }
  }

  /** Every vote names a class or is -1. */
  lemma VotesInRange(data: seq<real>, rows: nat, cols: nat, classCount: nat, sigmoid: real -> real)
    ensures forall r :: 0 <= r < rows ==> -1 <= Votes(data, rows, cols, classCount, sigmoid)[r] < classCount
  {
    forall r | 0 <= r < rows
      ensures -1 <= Votes(data, rows, cols, classCount, sigmoid)[r] < classCount
    {
      VotesAt(data, rows, cols, classCount, sigmoid, r);
    }
  }

  /** How many rows are counted: the votes that name a class. */
  function KeptOf(votes: seq<int>): (n: nat)
    ensures n <= |votes|
  {
    if votes == [] then 0 else KeptOf(votes[..|votes| - 1]) + (if votes[|votes| - 1] >= 0 then 1 else 0)
  }

  /** How many rows are counted for class cls. */
  function CountOf(votes: seq<int>, cls: nat): (n: nat)
    ensures n <= KeptOf(votes)
  {
    if votes == [] then 0 else CountOf(votes[..|votes| - 1], cls) + (if votes[|votes| - 1] == cls then 1 else 0)
  }

  /** One more vote adds one to the kept count when it names a class. */
  lemma KeptAppend(votes: seq<int>, vote: int)
    ensures KeptOf(votes + [vote]) == KeptOf(votes) + (if vote >= 0 then 1 else 0)
  {
    assert (votes + [vote])[..|votes|] == votes;
  }

  /** The per-class counts of a sequence of votes. */
  function Counts(votes: seq<int>, classCount: nat): (c: seq<nat>)
    ensures |c| == classCount
    ensures forall i :: 0 <= i < classCount ==> c[i] == CountOf(votes, i)
  {
    seq(classCount, i requires 0 <= i < classCount => CountOf(votes, i))
  }

  /** One more vote adds one to its class's entry of the counts when it names a class. */
  lemma CountsAppend(votes: seq<int>, vote: int, classCount: nat)
    requires -1 <= vote < classCount
    ensures Counts(votes + [vote], classCount) ==
              if vote >= 0 then Counts(votes, classCount)[vote := Counts(votes, classCount)[vote] + 1]
              else Counts(votes, classCount)
  {
    assert (votes + [vote])[..|votes|] == votes;
  }

  /** Every counted row is counted for exactly one class, so the kept count is the
      sum of the per-class counts. */
  lemma {:induction false} KeptIsSumOfCounts(votes: seq<int>, classCount: nat)
    requires forall k :: 0 <= k < |votes| ==> -1 <= votes[k] < classCount
    ensures KeptOf(votes) == Sum(Counts(votes, classCount))
  {
    if votes == [] {
      ZeroSum(Counts(votes, classCount));
    } else {
      var front, last := votes[..|votes| - 1], votes[|votes| - 1];
      KeptIsSumOfCounts(front, classCount);
      assert votes == front + [last];
      CountsAppend(front, last, classCount);
      if last >= 0 {
        SumIncrement(Counts(front, classCount), last);
      }
    }
  }

  function Sum(s: seq<nat>): nat
  {
    if s == [] then 0 else Sum(s[..|s| - 1]) + s[|s| - 1]
  }

  /** Adding one to an entry adds one to the sum. */
  lemma {:induction false} SumIncrement(s: seq<nat>, i: nat)
    requires i < |s|
    ensures Sum(s[i := s[i] + 1]) == Sum(s) + 1
  {
    var t := s[i := s[i] + 1];
    if i == |s| - 1 {
      assert t[..|t| - 1] == s[..|s| - 1];
    } else {
      SumIncrement(s[..|s| - 1], i);
      assert t[..|t| - 1] == s[..|s| - 1][i := s[i] + 1];
    }
  }

  /** The class loop of a row whose scores start at `from`: the running best over
      the sigmoid of each score. */
  method ScanSigmoidScores(data: seq<real>, from: nat, classCount: nat, sigmoid: real -> real)
    returns (bestIdx: int, bestScore: real)
    ensures Best(bestIdx, bestScore) == RunningSigmoidBest(data, from, classCount, sigmoid)
  {
    bestIdx, bestScore := -1, 0.0;
    for c := 0 to classCount
      invariant Best(bestIdx, bestScore) == RunningSigmoidBest(data, from, c, sigmoid)
    {
      if from + c < |data| {
        var score := sigmoid(data[from + c]);
        if score > bestScore {
          bestScore := score;
          bestIdx := c;
        }
      }
    }
  }

  /** Counting row r adds its vote to the kept count and to its class's count. */
  lemma TallyStep(data: seq<real>, r: nat, cols: nat, classCount: nat, sigmoid: real -> real)
    ensures var before, vote := Votes(data, r, cols, classCount, sigmoid), RowVote(data, r, cols, classCount, sigmoid);
            && KeptOf(Votes(data, r + 1, cols, classCount, sigmoid)) == KeptOf(before) + (if vote >= 0 then 1 else 0)
            && Counts(Votes(data, r + 1, cols, classCount, sigmoid), classCount) ==
                 if vote >= 0 then Counts(before, classCount)[vote := Counts(before, classCount)[vote] + 1]
                 else Counts(before, classCount)
  {
    var before, vote := Votes(data, r, cols, classCount, sigmoid), RowVote(data, r, cols, classCount, sigmoid);
    assert Votes(data, r + 1, cols, classCount, sigmoid) == before + [vote];
    KeptAppend(before, vote);
    CountsAppend(before, vote, classCount);
  }

  /** The body of the counting loop for row r: its class loop, then the 0.4 cut. */
  method RowVoteOf(data: seq<real>, r: nat, cols: nat, classCount: nat, sigmoid: real -> real)
    returns (vote: int)
    ensures vote == RowVote(data, r, cols, classCount, sigmoid)
  {
    RowStartProduct(r, cols);
    var base := r * cols;
    var bestIdx, bestScore := ScanSigmoidScores(data, base + 4, classCount, sigmoid);
    vote := if bestScore >= KeepThreshold then bestIdx else -1;
  }

  /** The counting loop: counts[i] rows counted for class i and kept rows counted in
      all, which is the sum of the counts. */
  method CountDetections(data: seq<real>, rows: nat, cols: nat, classCount: nat, sigmoid: real -> real)
    returns (counts: seq<nat>, kept: nat)
    ensures counts == Counts(Votes(data, rows, cols, classCount, sigmoid), classCount)
    ensures kept == KeptOf(Votes(data, rows, cols, classCount, sigmoid))
    ensures kept == Sum(counts) && kept <= rows
  {
    counts := seq(classCount, _ => 0);
    assert counts == Counts([], classCount);
    kept := 0;
    for r := 0 to rows
      invariant kept == KeptOf(Votes(data, r, cols, classCount, sigmoid))
      invariant counts == Counts(Votes(data, r, cols, classCount, sigmoid), classCount)
    {
      var vote := RowVoteOf(data, r, cols, classCount, sigmoid);
      TallyStep(data, r, cols, classCount, sigmoid);
      if vote >= 0 {
        kept := kept + 1;
        counts := counts[vote := counts[vote] + 1];
      }
    }
    VotesInRange(data, rows, cols, classCount, sigmoid);
    KeptIsSumOfCounts(Votes(data, rows, cols, classCount, sigmoid), classCount);
  }

  lemma {:induction false} ZeroSum(s: seq<nat>)
    requires forall i :: 0 <= i < |s| ==> s[i] == 0
    ensures Sum(s) == 0
  {
    if s != [] {
      ZeroSum(s[..|s| - 1]);
    }
  }
}
