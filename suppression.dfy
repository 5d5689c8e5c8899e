/** Greedy non-maximum suppression of the browser detector: sort the detections by
    descending confidence (in place, stably), then walk them in that order, keeping a
    detection unless a detection kept before it overlaps it by more than the
    threshold. Suppression ignores the class. */
module Suppression {
  import opened Boxes

  /** The threshold the detector passes to nms. */
  const DefaultIouThreshold: real := 0.45

  predicate NonIncreasing(s: seq<Detection>)
  {
    forall i, j :: 0 <= i < j < |s| ==> s[i].conf >= s[j].conf
  }

  // ---------------------------------------------------------------------------
  // The sort: `dets.sort((a, b) => b.conf - a.conf)`, a stable sort.

  /** Inserts d behind the last entry whose confidence is at least d's, scanning
      from the back: the step of a stable insertion sort. */
  function Insert(s: seq<Detection>, d: Detection): (r: seq<Detection>)
    ensures |r| == |s| + 1
  {
    if s == [] || s[|s| - 1].conf >= d.conf then s + [d]
    else Insert(s[..|s| - 1], d) + [s[|s| - 1]]
  }

  lemma {:induction false} InsertMultiset(s: seq<Detection>, d: Detection)
    ensures multiset(Insert(s, d)) == multiset(s) + multiset{d}
  {
    if s != [] && s[|s| - 1].conf < d.conf {
      InsertMultiset(s[..|s| - 1], d);
      assert s == s[..|s| - 1] + [s[|s| - 1]];
    }
  }

  lemma {:induction false} InsertNonIncreasing(s: seq<Detection>, d: Detection)
    requires NonIncreasing(s)
    ensures NonIncreasing(Insert(s, d))
  {
    if s == [] || s[|s| - 1].conf >= d.conf {
    } else {
      var front, last := s[..|s| - 1], s[|s| - 1];
      InsertNonIncreasing(front, d);
      var t := Insert(front, d);
      InsertMultiset(front, d);
      forall i | 0 <= i < |t|
        ensures t[i].conf >= last.conf
      {
        assert t[i] in multiset(t);
        if t[i] != d {
          assert t[i] in multiset(front);
          var j :| 0 <= j < |front| && front[j] == t[i];
          assert s[j] == t[i];
        }
      }
    }
  }

  /** The order the stable sort leaves the detections in. */
  function SortByConf(s: seq<Detection>): (r: seq<Detection>)
    ensures |r| == |s|
    ensures multiset(r) == multiset(s)
    ensures NonIncreasing(r)
  {
    if s == [] then []
    else
      assert s == s[..|s| - 1] + [s[|s| - 1]];
      var sorted := SortByConf(s[..|s| - 1]);
      InsertNonIncreasing(sorted, s[|s| - 1]);
      InsertMultiset(sorted, s[|s| - 1]);
      Insert(sorted, s[|s| - 1])
  }

  /** The detections of s whose confidence is exactly c, in order. */
  function WithConf(s: seq<Detection>, c: real): seq<Detection>
  {
    if s == [] then []
    else WithConf(s[..|s| - 1], c) + (if s[|s| - 1].conf == c then [s[|s| - 1]] else [])
  }

  lemma {:induction false} InsertWithConf(s: seq<Detection>, d: Detection, c: real)
    ensures WithConf(Insert(s, d), c) == WithConf(s, c) + (if d.conf == c then [d] else [])
  {
    if s == [] || s[|s| - 1].conf >= d.conf {
      assert (s + [d])[..|s|] == s;
    } else {
      var front, last := s[..|s| - 1], s[|s| - 1];
      InsertWithConf(front, d, c);
      var t := Insert(front, d);
      assert (t + [last])[..|t|] == t;
    }
  }

  /** The sort is stable: detections of equal confidence keep their relative order. */
  lemma {:induction false} SortStable(s: seq<Detection>, c: real)
    ensures WithConf(SortByConf(s), c) == WithConf(s, c)
  {
    if s != [] {
      SortStable(s[..|s| - 1], c);
      InsertWithConf(SortByConf(s[..|s| - 1]), s[|s| - 1], c);
    }
  }

  /** A sequence already in descending order of confidence is left as it is. */
  lemma {:induction false} SortByConfFixpoint(s: seq<Detection>)
    requires NonIncreasing(s)
    ensures SortByConf(s) == s
  {
    if s != [] {
      SortByConfFixpoint(s[..|s| - 1]);
      assert s == s[..|s| - 1] + [s[|s| - 1]];
    }
  }

  /** Insert puts d right behind the last entry whose confidence is at least d's. */
  lemma {:induction false} InsertPosition(s: seq<Detection>, j: nat, d: Detection)
    requires j <= |s| && (j == 0 || s[j - 1].conf >= d.conf)
    requires forall k :: j <= k < |s| ==> s[k].conf < d.conf
    ensures Insert(s, d) == s[..j] + [d] + s[j..]
    decreases |s|
  {
    if j < |s| {
      var front, last := s[..|s| - 1], s[|s| - 1];
      assert last.conf < d.conf;
      assert Insert(s, d) == Insert(front, d) + [last];
      assert front[..j] == s[..j];
      InsertPosition(front, j, d);
      assert s[j..] == front[j..] + [last];
    } else {
      assert s[..j] == s && s[j..] == [];
      assert Insert(s, d) == s + [d];
    }
  }

  /** Moves a[i] left past the entries of a[..i] of lower confidence. */
  method InsertAt(a: array<Detection>, i: nat)
    requires i < a.Length
    modifies a
    ensures a[..i + 1] == Insert(old(a[..i]), old(a[i]))
    ensures forall k :: i < k < a.Length ==> a[k] == old(a[k])
  {
    ghost var sorted := a[..i];
    var d := a[i];
    var j := i;
    while j > 0 && a[j - 1].conf < d.conf
      invariant 0 <= j <= i
      invariant forall k :: 0 <= k < j ==> a[k] == sorted[k]
      invariant forall k :: j < k <= i ==> a[k] == sorted[k - 1]
      invariant forall k :: i < k < a.Length ==> a[k] == old(a[k])
      invariant forall k :: j <= k < i ==> sorted[k].conf < d.conf
    {
      a[j] := a[j - 1];
      j := j - 1;
    }
    InsertPosition(sorted, j, d);
    a[j] := d;
    ghost var placed := sorted[..j] + [d] + sorted[j..];
    assert forall k :: 0 <= k <= i ==> a[k] == placed[k];
    assert a[..i + 1] == placed;
  }

  /** The in-place sort: insertion sort, left to right. */
  method SortInPlace(a: array<Detection>)
    modifies a
    ensures a[..] == SortByConf(old(a[..]))
  {
    ghost var input := a[..];
    for i := 0 to a.Length
      invariant a[..i] == SortByConf(input[..i])
      invariant forall k :: i <= k < a.Length ==> a[k] == input[k]
    {
      assert input[..i + 1][..i] == input[..i];
      InsertAt(a, i);
    }
    assert input[..a.Length] == input;
    assert a[..a.Length] == a[..];
  }

  // ---------------------------------------------------------------------------
  // The greedy walk.

  /** Some kept detection overlaps d by more than thr. */
  predicate Suppresses(kept: seq<Detection>, d: Detection, thr: real)
  {
    exists k :: 0 <= k < |kept| && Iou(kept[k], d) > thr
  }

  lemma SuppressesAppend(kept: seq<Detection>, a: Detection, d: Detection, thr: real)
    ensures Suppresses(kept + [a], d, thr) <==> Suppresses(kept, d, thr) || Iou(a, d) > thr
  {
    if Suppresses(kept, d, thr) {
      var k :| 0 <= k < |kept| && Iou(kept[k], d) > thr;
      assert (kept + [a])[k] == kept[k];
    }
    if Iou(a, d) > thr {
      assert (kept + [a])[|kept|] == a;
    }
  }

  /** What the greedy walk keeps of s, already in sorted order. */
  function Greedy(s: seq<Detection>, thr: real): (r: seq<Detection>)
    ensures |r| <= |s|
  {
    if s == [] then []
    else
      var kept := Greedy(s[..|s| - 1], thr);
      if Suppresses(kept, s[|s| - 1], thr) then kept else kept + [s[|s| - 1]]
  }

  /** The result of nms(dets, thr). */
  function NmsResult(dets: seq<Detection>, thr: real): seq<Detection>
  {
    Greedy(SortByConf(dets), thr)
  }

  /** a can be obtained from b by deleting entries. */
  predicate IsSubsequence(a: seq<Detection>, b: seq<Detection>)
    decreases |b|
  {
    if a == [] then true
    else if b == [] then false
    else
      || (a[|a| - 1] == b[|b| - 1] && IsSubsequence(a[..|a| - 1], b[..|b| - 1]))
      || IsSubsequence(a, b[..|b| - 1])
  }

  lemma {:induction false} SubsequenceMembers(a: seq<Detection>, b: seq<Detection>)
    requires IsSubsequence(a, b)
    ensures |a| <= |b|
    ensures forall x :: x in a ==> x in b
    decreases |b|
  {
    if a != [] {
      var a', b' := a[..|a| - 1], b[..|b| - 1];
      assert b == b' + [b[|b| - 1]];
      if a[|a| - 1] == b[|b| - 1] && IsSubsequence(a', b') {
        SubsequenceMembers(a', b');
        assert a == a' + [a[|a| - 1]];
      } else {
        SubsequenceMembers(a, b');
      }
    }
  }

  /** Deleting entries keeps a sequence in descending order of confidence. */
  lemma {:induction false} SubsequenceNonIncreasing(a: seq<Detection>, b: seq<Detection>)
    requires IsSubsequence(a, b) && NonIncreasing(b)
    ensures NonIncreasing(a)
    decreases |b|
  {
    if a != [] {
      var a', b' := a[..|a| - 1], b[..|b| - 1];
      assert NonIncreasing(b');
      if a[|a| - 1] == b[|b| - 1] && IsSubsequence(a', b') {
        SubsequenceNonIncreasing(a', b');
        SubsequenceMembers(a', b');
        forall i | 0 <= i < |a'|
          ensures a'[i].conf >= a[|a| - 1].conf
        {
          assert a'[i] in b';
          var k :| 0 <= k < |b'| && b'[k] == a'[i];
          assert b[k] == a'[i];
        }
        assert forall i :: 0 <= i < |a'| ==> a[i] == a'[i];
      } else {
        SubsequenceNonIncreasing(a, b');
      }
    }
  }

  lemma {:induction false} GreedySubsequence(s: seq<Detection>, thr: real)
    ensures IsSubsequence(Greedy(s, thr), s)
  {
    if s != [] {
      var front := s[..|s| - 1];
      GreedySubsequence(front, thr);
      var kept := Greedy(front, thr);
      if !Suppresses(kept, s[|s| - 1], thr) {
        assert (kept + [s[|s| - 1]])[..|kept|] == kept;
      } else if kept != [] {
        assert s[..|s| - 1] == front;
      }
    }
  }

  /** What the walk keeps of a prefix is a prefix of what it keeps of the whole. */
  lemma {:induction false} GreedyPrefix(s: seq<Detection>, j: nat, thr: real)
    requires j <= |s|
    ensures Greedy(s[..j], thr) <= Greedy(s, thr)
    decreases |s| - j
  {
    if j < |s| {
      var front := s[..|s| - 1];
      assert front[..j] == s[..j];
      GreedyPrefix(front, j, thr);
    } else {
      assert s[..j] == s;
    }
  }

  /** The first detection of the sorted order is always kept. */
  lemma GreedyKeepsFirst(s: seq<Detection>, thr: real)
    requires s != []
    ensures Greedy(s, thr) != [] && Greedy(s, thr)[0] == s[0]
  {
    GreedyPrefix(s, 1, thr);
    assert s[..1][..0] == [];
    assert Greedy(s[..1], thr) == [s[0]];
  }

  /** No two kept detections overlap by more than thr, whatever their classes. */
  lemma {:induction false} GreedyNoOverlap(s: seq<Detection>, thr: real)
    ensures forall p, q :: 0 <= p < |Greedy(s, thr)| && 0 <= q < |Greedy(s, thr)| && p != q
              ==> Iou(Greedy(s, thr)[p], Greedy(s, thr)[q]) <= thr
  {
    if s != [] {
      var front, d := s[..|s| - 1], s[|s| - 1];
      GreedyNoOverlap(front, thr);
      var kept := Greedy(front, thr);
      if !Suppresses(kept, d, thr) {
        var r := kept + [d];
        forall p, q | 0 <= p < |r| && 0 <= q < |r| && p != q
          ensures Iou(r[p], r[q]) <= thr
        {
          if q == |kept| {
            assert r[p] == kept[p];
          } else if p == |kept| {
            assert r[q] == kept[q];
            IouSymmetric(d, kept[q]);
          } else {
            assert r[p] == kept[p] && r[q] == kept[q];
          }
        }
      }
    }
  }

  /** Every detection of the sorted input is kept, or is overlapped by more than thr
      by a detection kept before it was reached. */
  lemma GreedyDropsOnlySuppressed(s: seq<Detection>, thr: real)
    ensures forall j :: 0 <= j < |s| ==>
              s[j] in Greedy(s, thr) || Suppresses(Greedy(s[..j], thr), s[j], thr)
  {
    forall j | 0 <= j < |s| && !Suppresses(Greedy(s[..j], thr), s[j], thr)
      ensures s[j] in Greedy(s, thr)
    {
      var t := s[..j + 1];
      assert t[..j] == s[..j];
      assert Greedy(t, thr) == Greedy(s[..j], thr) + [s[j]];
      GreedyPrefix(s, j + 1, thr);
      assert Greedy(t, thr)[j - j + |Greedy(s[..j], thr)|] == s[j];
    }
  }

  /** A walk over detections none of which overlap keeps all of them. */
  lemma {:induction false} GreedyFixpoint(s: seq<Detection>, thr: real)
    requires forall p, q :: 0 <= p < q < |s| ==> Iou(s[p], s[q]) <= thr
    ensures Greedy(s, thr) == s
  {
    if s != [] {
      var front, d := s[..|s| - 1], s[|s| - 1];
      GreedyFixpoint(front, thr);
      assert forall k :: 0 <= k < |front| ==> front[k] == s[k];
      assert !Suppresses(front, d, thr);
      assert s == front + [d];
    }
  }

  /** nms returns its input's detections, in descending order of confidence, the
      most confident first, none overlapping another by more than thr. */
  lemma NmsResultProperties(dets: seq<Detection>, thr: real)
    ensures |NmsResult(dets, thr)| <= |dets|
    ensures NonIncreasing(NmsResult(dets, thr))
    ensures forall d :: d in NmsResult(dets, thr) ==> d in dets
    ensures dets == [] <==> NmsResult(dets, thr) == []
    ensures dets != [] ==> forall d :: d in dets ==> NmsResult(dets, thr)[0].conf >= d.conf
    ensures forall p, q :: 0 <= p < |NmsResult(dets, thr)| && 0 <= q < |NmsResult(dets, thr)| && p != q
              ==> Iou(NmsResult(dets, thr)[p], NmsResult(dets, thr)[q]) <= thr
  {
    var sorted := SortByConf(dets);
    GreedySubsequence(sorted, thr);
    SubsequenceMembers(Greedy(sorted, thr), sorted);
    SubsequenceNonIncreasing(Greedy(sorted, thr), sorted);
    forall d | d in sorted
      ensures d in dets
    {
      assert d in multiset(sorted);
    }
    GreedyNoOverlap(sorted, thr);
    if dets != [] {
      GreedyKeepsFirst(sorted, thr);
      forall d | d in dets
        ensures sorted[0].conf >= d.conf
      {
        assert d in multiset(sorted);
        var k :| 0 <= k < |sorted| && sorted[k] == d;
      }
    }
  }

  /** Running nms on its own output changes nothing. */
  lemma NmsIdempotent(dets: seq<Detection>, thr: real)
    ensures NmsResult(NmsResult(dets, thr), thr) == NmsResult(dets, thr)
  {
    var once := NmsResult(dets, thr);
    NmsResultProperties(dets, thr);
    SortByConfFixpoint(once);
    GreedyFixpoint(once, thr);
  }

  /** The inner loop of nms: marks every detection after position i that a
      overlaps by more than thr. */
  method MarkSuppressed(dets: array<Detection>, used: array<bool>, i: nat, a: Detection, thr: real)
    requires used.Length == dets.Length && i < dets.Length
    modifies used
    ensures forall t :: 0 <= t <= i ==> used[t] == old(used[t])
    ensures forall t :: i < t < dets.Length ==> (used[t] <==> old(used[t]) || Iou(a, dets[t]) > thr)
  {
    for j := i + 1 to dets.Length
      invariant forall t :: 0 <= t <= i || j <= t < dets.Length ==> used[t] == old(used[t])
      invariant forall t :: i < t < j ==> (used[t] <==> old(used[t]) || Iou(a, dets[t]) > thr)
    {
      if !used[j] && Iou(a, dets[j]) > thr {
        used[j] := true;
      }
    }
  }

  /** nms(dets, iouThr): sorts dets in place and returns the detections the greedy
      walk keeps, marking suppressed ones in `used`. */
  method Nms(dets: array<Detection>, iouThr: real) returns (out: seq<Detection>)
    modifies dets
    ensures dets[..] == SortByConf(old(dets[..]))
    ensures out == NmsResult(old(dets[..]), iouThr)
  {
    SortInPlace(dets);
    var used := new bool[dets.Length](_ => false);
    out := [];
    for i := 0 to dets.Length
      modifies used
      invariant out == Greedy(dets[..i], iouThr)
      invariant forall j :: i <= j < dets.Length ==> (used[j] <==> Suppresses(out, dets[j], iouThr))
    {
      assert dets[..i + 1][..i] == dets[..i];
      if !used[i] {
        var a := dets[i];
        ghost var before := out;
        out := out + [a];
        MarkSuppressed(dets, used, i, a, iouThr);
        forall t | i < t < dets.Length
          ensures used[t] <==> Suppresses(out, dets[t], iouThr)
        {
          SuppressesAppend(before, a, dets[t], iouThr);
        }
      }
    }
    assert dets[..dets.Length] == dets[..];
  }
}
