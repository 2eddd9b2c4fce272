/** Half-open ranges of numbers merged by a single pass over a sorted list,
    where an end of zero stands for the top of the number space. */
module Ranges {

  datatype Range = Range(start: nat, end: nat) {
    predicate Wraps() { end == 0 }

    predicate Covers(a: nat) {
      start <= a && (a < end || Wraps())
    }
  }

  ghost predicate SortedByStart(ivs: seq<Range>)
  {
    forall i, j :: 0 <= i < j < |ivs| ==> ivs[i].start <= ivs[j].start
  }

  ghost predicate AnyCovers(ivs: seq<Range>, a: nat)
  {
    exists i :: 0 <= i < |ivs| && ivs[i].Covers(a)
  }

  // One round of the merge loop: out is the merged list so far.
  function MergeStep(out: seq<Range>, iv: Range): (r: seq<Range>)
    requires out != []
    ensures r != []
  {
    var last := out[|out| - 1];
    if iv.start <= last.end then
      if last.end < iv.end then out[|out| - 1 := last.(end := iv.end)] else out
    else out + [iv]
  }

  function MergeFrom(out: seq<Range>, rest: seq<Range>): (r: seq<Range>)
    requires out != []
    ensures r != []
    decreases |rest|
  {
    if rest == [] then out else MergeFrom(MergeStep(out, rest[0]), rest[1..])
  }

  function MergeSorted(ivs: seq<Range>): (r: seq<Range>)
  {
    if ivs == [] then [] else MergeFrom([ivs[0]], ivs[1..])
  }

  lemma InsertKeepsSorted(s: seq<Range>, iv: Range, k: nat)
    requires k <= |s| && SortedByStart(s)
    requires k > 0 ==> s[k - 1].start <= iv.start
    requires k < |s| ==> iv.start <= s[k].start
    ensures SortedByStart(s[..k] + [iv] + s[k..])
  {
    var t := s[..k] + [iv] + s[k..];
    forall i, j | 0 <= i < j < |t| ensures t[i].start <= t[j].start {
      var oi, oj := if i < k then i else i - 1, if j < k then j else j - 1;
      if i == k {
        assert s[k].start <= s[oj].start;
      } else if j == k {
        assert s[oi].start <= s[k - 1].start;
      } else {
        assert t[i] == s[oi] && t[j] == s[oj];
      }
    }
  }

  // Strictly increasing, disjoint, non-adjacent and non-wrapping.
  ghost predicate Separated(out: seq<Range>)
  {
    && (forall i :: 0 <= i < |out| ==> out[i].start < out[i].end)
    && (forall i, j :: 0 <= i < j < |out| ==> out[i].end < out[j].start)
  }

  ghost predicate NoneWraps(ivs: seq<Range>)
  {
    forall i :: 0 <= i < |ivs| ==> ivs[i].start < ivs[i].end
  }

  // A round of the loop keeps the list separated and adds exactly one
  // range to the union.
  lemma StepSeparated(out: seq<Range>, iv: Range)
    requires out != [] && Separated(out) && iv.start < iv.end
    requires out[|out| - 1].start <= iv.start
    ensures var r := MergeStep(out, iv); Separated(r) && r[|r| - 1].start <= iv.start
  {
  }

  lemma StepCovers(out: seq<Range>, iv: Range, a: nat)
    requires out != [] && Separated(out) && iv.start < iv.end
    requires out[|out| - 1].start <= iv.start
    ensures AnyCovers(MergeStep(out, iv), a) <==> AnyCovers(out, a) || iv.Covers(a)
  {
    var init, last := out[..|out| - 1], out[|out| - 1];
    assert out == init + [last];
    AnyCoversSnoc(init, last, a);
    if iv.start <= last.end {
      var joined := if last.end < iv.end then last.(end := iv.end) else last;
      assert MergeStep(out, iv) == init + [joined];
      AnyCoversSnoc(init, joined, a);
    } else {
      AnyCoversSnoc(out, iv, a);
    }
  }

  lemma AnyCoversSnoc(ivs: seq<Range>, iv: Range, a: nat)
    ensures AnyCovers(ivs + [iv], a) <==> AnyCovers(ivs, a) || iv.Covers(a)
  {
    var s := ivs + [iv];
    if AnyCovers(ivs, a) {
      var i :| 0 <= i < |ivs| && ivs[i].Covers(a);
      assert s[i].Covers(a);
    }
    if iv.Covers(a) {
      assert s[|ivs|].Covers(a);
    }
  }

  lemma {:induction false} MergeFromKeeps(out: seq<Range>, rest: seq<Range>, a: nat)
    requires out != []
    requires Separated(out) && NoneWraps(rest) && SortedByStart(rest)
    requires rest != [] ==> out[|out| - 1].start <= rest[0].start
    ensures Separated(MergeFrom(out, rest))
    ensures AnyCovers(MergeFrom(out, rest), a) <==> AnyCovers(out, a) || AnyCovers(rest, a)
    decreases |rest|
  {
    if rest != [] {
      StepSeparated(out, rest[0]);
      StepCovers(out, rest[0], a);
      MergeFromKeeps(MergeStep(out, rest[0]), rest[1..], a);
      AnyCoversCons(rest, a);
    }
  }

  lemma AnyCoversCons(ivs: seq<Range>, a: nat)
    requires ivs != []
    ensures AnyCovers(ivs, a) <==> ivs[0].Covers(a) || AnyCovers(ivs[1..], a)
  {
    if AnyCovers(ivs, a) {
      var i :| 0 <= i < |ivs| && ivs[i].Covers(a);
      assert i > 0 ==> ivs[1..][i - 1].Covers(a);
    }
    if AnyCovers(ivs[1..], a) {
      var i :| 0 <= i < |ivs[1..]| && ivs[1..][i].Covers(a);
      assert ivs[i + 1].Covers(a);
    }
  }

  // For ranges that stay below the top of the number space the merged list
  // is separated and denotes the same numbers.
  lemma {:induction false} MergedIsSeparatedAndExact(s: seq<Range>, a: nat)
    requires SortedByStart(s) && NoneWraps(s)
    ensures Separated(MergeSorted(s))
    ensures AnyCovers(MergeSorted(s), a) <==> AnyCovers(s, a)
  {
    if s != [] {
      MergeFromKeeps([s[0]], s[1..], a);
      AnyCoversCons(s, a);
      AnyCoversCons([s[0]], a);
    }
  }

  // ---- prefixes that reach the all-ones address ----
  //
  // Their interval end is zero, so the merge loop never extends a run with
  // them and lets a later interval overwrite a /0.

  ghost predicate Regular(ivs: seq<Range>)
  {
    forall i :: 0 <= i < |ivs| ==> ivs[i].Wraps() || ivs[i].start < ivs[i].end
  }

  // The merge loses addresses: w is the first wrapping interval, and either
  // an interval before it runs up to it, or it is a /0 and another interval
  // starts at zero.
  ghost predicate Clash(s: seq<Range>, w: nat)
  {
    && w < |s| && s[w].Wraps() && NoneWraps(s[..w])
    && ((exists i :: 0 <= i < w && s[w].start <= s[i].end)
        || (exists i :: 0 <= i < |s| && s[w].start == s[i].start == 0 && !s[i].Wraps()))
  }

  ghost predicate Exact(s: seq<Range>, span: nat)
  {
    forall a :: 0 <= a < span ==> (AnyCovers(MergeSorted(s), a) <==> AnyCovers(s, a))
  }

  ghost predicate EndsBelow(s: seq<Range>, span: nat)
  {
    forall i :: 0 <= i < |s| ==> s[i].end < span
  }

  lemma {:induction false} MergeFromSplit(out: seq<Range>, a: seq<Range>, b: seq<Range>)
    requires out != []
    ensures MergeFrom(out, a + b) == MergeFrom(MergeFrom(out, a), b)
    decreases |a|
  {
    if a == [] {
      assert a + b == b;
    } else {
      assert (a + b)[1..] == a[1..] + b;
      MergeFromSplit(MergeStep(out, a[0]), a[1..], b);
    }
  }

  // Once a wrapping interval sits in the merged list, nothing after it
  // changes what the list denotes.
  lemma {:induction false} KeptTop(out: seq<Range>, k: nat, rest: seq<Range>, a: nat)
    requires k < |out| && out[k].Wraps()
    requires forall j :: k <= j < |out| ==> out[k].start <= out[j].start
    requires forall j :: 0 <= j < |rest| ==> out[k].start <= rest[j].start
    requires k == |out| - 1 ==> forall j :: 0 <= j < |rest| ==> rest[j].Wraps() || 0 < rest[j].start
    ensures AnyCovers(MergeFrom(out, rest), a) <==> AnyCovers(out[..k + 1], a)
    decreases |rest|
  {
    if rest == [] {
      if AnyCovers(out, a) {
        var i :| 0 <= i < |out| && out[i].Covers(a);
        if i <= k {
          assert out[..k + 1][i].Covers(a);
        } else {
          assert out[..k + 1][k].Covers(a);
        }
      }
      if AnyCovers(out[..k + 1], a) {
        var i :| 0 <= i < k + 1 && out[..k + 1][i].Covers(a);
        assert out[i].Covers(a);
      }
    } else {
      var r := MergeStep(out, rest[0]);
      assert r[..k + 1] == out[..k + 1];
      KeptTop(r, k, rest[1..], a);
    }
  }

  // An address below every start still to come stays uncovered.
  lemma {:induction false} NeverCovered(out: seq<Range>, rest: seq<Range>, a: nat)
    requires out != []
    requires !AnyCovers(out, a) && a < out[|out| - 1].start
    requires forall j :: 0 <= j < |rest| ==> a < rest[j].start
    ensures !AnyCovers(MergeFrom(out, rest), a)
    decreases |rest|
  {
    if rest != [] {
      var r, k := MergeStep(out, rest[0]), |out| - 1;
      forall i | 0 <= i < |r| ensures !r[i].Covers(a) {
        if i < k { assert !out[i].Covers(a); }
        if i == k { assert !out[k].Covers(a); }
      }
      NeverCovered(r, rest[1..], a);
    }
  }

  // With only bounded intervals merged so far, some address at or above the
  // last end stays uncovered.
  lemma {:induction false} Lost(out: seq<Range>, rest: seq<Range>, span: nat) returns (a: nat)
    requires EndsBelow(out, span) && EndsBelow(rest, span)
    requires out != [] && Separated(out)
    requires SortedByStart(rest) && Regular(rest)
    requires rest != [] ==> out[|out| - 1].start <= rest[0].start
    ensures out[|out| - 1].end <= a < span
    ensures !AnyCovers(MergeFrom(out, rest), a)
    decreases |rest|
  {
    var k := |out| - 1;
    a := out[k].end;
    NotCoveredAtEnd(out);
    if rest != [] {
      var r := MergeStep(out, rest[0]);
      if out[k].end < rest[0].start {
        AnyCoversSnoc(out, rest[0], a);
        NeverCovered(r, rest[1..], a);
      } else if rest[0].Wraps() {
        a := Lost(out, rest[1..], span);
      } else {
        StepSeparated(out, rest[0]);
        a := Lost(r, rest[1..], span);
      }
    }
  }

  lemma NotCoveredAtEnd(out: seq<Range>)
    requires out != [] && Separated(out)
    ensures !AnyCovers(out, out[|out| - 1].end)
  {
    var k := |out| - 1;
    forall i | 0 <= i < |out| ensures !out[i].Covers(out[k].end) {
      assert out[i].start < out[i].end;
      assert i < k ==> out[i].end < out[k].start;
    }
  }

  // The last end of a separated list bounds everything it covers.
  lemma LastEndIsMax(s: seq<Range>, i: nat)
    requires s != [] && SortedByStart(s) && NoneWraps(s) && i < |s|
    ensures var m := MergeSorted(s); m != [] && s[i].end <= m[|m| - 1].end
  {
    if i == 0 {
      EndGrows([s[0]], s[1..]);
    } else {
      EndReached([s[0]], s[1..], i - 1);
    }
  }

  lemma {:induction false} EndGrows(out: seq<Range>, rest: seq<Range>)
    requires out != [] && NoneWraps(rest)
    ensures var m := MergeFrom(out, rest); out[|out| - 1].end <= m[|m| - 1].end
    decreases |rest|
  {
    if rest != [] {
      StepEnd(out, rest[0]);
      EndGrows(MergeStep(out, rest[0]), rest[1..]);
    }
  }

  lemma StepEnd(out: seq<Range>, iv: Range)
    requires out != [] && iv.start < iv.end
    ensures var r := MergeStep(out, iv);
            out[|out| - 1].end <= r[|r| - 1].end && iv.end <= r[|r| - 1].end
  {
  }

  lemma {:induction false} EndReached(out: seq<Range>, rest: seq<Range>, i: nat)
    requires out != [] && NoneWraps(rest) && i < |rest|
    ensures var m := MergeFrom(out, rest); rest[i].end <= m[|m| - 1].end
    decreases |rest|
  {
    var r := MergeStep(out, rest[0]);
    StepEnd(out, rest[0]);
    if i == 0 {
      EndGrows(r, rest[1..]);
    } else {
      EndReached(r, rest[1..], i - 1);
    }
  }

  // When the merge is exact for a sorted arrangement of prefix intervals
  // whose first wrapping interval is at w: exactly when nothing clashes.
  lemma {:induction false} ExactIffNoClash(s: seq<Range>, w: nat, span: nat)
    requires SortedByStart(s) && Regular(s) && EndsBelow(s, span)
    requires w < |s| && s[w].Wraps() && NoneWraps(s[..w])
    ensures Exact(s, span) <==> !Clash(s, w)
  {
    if Clash(s, w) {
      ClashLoses(s, w, span);
    } else {
      forall a | 0 <= a < span
        ensures AnyCovers(MergeSorted(s), a) <==> AnyCovers(s, a)
      {
        NoClashKeeps(s, w, a);
      }
    }
  }

  lemma MergeSortedSplit(s: seq<Range>, w: nat)
    requires 0 < w < |s|
    ensures MergeSorted(s[..w]) != []
    ensures MergeSorted(s) == MergeFrom(MergeStep(MergeSorted(s[..w]), s[w]), s[w + 1..])
  {
    assert s[1..] == s[..w][1..] + s[w..];
    MergeFromSplit([s[0]], s[..w][1..], s[w..]);
    assert s[w..][1..] == s[w + 1..];
  }

  // Everything from w on lies inside the wrapping interval at w.
  lemma CoveredUpToTop(s: seq<Range>, w: nat, a: nat)
    requires w < |s| && SortedByStart(s) && s[w].Wraps()
    ensures AnyCovers(s, a) <==> AnyCovers(s[..w], a) || s[w].Covers(a)
  {
    if AnyCovers(s, a) {
      var i :| 0 <= i < |s| && s[i].Covers(a);
      if i < w {
        assert s[..w][i].Covers(a);
      } else {
        assert s[w].start <= s[i].start;
      }
    }
    if AnyCovers(s[..w], a) {
      var i :| 0 <= i < w && s[..w][i].Covers(a);
      assert s[i].Covers(a);
    }
  }

  lemma NoClashKeeps(s: seq<Range>, w: nat, a: nat)
    requires SortedByStart(s) && Regular(s)
    requires w < |s| && s[w].Wraps() && NoneWraps(s[..w]) && !Clash(s, w)
    ensures AnyCovers(MergeSorted(s), a) <==> AnyCovers(s, a)
  {
    CoveredUpToTop(s, w, a);
    if w == 0 {
      AnyCoversSnoc([], s[0], a);
      KeptTop([s[0]], 0, s[1..], a);
      assert [s[0]][..1] == [] + [s[0]];
    } else {
      GapBelowTop(s, w);
      TopAfterGap(s, w, a);
    }
  }

  lemma TopAfterGap(s: seq<Range>, w: nat, a: nat)
    requires SortedByStart(s) && 0 < w < |s| && s[w].Wraps() && NoneWraps(s[..w])
    requires var m := MergeSorted(s[..w]); m != [] && m[|m| - 1].end < s[w].start
    ensures AnyCovers(MergeSorted(s), a) <==> AnyCovers(s[..w], a) || s[w].Covers(a)
  {
    var m := MergeSorted(s[..w]);
    MergeSortedSplit(s, w);
    MergedIsSeparatedAndExact(s[..w], a);
    AnyCoversSnoc(m, s[w], a);
    LastStart(s[..w]);
    TopAppended(m, s[w], s[w + 1..], a);
  }

  // Appending a wrapping interval above a gap keeps it to the end.
  lemma TopAppended(m: seq<Range>, top: Range, rest: seq<Range>, a: nat)
    requires m != [] && top.Wraps() && m[|m| - 1].end < top.start
    requires forall j :: 0 <= j < |rest| ==> top.start <= rest[j].start
    ensures AnyCovers(MergeFrom(MergeStep(m, top), rest), a) <==> AnyCovers(m + [top], a)
  {
    KeptTop(m + [top], |m|, rest, a);
    assert (m + [top])[..|m| + 1] == m + [top];
  }

  lemma GapBelowTop(s: seq<Range>, w: nat)
    requires SortedByStart(s) && 0 < w < |s| && s[w].Wraps() && NoneWraps(s[..w]) && !Clash(s, w)
    ensures var m := MergeSorted(s[..w]); m != [] && m[|m| - 1].end < s[w].start
  {
    var i := LastEndAttained([s[0]], s[..w][1..]);
    assert s[..w] == [s[0]] + s[..w][1..];
    assert MergeSorted(s[..w])[|MergeSorted(s[..w])| - 1].end == s[i].end;
  }

  // The last end of the merged list is the end of one of the intervals:
  // index 0 for the list so far, i + 1 for the i-th of the rest.
  lemma {:induction false} LastEndAttained(out: seq<Range>, rest: seq<Range>) returns (i: nat)
    requires out != []
    ensures i <= |rest|
    ensures var m := MergeFrom(out, rest);
            m[|m| - 1].end == if i == 0 then out[|out| - 1].end else rest[i - 1].end
    decreases |rest|
  {
    i := 0;
    if rest != [] {
      var r := MergeStep(out, rest[0]);
      var j := LastEndAttained(r, rest[1..]);
      i := if j > 0 then j + 1 else if r[|r| - 1].end == out[|out| - 1].end then 0 else 1;
    }
  }

  lemma ClashLoses(s: seq<Range>, w: nat, span: nat)
    requires SortedByStart(s) && Regular(s) && EndsBelow(s, span)
    requires Clash(s, w)
    ensures !Exact(s, span)
  {
    var a: nat;
    if w > 0 {
      a := SwallowedTop(s, w, span);
    } else {
      a := OverwrittenZero(s, span);
    }
    assert s[w].Covers(a);
    assert AnyCovers(s, a) && !AnyCovers(MergeSorted(s), a);
  }

  // A wrapping range reached by an earlier one is dropped from the list.
  lemma SwallowedTop(s: seq<Range>, w: nat, span: nat) returns (a: nat)
    requires SortedByStart(s) && Regular(s) && EndsBelow(s, span)
    requires Clash(s, w) && w > 0
    ensures s[w].start <= a < span && !AnyCovers(MergeSorted(s), a)
  {
    hide MergeFrom;
    var m := MergeSorted(s[..w]);
    MergeSortedSplit(s, w);
    MergedIsSeparatedAndExact(s[..w], 0);
    var i := EarlierEndReaches(s, w);
    LastEndIsMax(s[..w], i);
    assert MergeStep(m, s[w]) == m;
    LastStart(s[..w]);
    EndsStayBelow([s[0]], s[..w][1..], span);
    a := Lost(m, s[w + 1..], span);
  }

  lemma {:induction false} EndsStayBelow(out: seq<Range>, rest: seq<Range>, span: nat)
    requires out != [] && EndsBelow(out, span) && EndsBelow(rest, span)
    ensures EndsBelow(MergeFrom(out, rest), span)
    decreases |rest|
  {
    if rest != [] {
      EndsStayBelow(MergeStep(out, rest[0]), rest[1..], span);
    }
  }

  lemma EarlierEndReaches(s: seq<Range>, w: nat) returns (i: nat)
    requires SortedByStart(s) && Clash(s, w) && w > 0
    ensures i < w && s[w].start <= s[i].end
  {
    assert s[..w][0].start < s[..w][0].end;
    i :| 0 <= i < w && s[w].start <= s[i].end;
  }

  // The last interval of the merged list starts no later than the last one
  // merged.
  lemma LastStart(s: seq<Range>)
    requires s != [] && SortedByStart(s)
    ensures var m := MergeSorted(s); m != [] && m[|m| - 1].start <= s[|s| - 1].start
  {
    LastStartFrom([s[0]], s[1..]);
  }

  lemma {:induction false} LastStartFrom(out: seq<Range>, rest: seq<Range>)
    requires out != [] && SortedByStart(rest)
    requires rest != [] ==> out[|out| - 1].start <= rest[0].start
    ensures var m := MergeFrom(out, rest);
            m[|m| - 1].start <= (out + rest)[|out + rest| - 1].start
    decreases |rest|
  {
    if rest != [] {
      LastStartFrom(MergeStep(out, rest[0]), rest[1..]);
    }
  }

  // A /0 in front is overwritten by the first bounded interval at zero.
  lemma OverwrittenZero(s: seq<Range>, span: nat) returns (a: nat)
    requires SortedByStart(s) && Regular(s) && EndsBelow(s, span)
    requires Clash(s, 0)
    ensures a < span && !AnyCovers(MergeSorted(s), a) && s[0].start == 0
  {
    var i :| 0 <= i < |s| && s[0].start == s[i].start == 0 && !s[i].Wraps();
    a := OverwrittenFrom(s[0], s[1..], i - 1, span);
  }

  lemma {:induction false} OverwrittenFrom(top: Range, rest: seq<Range>, i: nat, span: nat) returns (a: nat)
    requires SortedByStart(rest) && Regular(rest) && EndsBelow(rest, span)
    requires top.Wraps() && top.start == 0
    requires i < |rest| && rest[i].start == 0 && !rest[i].Wraps()
    ensures a < span && !AnyCovers(MergeFrom([top], rest), a)
    decreases |rest|
  {
    var q := rest[0];
    assert q.start <= rest[i].start;
    if q.Wraps() {
      assert MergeStep([top], q) == [top];
      a := OverwrittenFrom(top, rest[1..], i - 1, span);
    } else {
      assert MergeStep([top], q) == [top.(end := q.end)];
      a := Lost([top.(end := q.end)], rest[1..], span);
    }
  }
}
