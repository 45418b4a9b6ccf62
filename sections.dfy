/** The section extractor: the generated answer is one string, and four literal
    markers cut it into the report's thought process, the report, the
    conclusion's thought process and the conclusion (app.py lines 204-211). */
module Sections {
  import opened PyText

  const ThoughtReportMarker := "### Thought Process for the Report:"
  const ReportMarker := "### Report:"
  const ThoughtConclusionMarker := "### Thought Process for the Conclusion:"
  const ConclusionMarker := "### Conclusion:"

  /** The four sections of one answer. */
  datatype Extracted = Extracted(
    thoughtReport: string,
    report: string,
    thoughtConclusion: string,
    conclusion: string)

  /** `extract_block(start, end)`: the text between the end of the first
      `start` and the first `end`, stripped; empty when either marker is
      missing or the first `end` does not come after the first `start`. */
  function ExtractBlock(answer: string, start: string, end: string): (r: string)
    ensures Trimmed(r)
    ensures !Contains(answer, start) || !Contains(answer, end) ==> r == ""
  {
    Block(answer, Find(answer, start), |start|, Find(answer, end))
  }

  /** The block once `find` has returned `s` for a start marker of length
      `n`, and `e` for the end marker. */
  function Block(answer: string, s: int, n: nat, e: int): (r: string)
    requires s >= -1
    ensures Trimmed(r)
    ensures s == -1 || e == -1 ==> r == ""
  {
    if s != -1 && e != -1 && e > s then Strip(Slice(answer, s + n, e)) else ""
  }

  /** Read at the first occurrences `s` of `start` and `e` of `end`: the
      block is the stretch from the end of `start` up to `e`, stripped, and
      empty when `end` does not come after `start`. */
  lemma ExtractBlockAt(answer: string, start: string, end: string, s: int, e: int)
    requires IsFirst(answer, start, s) && IsFirst(answer, end, e)
    ensures ExtractBlock(answer, start, end) == if e > s then Strip(Slice(answer, s + |start|, e)) else ""
  {
    FindAt(answer, start, s);
    FindAt(answer, end, e);
  }

  /** The block is empty when the first `end` does not start after the
      first `start` has ended, overlapping markers included. */
  lemma EndTooEarly(answer: string, start: string, end: string, s: int, e: int)
    requires IsFirst(answer, start, s) && IsFirst(answer, end, e) && e <= s + |start|
    ensures ExtractBlock(answer, start, end) == ""
  {
    ExtractBlockAt(answer, start, end, s, e);
    if e > s {
      assert Slice(answer, s + |start|, e) == "";
      assert Strip("") == "";
    }
  }

  /** `answer.split("### Conclusion:")[-1].strip()`: the text after the cut
      `split` makes last, stripped, or the whole answer stripped when there
      is no conclusion marker. */
  function ConclusionOf(answer: string): (r: string)
    ensures Trimmed(r)
    ensures !Contains(answer, ConclusionMarker) ==> r == Strip(answer)
  {
    Strip(SplitLast(answer, ConclusionMarker))
  }

  /** The conclusion is the text after the last conclusion marker, stripped. */
  lemma ConclusionAt(answer: string, j: int)
    requires IsLast(answer, ConclusionMarker, j)
    ensures ConclusionOf(answer) == Strip(answer[j + |ConclusionMarker|..])
  {
    var m := ConclusionMarker;
    var c := LastCut(answer, m);
    assert Contains(answer, m);
    ConclusionMarkerNoSelfOverlap();
    SplitLastAfterLast(answer, m);
    LastUnique(answer, m, j, c - |m|);
  }

  /** All four sections, as lines 208-211 store them. */
  function ExtractAll(answer: string): (r: Extracted)
    ensures Trimmed(r.thoughtReport) && Trimmed(r.report) && Trimmed(r.thoughtConclusion) && Trimmed(r.conclusion)
  {
    Extracted(
      ExtractBlock(answer, ThoughtReportMarker, ReportMarker),
      ExtractBlock(answer, ReportMarker, ThoughtConclusionMarker),
      ExtractBlock(answer, ThoughtConclusionMarker, ConclusionMarker),
      ConclusionOf(answer))
  }

  /** Only the last character of "### Conclusion:" is a colon, so no proper
      suffix of it is a prefix of it. */
  lemma ConclusionMarkerNoSelfOverlap()
    ensures NoSelfOverlap(ConclusionMarker)
  {
    var m := ConclusionMarker;
    assert ':' !in m[..|m| - 1];
    forall d | 0 < d < |m|
      ensures m[d..] != m[..|m| - d]
    {
      assert m[d..][|m| - 1 - d] == ':';
      assert m[..|m| - d][|m| - 1 - d] == m[..|m| - 1][|m| - 1 - d];
    }
  }

  /** A missing "### Report:" empties both sections it bounds. */
  lemma MissingReportMarker(answer: string)
    requires !Contains(answer, ReportMarker)
    ensures ExtractAll(answer).thoughtReport == ""
    ensures ExtractAll(answer).report == ""
  {
  }

  /** The three parts of `x + y + z` sit at their offsets. */
  lemma Parts(x: string, y: string, z: string)
    ensures (x + y + z)[..|x|] == x
    ensures (x + y + z)[|x|..|x| + |y|] == y
    ensures (x + y + z)[|x| + |y|..] == z
  {
  }

  /** The block between two first occurrences that do not overlap is the
      text between them, stripped. */
  lemma BlockAt(answer: string, start: string, end: string, s: int, e: int)
    requires IsFirst(answer, start, s) && IsFirst(answer, end, e) && s + |start| <= e
    ensures ExtractBlock(answer, start, end) == Strip(answer[s + |start|..e])
  {
    ExtractBlockAt(answer, start, end, s, e);
    if e == s + |start| {
      assert answer[s + |start|..e] == "";
    }
  }

  /** In `pre + start + mid + end + post` the two markers occur where they
      were put, and `mid` lies between them. */
  lemma MarkersAt(answer: string, start: string, end: string, pre: string, mid: string, post: string, s: int, e: int)
    requires answer == pre + start + mid + end + post
    requires s == |pre| && e == s + |start| + |mid|
    ensures OccursAt(answer, start, s)
    ensures OccursAt(answer, end, e)
    ensures answer[s + |start|..e] == mid
  {
    Parts(pre, start, mid + end + post);
    assert answer == pre + start + (mid + end + post);
    Parts(pre + start, mid, end + post);
    assert answer == (pre + start) + mid + (end + post);
    Parts(pre + start + mid, end, post);
  }

  /** `m1 + a + m2 + ...` regrouped around `m2`. */
  lemma AroundSecond(m1: string, a: string, m2: string, b: string, m3: string, c: string, m4: string, d: string)
    ensures m1 + a + m2 + b + m3 + c + m4 + d == "" + m1 + a + m2 + (b + m3 + c + m4 + d)
  {
  }

  /** `m1 + a + m2 + ...` regrouped around `m3`. */
  lemma AroundThird(m1: string, a: string, m2: string, b: string, m3: string, c: string, m4: string, d: string)
    ensures m1 + a + m2 + b + m3 + c + m4 + d == (m1 + a) + m2 + b + m3 + (c + m4 + d)
  {
  }

  /** The last marker of `m1 + a + ... + m4 + d`, followed by text free of
      it, is its last occurrence, and `d` is what follows it. */
  lemma LastMarker(answer: string, m4: string, pre: string, d: string)
    requires NoSelfOverlap(m4) && answer == pre + m4 + d && !Contains(d, m4)
    ensures IsLast(answer, m4, |pre|)
    ensures answer[|pre| + |m4|..] == d
  {
    Parts(pre, m4, d);
    AbsentAfter(answer, m4, |pre| + |m4|);
    OnlyOccurrenceBefore(answer, m4, |pre| + |m4|);
  }

  /** An answer laid out as the prompt asks, each marker present once and in
      order, yields the four stretches of text between them, stripped. */
  lemma WellFormedAnswer(answer: string, a: string, b: string, c: string, d: string)
    requires answer == ThoughtReportMarker + a + ReportMarker + b + ThoughtConclusionMarker + c + ConclusionMarker + d
    requires forall k :: 0 <= k < |ThoughtReportMarker| + |a| ==> !OccursAt(answer, ReportMarker, k)
    requires forall k :: 0 <= k < |ThoughtReportMarker| + |a| + |ReportMarker| + |b| ==>
               !OccursAt(answer, ThoughtConclusionMarker, k)
    requires forall k :: 0 <= k < |ThoughtReportMarker| + |a| + |ReportMarker| + |b| + |ThoughtConclusionMarker| + |c| ==>
               !OccursAt(answer, ConclusionMarker, k)
    requires !Contains(d, ConclusionMarker)
    ensures ExtractAll(answer) == Extracted(Strip(a), Strip(b), Strip(c), Strip(d))
  {
    ConclusionMarkerNoSelfOverlap();
    FourBlocks(answer, ThoughtReportMarker, ReportMarker, ThoughtConclusionMarker, ConclusionMarker, a, b, c, d);
    ConclusionAt(answer, |ThoughtReportMarker| + |a| + |ReportMarker| + |b| + |ThoughtConclusionMarker| + |c|);
  }

  /** `WellFormedAnswer` for any four non-empty markers, the last of which
      does not overlap itself. */
  lemma FourBlocks(answer: string, m1: string, m2: string, m3: string, m4: string,
                    a: string, b: string, c: string, d: string)
    requires m4 != "" && NoSelfOverlap(m4)
    requires answer == m1 + a + m2 + b + m3 + c + m4 + d
    requires forall k :: 0 <= k < |m1| + |a| ==> !OccursAt(answer, m2, k)
    requires forall k :: 0 <= k < |m1| + |a| + |m2| + |b| ==> !OccursAt(answer, m3, k)
    requires forall k :: 0 <= k < |m1| + |a| + |m2| + |b| + |m3| + |c| ==> !OccursAt(answer, m4, k)
    requires !Contains(d, m4)
    ensures ExtractBlock(answer, m1, m2) == Strip(a)
    ensures ExtractBlock(answer, m2, m3) == Strip(b)
    ensures ExtractBlock(answer, m3, m4) == Strip(c)
    ensures IsLast(answer, m4, |m1| + |a| + |m2| + |b| + |m3| + |c|)
    ensures answer[|m1| + |a| + |m2| + |b| + |m3| + |c| + |m4|..] == d
  {
    var p2, p3, p4 := |m1| + |a|, |m1| + |a| + |m2| + |b|, |m1| + |a| + |m2| + |b| + |m3| + |c|;
    AroundSecond(m1, a, m2, b, m3, c, m4, d);
    MarkersAt(answer, m1, m2, "", a, b + m3 + c + m4 + d, 0, p2);
    BlockAt(answer, m1, m2, 0, p2);
    AroundThird(m1, a, m2, b, m3, c, m4, d);
    MarkersAt(answer, m2, m3, m1 + a, b, c + m4 + d, p2, p3);
    BlockAt(answer, m2, m3, p2, p3);
    MarkersAt(answer, m3, m4, m1 + a + m2 + b, c, d, p3, p4);
    BlockAt(answer, m3, m4, p3, p4);
    LastMarker(answer, m4, m1 + a + m2 + b + m3 + c, d);
  }
}
