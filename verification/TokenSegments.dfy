/** Token usage between two counter anchors of a chain of rollout files: summed per file by the
    code, and compared here with a walk from anchor to anchor. */
module TokenSegments {
  import opened Results

  datatype Field = Input | Cached | Output | Reasoning | Total

  datatype Counters = Counters(input: Option<int>, cached: Option<int>, output: Option<int>, reasoning: Option<int>, total: Option<int>) {
    function Get(f: Field): Option<int> {
      match f
      case Input => input
      case Cached => cached
      case Output => output
      case Reasoning => reasoning
      case Total => total
    }
  }

  datatype Anchor = Anchor(at: int, offset: nat, file: nat, counters: Counters)

  /** `continuations[i]` says that file i exactly continues the counters of file i - 1. */
  datatype Scan = Scan(tokens: seq<Anchor>, continuations: seq<bool>)

  datatype Segment = Segment(file: nat, baseline: Option<Anchor>, end: Anchor)

  /** The scanner appends anchors in reading order: offsets grow, files do not go back. */
  ghost predicate Ordered(scan: Scan) {
    forall i, k :: 0 <= i < k < |scan.tokens| ==>
      scan.tokens[i].offset < scan.tokens[k].offset && scan.tokens[i].file <= scan.tokens[k].file
  }

  predicate Continued(scan: Scan, file: nat) {
    0 < file < |scan.continuations| && scan.continuations[file]
  }

  /** A continued file starts with the counters the anchor before it ended with, all of them known. */
  ghost predicate ExactContinuations(scan: Scan) {
    forall k :: 0 < k < |scan.tokens| && IsFirst(scan, k) && Continued(scan, scan.tokens[k].file) ==>
      scan.tokens[k - 1].counters == scan.tokens[k].counters && AllKnown(scan.tokens[k].counters)
  }

  predicate AllKnown(c: Counters) {
    c.input.Some? && c.cached.Some? && c.output.Some? && c.reasoning.Some? && c.total.Some?
  }

  // ---------------------------------------------------------------- anchors of one file

  ghost predicate IsFirst(scan: Scan, k: int) {
    0 <= k < |scan.tokens| && forall i :: 0 <= i < k ==> scan.tokens[i].file < scan.tokens[k].file
  }

  ghost predicate IsLast(scan: Scan, k: int) {
    0 <= k < |scan.tokens| && forall i :: k < i < |scan.tokens| ==> scan.tokens[k].file < scan.tokens[i].file
  }

  method FileTokenAnchorBounds(scan: Scan, file: nat) returns (first: Option<nat>, last: Option<nat>)
    requires Ordered(scan)
    ensures first.Some? <==> last.Some?
    ensures first.Some? ==> IsFirst(scan, first.value) && scan.tokens[first.value].file == file
    ensures last.Some? ==> first.value <= last.value && IsLast(scan, last.value) && scan.tokens[last.value].file == file
    ensures first.None? ==> forall k :: 0 <= k < |scan.tokens| ==> scan.tokens[k].file != file
  {
    first, last := None, None;
    for i := 0 to |scan.tokens|
      invariant first.Some? <==> last.Some?
      invariant first.Some? ==> IsFirst(scan, first.value) && scan.tokens[first.value].file == file
      invariant last.Some? ==> first.value <= last.value == i - 1 && scan.tokens[i - 1].file == file
      invariant first.None? ==> forall k :: 0 <= k < i ==> scan.tokens[k].file < file
    {
      if scan.tokens[i].file < file { continue; }
      if scan.tokens[i].file > file { break; }
      if first.None? { first := Some(i); }
      last := Some(i);
    }
  }

  /** What the usage of the file starting at anchor k is measured from; nothing after a restart. */
  function StartOf(scan: Scan, k: nat): Option<Anchor>
    requires k < |scan.tokens|
  {
    if Continued(scan, scan.tokens[k].file) then Some(scan.tokens[k]) else None
  }

  method ContinuationBaseline(scan: Scan, file: nat, ghost k: nat) returns (baseline: Option<Anchor>)
    requires Ordered(scan)
    ensures IsFirst(scan, k) && scan.tokens[k].file == file ==> baseline == StartOf(scan, k)
  {
    if file <= 0 || file >= |scan.continuations| || !scan.continuations[file] { return None; }
    var first, _ := FileTokenAnchorBounds(scan, file);
    if first.None? { return None; }
    if IsFirst(scan, k) && scan.tokens[k].file == file { FirstIsUnique(scan, k, first.value); }
    return Some(scan.tokens[first.value]);
  }

  lemma FirstIsUnique(scan: Scan, i: nat, k: nat)
    requires IsFirst(scan, i) && IsFirst(scan, k) && scan.tokens[i].file == scan.tokens[k].file
    ensures i == k
  {
  }

  // ---------------------------------------------------------------- segments

  function FirstOfFile(scan: Scan, b: nat, e: nat): (k: nat)
    requires b < e < |scan.tokens| && scan.tokens[b].file != scan.tokens[e].file
    ensures b < k <= e && scan.tokens[k - 1].file != scan.tokens[k].file
    ensures forall i :: k <= i <= e ==> scan.tokens[i].file == scan.tokens[e].file
    ensures Ordered(scan) ==> IsFirst(scan, k)
    decreases e
  {
    if scan.tokens[e - 1].file != scan.tokens[e].file then e else FirstOfFile(scan, b, e - 1)
  }

  /** One segment per file that has anchors, from the index b of the baseline to the index e of the end. */
  function Segments(scan: Scan, b: nat, e: nat): seq<Segment>
    requires b <= e < |scan.tokens|
    decreases e
  {
    var end := scan.tokens[e];
    if scan.tokens[b].file == end.file then [Segment(end.file, Some(scan.tokens[b]), end)]
    else
      var s := FirstOfFile(scan, b, e);
      Segments(scan, b, s - 1) + [Segment(end.file, StartOf(scan, s), end)]
  }

  lemma SegmentsFrom(scan: Scan, b: nat, e: nat, s: nat)
    requires Ordered(scan) && b < s && IsFirst(scan, s) && e < |scan.tokens| && scan.tokens[s].file == scan.tokens[e].file
    ensures s <= e && Segments(scan, b, e) == Segments(scan, b, s - 1) + [Segment(scan.tokens[e].file, StartOf(scan, s), scan.tokens[e])]
  {
    FirstIsUnique(scan, s, FirstOfFile(scan, b, e));
  }

  /** The anchors before `file` have been summed: k is the last of them. */
  ghost predicate Summed(scan: Scan, b: nat, k: nat, file: nat, segments: seq<Segment>) {
    && b <= k < |scan.tokens| && segments == Segments(scan, b, k)
    && scan.tokens[k].file < file && (k + 1 < |scan.tokens| ==> file <= scan.tokens[k + 1].file)
  }

  /** The loop over file numbers finds exactly the segments described from the anchors backwards. */
  method SplitByFile(scan: Scan, baseline: Anchor, end: Anchor, ghost b: nat, ghost e: nat) returns (segments: seq<Segment>)
    requires Ordered(scan) && b <= e < |scan.tokens| && scan.tokens[b] == baseline && scan.tokens[e] == end
    ensures segments == Segments(scan, b, e)
  {
    if baseline.file == end.file { return [Segment(baseline.file, Some(baseline), end)]; }
    segments := [];
    ghost var k := b;
    for file := baseline.file to end.file + 1
      invariant b <= k && SummedUpTo(scan, b, k, e, file, segments)
    {
      if file == baseline.file {
        segments, k := BaselineSegment(scan, baseline, b);
      } else if file == end.file {
        segments := EndSegment(scan, end, segments, b, k, e);
      } else {
        segments, k := FileSegment(scan, file, segments, b, k);
      }
    }
  }

  /** What the loop has when it comes to a file; after the last one it has everything. */
  ghost predicate SummedUpTo(scan: Scan, b: nat, k: nat, e: nat, file: nat, segments: seq<Segment>)
    requires b <= e < |scan.tokens|
  {
    if file <= scan.tokens[b].file then segments == []
    else if file <= scan.tokens[e].file then Summed(scan, b, k, file, segments)
    else segments == Segments(scan, b, e)
  }

  method BaselineSegment(scan: Scan, baseline: Anchor, ghost b: nat) returns (segments: seq<Segment>, ghost k: nat)
    requires Ordered(scan) && b < |scan.tokens| && scan.tokens[b] == baseline
    ensures Summed(scan, b, k, baseline.file + 1, segments)
  {
    var _, last := FileTokenAnchorBounds(scan, baseline.file);
    segments, k := [], b;
    if last.Some? {
      segments, k := [Segment(baseline.file, Some(baseline), scan.tokens[last.value])], last.value;
      BaselineSummed(scan, b, k);
    }
  }

  method EndSegment(scan: Scan, end: Anchor, before: seq<Segment>, ghost b: nat, ghost k: nat, ghost e: nat) returns (segments: seq<Segment>)
    requires Ordered(scan) && e < |scan.tokens| && scan.tokens[e] == end && Summed(scan, b, k, end.file, before)
    ensures b <= e && segments == Segments(scan, b, e)
  {
    EndSummed(scan, b, k, e, before);
    var from := ContinuationBaseline(scan, end.file, k + 1);
    segments := before + [Segment(end.file, from, end)];
  }

  /** A file between the first and the last adds a segment if it has anchors. */
  method FileSegment(scan: Scan, file: nat, before: seq<Segment>, ghost b: nat, ghost k: nat) returns (segments: seq<Segment>, ghost k': nat)
    requires Ordered(scan) && Summed(scan, b, k, file, before)
    ensures b <= k' && Summed(scan, b, k', file + 1, segments)
  {
    segments, k' := before, k;
    var _, last := FileTokenAnchorBounds(scan, file);
    if last.None? { return; }
    FileSummed(scan, b, k, last.value, before);
    var from := ContinuationBaseline(scan, file, k + 1);
    segments, k' := before + [Segment(file, from, scan.tokens[last.value])], last.value;
  }

  lemma BaselineSummed(scan: Scan, b: nat, last: nat)
    requires Ordered(scan) && b < |scan.tokens| && IsLast(scan, last) && scan.tokens[last].file == scan.tokens[b].file
    ensures Summed(scan, b, last, scan.tokens[b].file + 1, [Segment(scan.tokens[b].file, Some(scan.tokens[b]), scan.tokens[last])])
  {
  }

  lemma EndSummed(scan: Scan, b: nat, k: nat, e: nat, segments: seq<Segment>)
    requires Ordered(scan) && e < |scan.tokens| && Summed(scan, b, k, scan.tokens[e].file, segments)
    ensures IsFirst(scan, k + 1) && scan.tokens[k + 1].file == scan.tokens[e].file && b <= e
    ensures Segments(scan, b, e) == segments + [Segment(scan.tokens[e].file, StartOf(scan, k + 1), scan.tokens[e])]
  {
    FirstAfter(scan, k, e);
    SegmentsFrom(scan, b, e, k + 1);
  }

  lemma FileSummed(scan: Scan, b: nat, k: nat, last: nat, segments: seq<Segment>)
    requires Ordered(scan) && IsLast(scan, last) && Summed(scan, b, k, scan.tokens[last].file, segments)
    ensures IsFirst(scan, k + 1) && scan.tokens[k + 1].file == scan.tokens[last].file
    ensures Summed(scan, b, last, scan.tokens[last].file + 1, segments + [Segment(scan.tokens[last].file, StartOf(scan, k + 1), scan.tokens[last])])
  {
    EndSummed(scan, b, k, last, segments);
  }

  lemma FirstAfter(scan: Scan, k: nat, e: nat)
    requires Ordered(scan) && k < |scan.tokens| && e < |scan.tokens| && scan.tokens[k].file < scan.tokens[e].file
    requires k + 1 < |scan.tokens| ==> scan.tokens[e].file <= scan.tokens[k + 1].file
    ensures k < e && IsFirst(scan, k + 1) && scan.tokens[k + 1].file == scan.tokens[e].file
  {
    assert k < e;
    assert k + 1 < e ==> scan.tokens[k + 1].file <= scan.tokens[e].file;
  }

  // ---------------------------------------------------------------- totals of one field

  datatype MissingReason = MissingInBaseline | MissingInEnd

  datatype UnknownField = UnknownField(field: Field, reason: MissingReason, anchor: Anchor)

  function SegmentValue(segment: Segment, f: Field): Option<int> {
    var end := segment.end.counters.Get(f);
    if end.None? then None
    else if segment.baseline.None? then end
    else if segment.baseline.value.counters.Get(f).None? then None
    else Some(end.value - segment.baseline.value.counters.Get(f).value)
  }

  ghost predicate AllValued(segments: seq<Segment>, f: Field) {
    forall n :: 0 <= n < |segments| ==> SegmentValue(segments[n], f).Some?
  }

  function SegmentSum(segments: seq<Segment>, f: Field): int
    requires AllValued(segments, f)
  {
    if segments == [] then 0
    else
      var n := |segments| - 1;
      SegmentSum(segments[..n], f) + SegmentValue(segments[n], f).value
  }

  /** The total of a field, or 0 and what was missing in the first segment that cannot be valued. */
  method SegmentField(f: Field, segments: seq<Segment>) returns (total: int, unknown: Option<UnknownField>)
    ensures unknown.None? <==> AllValued(segments, f)
    ensures unknown.None? ==> total == SegmentSum(segments, f)
    ensures unknown.Some? ==> total == 0 && unknown.value.field == f && unknown.value.anchor.counters.Get(f).None?
    ensures unknown.Some? ==> exists n :: 0 <= n < |segments| && AllValued(segments[..n], f) && SegmentValue(segments[n], f).None?
                                          && unknown.value.anchor ==
                                             if unknown.value.reason.MissingInEnd? then segments[n].end
                                             else if segments[n].baseline.Some? then segments[n].baseline.value else segments[n].end
  {
    total := 0;
    for n := 0 to |segments|
      invariant AllValued(segments[..n], f) && total == SegmentSum(segments[..n], f)
    {
      var segment := segments[n];
      assert segments[..n + 1][..n] == segments[..n];
      if segment.baseline.Some? {
        var from, to := segment.baseline.value.counters.Get(f), segment.end.counters.Get(f);
        if from.Some? && to.Some? {
          total := total + (to.value - from.value);
          continue;
        }
        if from.None? { return 0, Some(UnknownField(f, MissingInBaseline, segment.baseline.value)); }
        return 0, Some(UnknownField(f, MissingInEnd, segment.end));
      }
      var value := segment.end.counters.Get(f);
      if value.None? { return 0, Some(UnknownField(f, MissingInEnd, segment.end)); }
      total := total + value.value;
    }
    assert segments[..|segments|] == segments;
    unknown := None;
  }

  // ---------------------------------------------------------------- the walk from anchor to anchor

  ghost predicate Known(scan: Scan, f: Field, k: int) {
    0 <= k < |scan.tokens| && scan.tokens[k].counters.Get(f).Some?
  }

  predicate Boundary(scan: Scan, k: int) {
    0 < k < |scan.tokens| && scan.tokens[k - 1].file != scan.tokens[k].file
  }

  predicate Restart(scan: Scan, k: int) {
    Boundary(scan, k) && !Continued(scan, scan.tokens[k].file)
  }

  /** Some value for every anchor, the reported one wherever there is one. */
  ghost predicate Agrees(scan: Scan, f: Field, v: seq<int>) {
    |v| == |scan.tokens| && forall k :: 0 <= k < |v| && Known(scan, f, k) ==> v[k] == scan.tokens[k].counters.Get(f).value
  }

  /** A restart adds the value it starts with; every other anchor adds what it gained. */
  function Step(scan: Scan, v: seq<int>, k: nat): int
    requires 0 < k < |scan.tokens| == |v|
  {
    if Restart(scan, k) then v[k] else v[k] - v[k - 1]
  }

  function Walk(scan: Scan, v: seq<int>, b: nat, e: nat): int
    requires b <= e < |scan.tokens| == |v|
    decreases e
  {
    if b == e then 0 else Walk(scan, v, b, e - 1) + Step(scan, v, e)
  }

  /** The values a restart leaves behind. */
  function LeftBehind(scan: Scan, v: seq<int>, b: nat, e: nat): int
    requires b <= e < |scan.tokens| == |v|
    decreases e
  {
    if b == e then 0 else LeftBehind(scan, v, b, e - 1) + if Restart(scan, e) then v[e - 1] else 0
  }

  /** What the segments value can be told from the boundaries crossed. */
  ghost predicate Measurable(scan: Scan, f: Field, b: nat, e: nat) {
    && Known(scan, f, b) && Known(scan, f, e)
    && forall k :: b < k <= e && Boundary(scan, k) ==> Known(scan, f, k - 1) && (Restart(scan, k) || Known(scan, f, k))
  }

  lemma {:induction false} ValuedIffMeasurable(scan: Scan, f: Field, b: nat, e: nat)
    requires Ordered(scan) && b <= e < |scan.tokens|
    ensures AllValued(Segments(scan, b, e), f) <==> Measurable(scan, f, b, e)
    decreases e
  {
    if scan.tokens[b].file == scan.tokens[e].file {
      MeasurableWithinFile(scan, f, b, e);
    } else {
      var s, head, last := LastSegment(scan, b, e);
      ValuedIffMeasurable(scan, f, b, s - 1);
      AllValuedAppend(head, last, f);
      MeasurableSplits(scan, f, b, s, e);
      LastValued(scan, f, s, e, last);
    }
  }

  lemma MeasurableWithinFile(scan: Scan, f: Field, b: nat, e: nat)
    requires Ordered(scan) && b <= e < |scan.tokens| && scan.tokens[b].file == scan.tokens[e].file
    ensures AllValued(Segments(scan, b, e), f) <==> Measurable(scan, f, b, e)
  {
    WithinFile(scan, b, e);
    var only := Segment(scan.tokens[e].file, Some(scan.tokens[b]), scan.tokens[e]);
    assert Segments(scan, b, e) == [only];
    assert AllValued([only], f) <==> SegmentValue(only, f).Some? by { assert [only][0] == only; }
    assert SegmentValue(only, f).Some? <==> Known(scan, f, b) && Known(scan, f, e);
    assert Measurable(scan, f, b, e) <==> Known(scan, f, b) && Known(scan, f, e);
  }

  lemma LastValued(scan: Scan, f: Field, s: nat, e: nat, last: Segment)
    requires s <= e < |scan.tokens|
    requires last.end == scan.tokens[e] && last.baseline == if Restart(scan, s) then None else Some(scan.tokens[s])
    ensures SegmentValue(last, f).Some? <==> Known(scan, f, e) && (Restart(scan, s) || Known(scan, f, s))
  {
  }

  /** The segments of a walk over several files, taken apart at the last boundary. */
  lemma LastSegment(scan: Scan, b: nat, e: nat) returns (s: nat, head: seq<Segment>, last: Segment)
    requires Ordered(scan) && b <= e < |scan.tokens| && scan.tokens[b].file != scan.tokens[e].file
    ensures b < s <= e && IsFirst(scan, s) && Boundary(scan, s) && scan.tokens[s].file == scan.tokens[e].file
    ensures forall k :: s < k <= e ==> !Boundary(scan, k)
    ensures head == Segments(scan, b, s - 1) && Segments(scan, b, e) == head + [last]
    ensures last.end == scan.tokens[e] && last.baseline == if Restart(scan, s) then None else Some(scan.tokens[s])
  {
    s := FirstOfFile(scan, b, e);
    head, last := Segments(scan, b, s - 1), Segment(scan.tokens[e].file, StartOf(scan, s), scan.tokens[e]);
  }

  lemma WithinFile(scan: Scan, b: nat, e: nat)
    requires Ordered(scan) && b <= e < |scan.tokens| && scan.tokens[b].file == scan.tokens[e].file
    ensures forall k :: b < k <= e ==> !Boundary(scan, k)
  {
    forall k | b < k <= e ensures !Boundary(scan, k) {
      assert scan.tokens[b].file <= scan.tokens[k - 1].file <= scan.tokens[k].file <= scan.tokens[e].file;
    }
  }

  lemma MeasurableSplits(scan: Scan, f: Field, b: nat, s: nat, e: nat)
    requires b < s <= e < |scan.tokens| && Boundary(scan, s) && forall k :: s < k <= e ==> !Boundary(scan, k)
    ensures Measurable(scan, f, b, e) <==>
            Measurable(scan, f, b, s - 1) && Known(scan, f, e) && (Restart(scan, s) || Known(scan, f, s))
  {
  }

  lemma AllValuedAppend(head: seq<Segment>, last: Segment, f: Field)
    ensures AllValued(head + [last], f) <==> AllValued(head, f) && SegmentValue(last, f).Some?
    ensures AllValued(head + [last], f) ==> SegmentSum(head + [last], f) == SegmentSum(head, f) + SegmentValue(last, f).value
  {
    var all := head + [last];
    assert all[..|head|] == head && all[|head|] == last;
    if AllValued(all, f) {
      forall n | 0 <= n < |head| ensures SegmentValue(head[n], f).Some? { assert all[n] == head[n]; }
    }
  }

  lemma {:induction false} WalkWithinFile(scan: Scan, v: seq<int>, b: nat, e: nat)
    requires b <= e < |scan.tokens| == |v| && forall k :: b < k <= e ==> !Restart(scan, k)
    ensures Walk(scan, v, b, e) == v[e] - v[b]
    decreases e
  {
    if b < e { WalkWithinFile(scan, v, b, e - 1); }
  }

  lemma {:induction false} WalkSplits(scan: Scan, v: seq<int>, b: nat, m: nat, e: nat)
    requires b <= m <= e < |scan.tokens| == |v|
    ensures Walk(scan, v, b, e) == Walk(scan, v, b, m) + Walk(scan, v, m, e)
    decreases e
  {
    if m < e { WalkSplits(scan, v, b, m, e - 1); }
  }

  /** The per-file formula is the anchor-by-anchor walk, whatever values are put where a field is missing. */
  lemma {:induction false} SumIsWalk(scan: Scan, f: Field, v: seq<int>, b: nat, e: nat)
    requires Ordered(scan) && ExactContinuations(scan) && Agrees(scan, f, v)
    requires b <= e < |scan.tokens| && AllValued(Segments(scan, b, e), f)
    ensures SegmentSum(Segments(scan, b, e), f) == Walk(scan, v, b, e)
    decreases e
  {
    ValuedIffMeasurable(scan, f, b, e);
    if scan.tokens[b].file == scan.tokens[e].file {
      WithinFile(scan, b, e);
      WalkWithinFile(scan, v, b, e);
      AllValuedAppend([], Segments(scan, b, e)[0], f);
      assert Segments(scan, b, e) == [] + [Segments(scan, b, e)[0]];
    } else {
      var s, head, last := LastSegment(scan, b, e);
      AllValuedAppend(head, last, f);
      SumIsWalk(scan, f, v, b, s - 1);
      WalkIntoFile(scan, f, v, b, s, e, last);
    }
  }

  /** The walk up to a file, and from its first anchor on. */
  lemma WalkIntoFile(scan: Scan, f: Field, v: seq<int>, b: nat, s: nat, e: nat, last: Segment)
    requires ExactContinuations(scan) && Agrees(scan, f, v) && b < s <= e < |scan.tokens| && IsFirst(scan, s) && Boundary(scan, s)
    requires forall k :: s < k <= e ==> !Boundary(scan, k)
    requires last.end == scan.tokens[e] && last.baseline == if Restart(scan, s) then None else Some(scan.tokens[s])
    requires SegmentValue(last, f).Some?
    ensures Walk(scan, v, b, e) == Walk(scan, v, b, s - 1) + SegmentValue(last, f).value
  {
    WalkSplits(scan, v, b, s, e);
    WalkWithinFile(scan, v, s, e);
    LastStep(scan, f, v, s, e, last);
  }

  lemma LastStep(scan: Scan, f: Field, v: seq<int>, s: nat, e: nat, last: Segment)
    requires ExactContinuations(scan) && Agrees(scan, f, v) && 0 < s <= e < |scan.tokens| && IsFirst(scan, s) && Boundary(scan, s)
    requires last.end == scan.tokens[e] && last.baseline == if Restart(scan, s) then None else Some(scan.tokens[s])
    requires SegmentValue(last, f).Some?
    ensures SegmentValue(last, f).value == Step(scan, v, s) + (v[e] - v[s])
  {
    assert Known(scan, f, e);
    if !Restart(scan, s) {
      ContinuedIsKnown(scan, f, s);
    }
  }

  lemma ContinuedIsKnown(scan: Scan, f: Field, s: nat)
    requires ExactContinuations(scan) && IsFirst(scan, s) && 0 < s && Continued(scan, scan.tokens[s].file)
    ensures Known(scan, f, s) && Known(scan, f, s - 1) && scan.tokens[s - 1].counters == scan.tokens[s].counters
  {
  }

  /** End minus baseline, plus what the restarts in between left behind. */
  lemma {:induction false} SumIsDifference(scan: Scan, f: Field, v: seq<int>, b: nat, e: nat)
    requires Ordered(scan) && ExactContinuations(scan) && Agrees(scan, f, v)
    requires b <= e < |scan.tokens| && AllValued(Segments(scan, b, e), f)
    ensures SegmentSum(Segments(scan, b, e), f) == v[e] - v[b] + LeftBehind(scan, v, b, e)
    ensures (forall k :: b < k <= e ==> !Restart(scan, k)) ==> SegmentSum(Segments(scan, b, e), f) == v[e] - v[b]
  {
    SumIsWalk(scan, f, v, b, e);
    WalkIsDifference(scan, v, b, e);
    if forall k :: b < k <= e ==> !Restart(scan, k) { WalkWithinFile(scan, v, b, e); }
  }

  lemma {:induction false} WalkIsDifference(scan: Scan, v: seq<int>, b: nat, e: nat)
    requires b <= e < |scan.tokens| == |v|
    ensures Walk(scan, v, b, e) == v[e] - v[b] + LeftBehind(scan, v, b, e)
    decreases e
  {
    if b < e { WalkIsDifference(scan, v, b, e - 1); }
  }

  ghost function Values(scan: Scan, f: Field): (v: seq<int>)
    ensures Agrees(scan, f, v)
  {
    seq(|scan.tokens|, k requires 0 <= k < |scan.tokens| =>
      if scan.tokens[k].counters.Get(f).Some? then scan.tokens[k].counters.Get(f).value else 0)
  }

  /** The code can value the field from anchor b to anchor e, and gets this value. */
  ghost predicate FieldUsage(scan: Scan, f: Field, b: int, e: int, value: int) {
    0 <= b <= e < |scan.tokens| && AllValued(Segments(scan, b, e), f) && value == SegmentSum(Segments(scan, b, e), f)
  }

  /** The parts of an interval can be valued exactly when the whole can and the field is known in between. */
  lemma MeasurableParts(scan: Scan, f: Field, b: nat, m: nat, e: nat)
    requires b <= m <= e < |scan.tokens|
    ensures Measurable(scan, f, b, m) && Measurable(scan, f, m, e) <==> Measurable(scan, f, b, e) && Known(scan, f, m)
  {
  }

  /** Usage is additive. */
  lemma UsageIsAdditive(scan: Scan, f: Field, b: nat, m: nat, e: nat, x: int, y: int)
    requires Ordered(scan) && ExactContinuations(scan)
    requires FieldUsage(scan, f, b, m, x) && FieldUsage(scan, f, m, e, y)
    ensures FieldUsage(scan, f, b, e, x + y)
  {
    UsageIsWalk(scan, f, b, m, x);
    UsageIsWalk(scan, f, m, e, y);
    MeasurableParts(scan, f, b, m, e);
    WalkSplits(scan, Values(scan, f), b, m, e);
    UsageIsWalk(scan, f, b, e, x + y);
  }

  lemma UsageIsWalk(scan: Scan, f: Field, b: nat, e: nat, x: int)
    requires Ordered(scan) && ExactContinuations(scan) && b <= e < |scan.tokens|
    ensures FieldUsage(scan, f, b, e, x) <==> Measurable(scan, f, b, e) && x == Walk(scan, Values(scan, f), b, e)
  {
    ValuedIffMeasurable(scan, f, b, e);
    if AllValued(Segments(scan, b, e), f) { SumIsWalk(scan, f, Values(scan, f), b, e); }
  }
}
