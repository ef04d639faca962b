/** Counter resets between two anchors, and the usage report for an interval of time. */
module TokenUsage {
  import opened Results
  import opened TokenSegments

  // ---------------------------------------------------------------- resets

  /** A counter known at both anchors went down between them. */
  ghost predicate Drop(scan: Scan, f: Field, i: int, k: int) {
    0 <= i < k < |scan.tokens| && Known(scan, f, i) && Known(scan, f, k)
    && scan.tokens[k].counters.Get(f).value < scan.tokens[i].counters.Get(f).value
  }

  ghost predicate DropWithin(scan: Scan, b: int, e: int) {
    exists f, i, k :: b <= i && k <= e && Drop(scan, f, i, k)
  }

  ghost predicate ResetWithin(scan: Scan, b: int, e: int) {
    exists f, i, k :: b <= i && k <= e && Drop(scan, f, i, k) && scan.tokens[i].file == scan.tokens[k].file
  }

  predicate Lower(from: Option<int>, to: Option<int>) {
    from.Some? && to.Some? && to.value < from.value
  }

  function AnchorsCounterReset(from: Counters, to: Counters): (reset: bool)
    ensures reset <==> exists f: Field :: Lower(from.Get(f), to.Get(f))
  {
    assert Lower(from.input, to.input) ==> Lower(from.Get(Input), to.Get(Input));
    assert Lower(from.cached, to.cached) ==> Lower(from.Get(Cached), to.Get(Cached));
    assert Lower(from.output, to.output) ==> Lower(from.Get(Output), to.Get(Output));
    assert Lower(from.reasoning, to.reasoning) ==> Lower(from.Get(Reasoning), to.Get(Reasoning));
    assert Lower(from.total, to.total) ==> Lower(from.Get(Total), to.Get(Total));
    Lower(from.input, to.input) || Lower(from.cached, to.cached) || Lower(from.output, to.output)
    || Lower(from.reasoning, to.reasoning) || Lower(from.total, to.total)
  }

  function Latest(known: Option<int>, observed: Option<int>): Option<int> {
    if observed.Some? then observed else known
  }

  function WithLastKnownFields(known: Counters, observed: Counters): (c: Counters)
    ensures forall f :: c.Get(f) == Latest(known.Get(f), observed.Get(f))
  {
    Counters(Latest(known.input, observed.input), Latest(known.cached, observed.cached), Latest(known.output, observed.output),
      Latest(known.reasoning, observed.reasoning), Latest(known.total, observed.total))
  }

  /** The last known value of every field from anchor b to anchor n. */
  function LastKnown(scan: Scan, b: nat, n: nat): Counters
    requires b <= n < |scan.tokens|
    decreases n
  {
    if n == b then scan.tokens[b].counters
    else WithLastKnownFields(LastKnown(scan, b, n - 1), scan.tokens[n].counters)
  }

  /** Some anchor up to n is below what was last known before it. */
  predicate Fell(scan: Scan, b: nat, n: nat)
    requires b <= n < |scan.tokens|
    decreases n
  {
    n > b && (Fell(scan, b, n - 1) || AnchorsCounterReset(LastKnown(scan, b, n - 1), scan.tokens[n].counters))
  }

  method CountersResetBetween(scan: Scan, baseline: Anchor, end: Anchor, ghost b: nat, ghost e: nat) returns (reset: bool)
    requires Ordered(scan) && b <= e < |scan.tokens| && scan.tokens[b] == baseline && scan.tokens[e] == end
    ensures reset <==> DropWithin(scan, b, e)
  {
    FellIffDrop(scan, b, e);
    reset := ScanForReset(scan, baseline, end, b, e);
  }

  method ScanForReset(scan: Scan, baseline: Anchor, end: Anchor, ghost b: nat, ghost e: nat) returns (reset: bool)
    requires Ordered(scan) && b <= e < |scan.tokens| && scan.tokens[b] == baseline && scan.tokens[e] == end
    ensures reset <==> Fell(scan, b, e)
  {
    var lastKnown := baseline.counters;
    for n := 0 to |scan.tokens|
      invariant n <= b ==> lastKnown == baseline.counters
      invariant b < n ==> n - 1 <= e && lastKnown == LastKnown(scan, b, n - 1) && !Fell(scan, b, n - 1)
    {
      var anchor := scan.tokens[n];
      if anchor.offset <= baseline.offset { continue; }
      if anchor.offset > end.offset { break; }
      if AnchorsCounterReset(lastKnown, anchor.counters) {
        FellStays(scan, b, n, e);
        return true;
      }
      lastKnown := WithLastKnownFields(lastKnown, anchor.counters);
    }
    return false;
  }

  lemma {:induction false} FellStays(scan: Scan, b: nat, n: nat, e: nat)
    requires b <= n <= e < |scan.tokens| && Fell(scan, b, n)
    ensures Fell(scan, b, e)
    decreases e
  {
    if n < e { FellStays(scan, b, n, e - 1); }
  }

  ghost predicate Holds(scan: Scan, f: Field, i: int, value: int) {
    Known(scan, f, i) && scan.tokens[i].counters.Get(f) == Some(value)
  }

  /** A last known value was reported by some anchor, and bounds all of them while nothing fell. */
  lemma {:induction false} LastKnownBounds(scan: Scan, b: nat, n: nat, f: Field)
    requires b <= n < |scan.tokens|
    ensures LastKnown(scan, b, n).Get(f).Some? ==> exists i :: b <= i <= n && Holds(scan, f, i, LastKnown(scan, b, n).Get(f).value)
    ensures !Fell(scan, b, n) ==> forall i :: b <= i <= n && Known(scan, f, i) ==>
              LastKnown(scan, b, n).Get(f).Some? && scan.tokens[i].counters.Get(f).value <= LastKnown(scan, b, n).Get(f).value
    decreases n
  {
    if n == b {
      assert scan.tokens[b].counters.Get(f).Some? ==> Holds(scan, f, b, scan.tokens[b].counters.Get(f).value);
    } else {
      LastKnownBounds(scan, b, n - 1, f);
      var last, next := LastKnown(scan, b, n - 1), scan.tokens[n].counters;
      assert LastKnown(scan, b, n).Get(f) == Latest(last.Get(f), next.Get(f));
      if next.Get(f).Some? {
        assert Holds(scan, f, n, next.Get(f).value);
        assert !AnchorsCounterReset(last, next) ==> !Lower(last.Get(f), next.Get(f));
      }
    }
  }

  /** Remembering the last known value of each field finds every drop, also across anchors that omit it. */
  lemma {:induction false} FellIffDrop(scan: Scan, b: nat, n: nat)
    requires b <= n < |scan.tokens|
    ensures Fell(scan, b, n) <==> DropWithin(scan, b, n)
    decreases n
  {
    if n > b {
      FellIffDrop(scan, b, n - 1);
      var last, next := LastKnown(scan, b, n - 1), scan.tokens[n].counters;
      if AnchorsCounterReset(last, next) {
        var f: Field :| Lower(last.Get(f), next.Get(f));
        LastKnownBounds(scan, b, n - 1, f);
        var i :| b <= i <= n - 1 && Holds(scan, f, i, last.Get(f).value);
        assert Drop(scan, f, i, n);
      } else if DropWithin(scan, b, n) && !DropWithin(scan, b, n - 1) {
        var f, i, k :| b <= i && k <= n && Drop(scan, f, i, k);
        LastKnownBounds(scan, b, n - 1, f);
      }
    }
  }

  // ---------------------------------------------------------------- resets over all segments

  /** The anchor indices each segment spans. */
  ghost function Spans(scan: Scan, b: nat, e: nat): (spans: seq<(nat, nat)>)
    requires b <= e < |scan.tokens|
    decreases e
  {
    if scan.tokens[b].file == scan.tokens[e].file then [(b, e)]
    else
      var s := FirstOfFile(scan, b, e);
      Spans(scan, b, s - 1) + [(s, e)]
  }

  ghost predicate SpanFits(scan: Scan, segment: Segment, span: (nat, nat), b: nat, e: nat) {
    && b <= span.0 <= span.1 <= e < |scan.tokens|
    && segment.end == scan.tokens[span.1] && segment.file == scan.tokens[span.1].file == scan.tokens[span.0].file
    && (if segment.baseline.Some? then segment.baseline.value == scan.tokens[span.0] else IsFirst(scan, span.0))
  }

  ghost predicate AllFit(scan: Scan, segments: seq<Segment>, spans: seq<(nat, nat)>, b: nat, e: nat) {
    |spans| == |segments| && forall n :: 0 <= n < |spans| ==> SpanFits(scan, segments[n], spans[n], b, e)
  }

  lemma {:induction false} SpansFit(scan: Scan, b: nat, e: nat)
    requires Ordered(scan) && b <= e < |scan.tokens|
    ensures AllFit(scan, Segments(scan, b, e), Spans(scan, b, e), b, e)
    decreases e
  {
    if scan.tokens[b].file != scan.tokens[e].file {
      var s := FirstOfFile(scan, b, e);
      SpansFit(scan, b, s - 1);
      var last := Segment(scan.tokens[e].file, StartOf(scan, s), scan.tokens[e]);
      LastFits(scan, b, s, e);
      OneMoreFits(scan, Segments(scan, b, s - 1), Spans(scan, b, s - 1), last, (s, e), b, s - 1, e);
    } else {
      assert SpanFits(scan, Segments(scan, b, e)[0], (b, e), b, e);
    }
  }

  lemma LastFits(scan: Scan, b: nat, s: nat, e: nat)
    requires b <= s <= e < |scan.tokens| && IsFirst(scan, s) && scan.tokens[s].file == scan.tokens[e].file
    ensures SpanFits(scan, Segment(scan.tokens[e].file, StartOf(scan, s), scan.tokens[e]), (s, e), b, e)
  {
  }

  lemma OneMoreFits(scan: Scan, segments: seq<Segment>, spans: seq<(nat, nat)>, segment: Segment, span: (nat, nat), b: nat, m: nat, e: nat)
    requires AllFit(scan, segments, spans, b, m) && m <= e && SpanFits(scan, segment, span, b, e)
    ensures AllFit(scan, segments + [segment], spans + [span], b, e)
  {
    forall n | 0 <= n < |spans| + 1 ensures SpanFits(scan, (segments + [segment])[n], (spans + [span])[n], b, e) {
      if n < |spans| { assert SpanFits(scan, segments[n], spans[n], b, m); }
    }
  }

  ghost predicate Covers(span: (nat, nat), i: int, k: int) { span.0 <= i && k <= span.1 }

  ghost predicate CoversSome(spans: seq<(nat, nat)>, i: int, k: int) {
    exists n :: 0 <= n < |spans| && Covers(spans[n], i, k)
  }

  lemma OneSpan(scan: Scan, b: nat, e: nat)
    requires b <= e < |scan.tokens| && scan.tokens[b].file == scan.tokens[e].file
    ensures Spans(scan, b, e) == [(b, e)]
  {
  }

  lemma {:induction false} SpansCover(scan: Scan, b: nat, e: nat, i: nat, k: nat)
    requires Ordered(scan) && b <= i <= k <= e < |scan.tokens| && scan.tokens[i].file == scan.tokens[k].file
    ensures CoversSome(Spans(scan, b, e), i, k)
    decreases e
  {
    if scan.tokens[b].file == scan.tokens[e].file {
      OneSpan(scan, b, e);
      assert Covers([(b, e)][0], i, k);
    } else {
      var s, before := LastSpan(scan, b, e, i, k);
      if i < s { SpansCover(scan, b, s - 1, i, k); }
      CoversAppended(before, (s, e), i, k);
    }
  }

  /** The last span starts a file, so two anchors of one file are both in it or both before it. */
  lemma LastSpan(scan: Scan, b: nat, e: nat, i: nat, k: nat) returns (s: nat, before: seq<(nat, nat)>)
    requires Ordered(scan) && b <= i <= k <= e < |scan.tokens| && scan.tokens[i].file == scan.tokens[k].file
    requires scan.tokens[b].file != scan.tokens[e].file
    ensures b < s <= e && before == Spans(scan, b, s - 1) && Spans(scan, b, e) == before + [(s, e)]
    ensures s <= i || k < s
  {
    s := FirstOfFile(scan, b, e);
    before := Spans(scan, b, s - 1);
    assert scan.tokens[s].file == scan.tokens[e].file;
    SameSide(scan, s, i, k);
  }

  lemma SameSide(scan: Scan, s: nat, i: nat, k: nat)
    requires Ordered(scan) && IsFirst(scan, s) && i <= k < |scan.tokens| && scan.tokens[i].file == scan.tokens[k].file
    ensures s <= i || k < s
  {
  }

  lemma CoversAppended(before: seq<(nat, nat)>, last: (nat, nat), i: int, k: int)
    requires Covers(last, i, k) || CoversSome(before, i, k)
    ensures CoversSome(before + [last], i, k)
  {
    var all := before + [last];
    if Covers(last, i, k) {
      assert Covers(all[|before|], i, k);
    } else {
      var n :| 0 <= n < |before| && Covers(before[n], i, k);
      assert Covers(all[n], i, k);
    }
  }

  /** A reset is reported exactly when some known counter went down between two anchors of one file. */
  method SegmentsCounterReset(scan: Scan, segments: seq<Segment>, ghost b: nat, ghost e: nat) returns (reset: bool)
    requires Ordered(scan) && b <= e < |scan.tokens| && segments == Segments(scan, b, e)
    ensures reset <==> ResetWithin(scan, b, e)
  {
    ghost var spans := Spans(scan, b, e);
    SpansFit(scan, b, e);
    assert |spans| == |segments|;
    for n := 0 to |segments|
      invariant forall m :: 0 <= m < n ==> !DropWithin(scan, spans[m].0, spans[m].1)
    {
      var segment := segments[n];
      assert SpanFits(scan, segment, spans[n], b, e);
      var from: Anchor;
      if segment.baseline.Some? {
        from := segment.baseline.value;
      } else {
        var first, _ := FileTokenAnchorBounds(scan, segment.file);
        if first.None? { continue; }
        FirstIsUnique(scan, first.value, spans[n].0);
        from := scan.tokens[first.value];
      }
      if from.offset == segment.end.offset { continue; }
      var dropped := CountersResetBetween(scan, from, segment.end, spans[n].0, spans[n].1);
      if dropped {
        DropIsReset(scan, b, e, spans[n]);
        return true;
      }
    }
    if ResetWithin(scan, b, e) { ResetIsDrop(scan, b, e); }
    return false;
  }

  lemma DropIsReset(scan: Scan, b: nat, e: nat, span: (nat, nat))
    requires Ordered(scan) && b <= span.0 <= span.1 <= e < |scan.tokens| && scan.tokens[span.0].file == scan.tokens[span.1].file
    requires DropWithin(scan, span.0, span.1)
    ensures ResetWithin(scan, b, e)
  {
    var f, i, k :| span.0 <= i && k <= span.1 && Drop(scan, f, i, k);
    assert scan.tokens[span.0].file <= scan.tokens[i].file <= scan.tokens[k].file <= scan.tokens[span.1].file;
  }

  lemma ResetIsDrop(scan: Scan, b: nat, e: nat)
    requires Ordered(scan) && b <= e < |scan.tokens| && ResetWithin(scan, b, e)
    ensures exists n :: 0 <= n < |Spans(scan, b, e)| && DropWithin(scan, Spans(scan, b, e)[n].0, Spans(scan, b, e)[n].1)
  {
    var f, i, k :| b <= i && k <= e && Drop(scan, f, i, k) && scan.tokens[i].file == scan.tokens[k].file;
    SpansCover(scan, b, e, i, k);
    var n :| 0 <= n < |Spans(scan, b, e)| && Covers(Spans(scan, b, e)[n], i, k);
    assert DropWithin(scan, Spans(scan, b, e)[n].0, Spans(scan, b, e)[n].1);
  }

  /** Without a reported reset no segment with a baseline is negative, even where anchors omit the field. */
  lemma NoResetNoNegative(scan: Scan, f: Field, b: nat, e: nat, n: nat)
    requires Ordered(scan) && b <= e < |scan.tokens| && !ResetWithin(scan, b, e)
    requires n < |Segments(scan, b, e)| && Segments(scan, b, e)[n].baseline.Some?
    requires SegmentValue(Segments(scan, b, e)[n], f).Some?
    ensures SegmentValue(Segments(scan, b, e)[n], f).value >= 0
  {
    SpansFit(scan, b, e);
    var segment, span := Segments(scan, b, e)[n], Spans(scan, b, e)[n];
    assert SpanFits(scan, segment, span, b, e);
    if SegmentValue(segment, f).value < 0 {
      assert Drop(scan, f, span.0, span.1);
    }
  }

  /** So usage is never negative, if the values that restarted files end with are not. */
  lemma NoResetUsageNotNegative(scan: Scan, f: Field, b: nat, e: nat)
    requires Ordered(scan) && b <= e < |scan.tokens| && !ResetWithin(scan, b, e) && AllValued(Segments(scan, b, e), f)
    requires forall n :: 0 <= n < |Segments(scan, b, e)| && Segments(scan, b, e)[n].baseline.None? ==>
               SegmentValue(Segments(scan, b, e)[n], f).value >= 0
    ensures SegmentSum(Segments(scan, b, e), f) >= 0
  {
    var segments := Segments(scan, b, e);
    forall n | 0 <= n < |segments| ensures SegmentValue(segments[n], f).value >= 0 {
      if segments[n].baseline.Some? { NoResetNoNegative(scan, f, b, e, n); }
    }
    SumNotNegative(segments, f);
  }

  lemma {:induction false} SumNotNegative(segments: seq<Segment>, f: Field)
    requires AllValued(segments, f) && forall n :: 0 <= n < |segments| ==> SegmentValue(segments[n], f).value >= 0
    ensures SegmentSum(segments, f) >= 0
  {
    if segments != [] { SumNotNegative(segments[..|segments| - 1], f); }
  }

  // ---------------------------------------------------------------- usage of an interval of time

  datatype Totals = Totals(input: int, cached: int, output: int, reasoning: int, total: int) {
    function Get(f: Field): int {
      match f
      case Input => input
      case Cached => cached
      case Output => output
      case Reasoning => reasoning
      case Total => total
    }
  }

  datatype Usage =
    | NoBaseline
    | NoEnd(baseline: Anchor)
    | NoObservation(baseline: Anchor)
    | CounterReset(baseline: Anchor, end: Anchor)
    | Available(baseline: Anchor, end: Anchor, totals: Totals, unknown: seq<UnknownField>)

  /** The first n anchors, and no more, are read before one later than the bound. */
  ghost predicate Reached(scan: Scan, bound: int, n: nat) {
    n <= |scan.tokens| && (forall i :: 0 <= i < n ==> scan.tokens[i].at <= bound) && (n < |scan.tokens| ==> bound < scan.tokens[n].at)
  }

  lemma ReachedGrows(scan: Scan, early: int, late: int, n: nat, m: nat)
    requires early <= late && Reached(scan, early, n) && Reached(scan, late, m)
    ensures n <= m
  {
  }

  /** How many anchors that is; the scan stops at the first later one, whatever follows it. */
  function UpTo(scan: Scan, bound: int, from: nat := 0): (n: nat)
    requires from <= |scan.tokens| && forall i :: 0 <= i < from ==> scan.tokens[i].at <= bound
    ensures Reached(scan, bound, n)
    decreases |scan.tokens| - from
  {
    if from == |scan.tokens| || scan.tokens[from].at > bound then from else UpTo(scan, bound, from + 1)
  }

  method LastTokenAnchorAtOrBefore(scan: Scan, bound: int) returns (found: Option<Anchor>)
    ensures found == if UpTo(scan, bound) == 0 then None else Some(scan.tokens[UpTo(scan, bound) - 1])
  {
    found := None;
    for i := 0 to |scan.tokens|
      invariant forall k :: 0 <= k < i ==> scan.tokens[k].at <= bound
      invariant found == if i == 0 then None else Some(scan.tokens[i - 1])
    {
      if scan.tokens[i].at > bound {
        assert Reached(scan, bound, i);
        break;
      }
      found := Some(scan.tokens[i]);
    }
  }

  ghost predicate Unknown(unknown: seq<UnknownField>, f: Field) {
    exists i :: 0 <= i < |unknown| && unknown[i].field == f
  }

  /** The report between the n-th and the m-th anchor. */
  ghost predicate Reports(scan: Scan, n: nat, m: nat, u: Usage)
    requires n <= |scan.tokens| && m <= |scan.tokens|
  {
    match u
    case NoBaseline => n == 0
    case NoEnd(baseline) => m == 0 < n && baseline == scan.tokens[n - 1]
    case NoObservation(baseline) => 0 < m <= n && baseline == scan.tokens[n - 1]
    case CounterReset(baseline, end) =>
      0 < n < m && baseline == scan.tokens[n - 1] && end == scan.tokens[m - 1] && ResetWithin(scan, n - 1, m - 1)
    case Available(baseline, end, totals, unknown) =>
      && 0 < n < m && baseline == scan.tokens[n - 1] && end == scan.tokens[m - 1] && !ResetWithin(scan, n - 1, m - 1)
      && TotalsReported(Segments(scan, n - 1, m - 1), totals, unknown)
  }

  ghost predicate TotalsReported(segments: seq<Segment>, totals: Totals, unknown: seq<UnknownField>) {
    forall f :: FieldReported(segments, f, totals, unknown)
  }

  ghost predicate FieldReported(segments: seq<Segment>, f: Field, totals: Totals, unknown: seq<UnknownField>) {
    (Unknown(unknown, f) <==> !AllValued(segments, f)) && totals.Get(f) == if AllValued(segments, f) then SegmentSum(segments, f) else 0
  }

  method AnchoredTokens(scan: Scan, baselineBound: int, endBound: int) returns (u: Usage)
    requires Ordered(scan)
    ensures Reports(scan, UpTo(scan, baselineBound), UpTo(scan, endBound), u)
    ensures ExactContinuations(scan) ==> WalkReports(scan, UpTo(scan, baselineBound), UpTo(scan, endBound), u)
  {
    u := ReportTokens(scan, baselineBound, endBound);
    if ExactContinuations(scan) { ReportsWalk(scan, UpTo(scan, baselineBound), UpTo(scan, endBound), u); }
  }

  method ReportTokens(scan: Scan, baselineBound: int, endBound: int) returns (u: Usage)
    requires Ordered(scan)
    ensures Reports(scan, UpTo(scan, baselineBound), UpTo(scan, endBound), u)
  {
    var baseline := LastTokenAnchorAtOrBefore(scan, baselineBound);
    var end := LastTokenAnchorAtOrBefore(scan, endBound);
    if baseline.None? { return NoBaseline; }
    if end.None? { return NoEnd(baseline.value); }
    u := ReportBetween(scan, baseline.value, end.value, UpTo(scan, baselineBound), UpTo(scan, endBound));
  }

  method ReportBetween(scan: Scan, baseline: Anchor, end: Anchor, ghost n: nat, ghost m: nat) returns (u: Usage)
    requires Ordered(scan) && 0 < n <= |scan.tokens| && 0 < m <= |scan.tokens|
    requires baseline == scan.tokens[n - 1] && end == scan.tokens[m - 1]
    ensures Reports(scan, n, m, u)
  {
    OffsetsGrow(scan, n - 1, m - 1);
    if end.offset <= baseline.offset { return NoObservation(baseline); }
    var segments := SplitByFile(scan, baseline, end, n - 1, m - 1);
    var reset := SegmentsCounterReset(scan, segments, n - 1, m - 1);
    if reset {
      ResetReports(scan, n, m);
      return CounterReset(baseline, end);
    }
    var totals, unknown := FieldTotals(segments);
    u := Available(baseline, end, totals, unknown);
    AvailableReports(scan, n, m, totals, unknown);
  }

  lemma OffsetsGrow(scan: Scan, i: nat, k: nat)
    requires Ordered(scan) && i < |scan.tokens| && k < |scan.tokens|
    ensures scan.tokens[i].offset < scan.tokens[k].offset <==> i < k
  {
  }

  lemma ResetReports(scan: Scan, n: nat, m: nat)
    requires 0 < n < m <= |scan.tokens| && ResetWithin(scan, n - 1, m - 1)
    ensures Reports(scan, n, m, CounterReset(scan.tokens[n - 1], scan.tokens[m - 1]))
  {
  }

  lemma AvailableReports(scan: Scan, n: nat, m: nat, totals: Totals, unknown: seq<UnknownField>)
    requires 0 < n < m <= |scan.tokens| && !ResetWithin(scan, n - 1, m - 1)
    requires TotalsReported(Segments(scan, n - 1, m - 1), totals, unknown)
    ensures Reports(scan, n, m, Available(scan.tokens[n - 1], scan.tokens[m - 1], totals, unknown))
  {
  }

  method FieldTotals(segments: seq<Segment>) returns (totals: Totals, unknown: seq<UnknownField>)
    ensures TotalsReported(segments, totals, unknown)
  {
    var input, u0 := FieldTotal(Input, segments);
    var cached, u1 := FieldTotal(Cached, segments);
    var output, u2 := FieldTotal(Output, segments);
    var reasoning, u3 := FieldTotal(Reasoning, segments);
    var total, u4 := FieldTotal(Total, segments);
    totals := Totals(input, cached, output, reasoning, total);
    unknown := Noted(Noted(Noted(Noted(Noted([], u0), u1), u2), u3), u4);
    forall f ensures FieldReported(segments, f, totals, unknown) {
      NotedFive(u0, u1, u2, u3, u4, f);
    }
  }

  ghost predicate Totalled(segments: seq<Segment>, f: Field, total: int, unknown: Option<UnknownField>) {
    && (unknown.Some? ==> unknown.value.field == f) && (unknown.None? <==> AllValued(segments, f))
    && total == if AllValued(segments, f) then SegmentSum(segments, f) else 0
  }

  method FieldTotal(f: Field, segments: seq<Segment>) returns (total: int, unknown: Option<UnknownField>)
    ensures Totalled(segments, f, total, unknown)
  {
    total, unknown := SegmentField(f, segments);
  }

  lemma NotedFive(u0: Option<UnknownField>, u1: Option<UnknownField>, u2: Option<UnknownField>, u3: Option<UnknownField>,
                  u4: Option<UnknownField>, f: Field)
    requires (u0.Some? ==> u0.value.field == Input) && (u1.Some? ==> u1.value.field == Cached)
    requires (u2.Some? ==> u2.value.field == Output) && (u3.Some? ==> u3.value.field == Reasoning) && (u4.Some? ==> u4.value.field == Total)
    ensures Unknown(Noted(Noted(Noted(Noted(Noted([], u0), u1), u2), u3), u4), f) <==>
              match f
              case Input => u0.Some?
              case Cached => u1.Some?
              case Output => u2.Some?
              case Reasoning => u3.Some?
              case Total => u4.Some?
  {
    var n1 := Noted([], u0);
    var n2 := Noted(n1, u1);
    var n3 := Noted(n2, u2);
    NotedFields([], u0, f);
    NotedFields(n1, u1, f);
    NotedFields(n2, u2, f);
    NotedFields(n3, u3, f);
    NotedFields(Noted(n3, u3), u4, f);
  }

  function Noted(unknowns: seq<UnknownField>, unknown: Option<UnknownField>): seq<UnknownField> {
    if unknown.Some? then unknowns + [unknown.value] else unknowns
  }

  lemma NotedFields(unknowns: seq<UnknownField>, unknown: Option<UnknownField>, f: Field)
    ensures Unknown(Noted(unknowns, unknown), f) <==> Unknown(unknowns, f) || (unknown.Some? && unknown.value.field == f)
  {
    var all := Noted(unknowns, unknown);
    if Unknown(unknowns, f) {
      var i :| 0 <= i < |unknowns| && unknowns[i].field == f;
      assert all[i].field == f;
    }
    if unknown.Some? && unknown.value.field == f { assert all[|unknowns|].field == f; }
  }

  // ---------------------------------------------------------------- adjacent intervals

  /** The report in terms of the walk from anchor to anchor. */
  ghost predicate WalkReports(scan: Scan, n: nat, m: nat, u: Usage)
    requires n <= |scan.tokens| && m <= |scan.tokens|
  {
    match u
    case NoBaseline => n == 0
    case NoEnd(_) => m == 0 < n
    case NoObservation(_) => 0 < m <= n
    case CounterReset(_, _) => 0 < n < m && ResetWithin(scan, n - 1, m - 1)
    case Available(_, end, totals, unknown) =>
      && 0 < n < m && end == scan.tokens[m - 1] && !ResetWithin(scan, n - 1, m - 1)
      && TotalsWalk(scan, n - 1, m - 1, totals, unknown)
  }

  ghost predicate TotalsWalk(scan: Scan, b: nat, e: nat, totals: Totals, unknown: seq<UnknownField>)
    requires b <= e < |scan.tokens|
  {
    forall f :: WalkReported(scan, f, b, e, totals, unknown)
  }

  ghost predicate WalkReported(scan: Scan, f: Field, b: nat, e: nat, totals: Totals, unknown: seq<UnknownField>)
    requires b <= e < |scan.tokens|
  {
    && (Unknown(unknown, f) <==> !Measurable(scan, f, b, e))
    && (Measurable(scan, f, b, e) ==> totals.Get(f) == Walk(scan, Values(scan, f), b, e))
  }

  lemma ReportsWalk(scan: Scan, n: nat, m: nat, u: Usage)
    requires Ordered(scan) && ExactContinuations(scan) && n <= |scan.tokens| && m <= |scan.tokens| && Reports(scan, n, m, u)
    ensures WalkReports(scan, n, m, u)
  {
    match u
    case Available(_, _, totals, unknown) => AvailableWalk(scan, n, m, u);
    case _ =>
  }

  lemma AvailableWalk(scan: Scan, n: nat, m: nat, u: Usage)
    requires Ordered(scan) && ExactContinuations(scan) && 0 < n < m <= |scan.tokens| && u.Available?
    requires u.end == scan.tokens[m - 1] && !ResetWithin(scan, n - 1, m - 1)
    requires TotalsReported(Segments(scan, n - 1, m - 1), u.totals, u.unknown)
    ensures WalkReports(scan, n, m, u)
  {
    TotalsAreWalks(scan, n - 1, m - 1, u.totals, u.unknown);
  }

  lemma TotalsAreWalks(scan: Scan, b: nat, e: nat, totals: Totals, unknown: seq<UnknownField>)
    requires Ordered(scan) && ExactContinuations(scan) && b <= e < |scan.tokens|
    requires TotalsReported(Segments(scan, b, e), totals, unknown)
    ensures TotalsWalk(scan, b, e, totals, unknown)
  {
    forall f ensures WalkReported(scan, f, b, e, totals, unknown) {
      assert FieldReported(Segments(scan, b, e), f, totals, unknown);
      ValuedIsWalk(scan, f, b, e);
    }
  }

  lemma ValuedIsWalk(scan: Scan, f: Field, b: nat, e: nat)
    requires Ordered(scan) && ExactContinuations(scan) && b <= e < |scan.tokens|
    ensures AllValued(Segments(scan, b, e), f) <==> Measurable(scan, f, b, e)
    ensures AllValued(Segments(scan, b, e), f) ==> SegmentSum(Segments(scan, b, e), f) == Walk(scan, Values(scan, f), b, e)
  {
    ValuedIffMeasurable(scan, f, b, e);
    if AllValued(Segments(scan, b, e), f) { SumIsWalk(scan, f, Values(scan, f), b, e); }
  }

  lemma AdjacentWalks(scan: Scan, n0: nat, n1: nat, n2: nat, first: Usage, second: Usage, whole: Usage, f: Field)
    requires Ordered(scan) && n0 <= n1 <= n2 <= |scan.tokens|
    requires WalkReports(scan, n0, n1, first) && WalkReports(scan, n1, n2, second) && WalkReports(scan, n0, n2, whole)
    ensures first.CounterReset? || (second.CounterReset? && !first.NoBaseline?) ==> whole.CounterReset?
    ensures first.Available? && second.Available? && AllKnown(first.end.counters) ==> whole.Available?
    ensures first.Available? && second.Available? ==> (whole.Available? <==> !HidesDrop(scan, n0 - 1, n1 - 1, n2 - 1))
    ensures first.Available? && second.Available? && whole.Available? && !Unknown(first.unknown, f) && !Unknown(second.unknown, f) ==>
              !Unknown(whole.unknown, f) && whole.totals.Get(f) == first.totals.Get(f) + second.totals.Get(f)
  {
    ResetShows(scan, n0, n1, n2, first, second, whole);
    if first.Available? && second.Available? && whole.Available? {
      WalksAddUp(scan, f, n0 - 1, n1 - 1, n2 - 1, first, second, whole);
    }
  }

  /** Reports of two adjacent intervals and of both together: a reset in a part shows in the whole,
      totals add up field by field, and with both parts available the whole is too, exactly when no
      field drops across an anchor between them that omits it; none does if that anchor knows all. */
  lemma AdjacentReports(scan: Scan, start: int, middle: int, end: int, first: Usage, second: Usage, whole: Usage, f: Field)
    requires Ordered(scan) && start <= middle <= end
    requires WalkReports(scan, UpTo(scan, start), UpTo(scan, middle), first)
    requires WalkReports(scan, UpTo(scan, middle), UpTo(scan, end), second)
    requires WalkReports(scan, UpTo(scan, start), UpTo(scan, end), whole)
    ensures first.CounterReset? || (second.CounterReset? && !first.NoBaseline?) ==> whole.CounterReset?
    ensures first.Available? && second.Available? && AllKnown(first.end.counters) ==> whole.Available?
    ensures first.Available? && second.Available? ==>
              (whole.Available? <==> !HidesDrop(scan, UpTo(scan, start) - 1, UpTo(scan, middle) - 1, UpTo(scan, end) - 1))
    ensures first.Available? && second.Available? && whole.Available? && !Unknown(first.unknown, f) && !Unknown(second.unknown, f) ==>
              !Unknown(whole.unknown, f) && whole.totals.Get(f) == first.totals.Get(f) + second.totals.Get(f)
  {
    var n0, n1, n2 := UpTo(scan, start), UpTo(scan, middle), UpTo(scan, end);
    ReachedGrows(scan, start, middle, n0, n1);
    ReachedGrows(scan, middle, end, n1, n2);
    AdjacentWalks(scan, n0, n1, n2, first, second, whole, f);
  }

  lemma ResetShows(scan: Scan, n0: nat, n1: nat, n2: nat, first: Usage, second: Usage, whole: Usage)
    requires Ordered(scan) && n0 <= n1 <= n2 <= |scan.tokens|
    requires WalkReports(scan, n0, n1, first) && WalkReports(scan, n1, n2, second) && WalkReports(scan, n0, n2, whole)
    ensures first.CounterReset? || (second.CounterReset? && !first.NoBaseline?) ==> whole.CounterReset?
    ensures first.Available? && second.Available? && AllKnown(first.end.counters) ==> whole.Available?
    ensures first.Available? && second.Available? ==> (whole.Available? <==> !HidesDrop(scan, n0 - 1, n1 - 1, n2 - 1))
  {
    if n0 > 0 {
      ResetsOfParts(scan, n0 - 1, n1 - 1, n2 - 1);
      if first.Available? && second.Available? { ResetOfTheWholeIff(scan, n0 - 1, n1 - 1, n2 - 1); }
    }
  }

  lemma ResetsOfParts(scan: Scan, b: nat, m: nat, e: int)
    requires Ordered(scan) && b <= m <= e < |scan.tokens|
    ensures ResetWithin(scan, b, m) || ResetWithin(scan, m, e) ==> ResetWithin(scan, b, e)
    ensures AllKnown(scan.tokens[m].counters) && ResetWithin(scan, b, e) ==> ResetWithin(scan, b, m) || ResetWithin(scan, m, e)
  {
    ResetWidens(scan, b, m, b, e);
    ResetWidens(scan, m, e, b, e);
    if AllKnown(scan.tokens[m].counters) { ResetNeedsAPart(scan, b, m, e); }
  }

  lemma WalksAddUp(scan: Scan, f: Field, b: nat, m: nat, e: nat, first: Usage, second: Usage, whole: Usage)
    requires b <= m <= e < |scan.tokens| && first.Available? && second.Available? && whole.Available?
    requires TotalsWalk(scan, b, m, first.totals, first.unknown) && TotalsWalk(scan, m, e, second.totals, second.unknown)
    requires TotalsWalk(scan, b, e, whole.totals, whole.unknown)
    ensures !Unknown(first.unknown, f) && !Unknown(second.unknown, f) ==>
              !Unknown(whole.unknown, f) && whole.totals.Get(f) == first.totals.Get(f) + second.totals.Get(f)
  {
    assert WalkReported(scan, f, b, m, first.totals, first.unknown) && WalkReported(scan, f, m, e, second.totals, second.unknown);
    assert WalkReported(scan, f, b, e, whole.totals, whole.unknown);
    MeasurableParts(scan, f, b, m, e);
    WalkSplits(scan, Values(scan, f), b, m, e);
  }

  lemma ResetWidens(scan: Scan, b: int, e: int, b': int, e': int)
    requires b' <= b && e <= e'
    ensures ResetWithin(scan, b, e) ==> ResetWithin(scan, b', e')
  {
  }

  /** Two parts without a reset make a whole without one when the anchor between them reports every field. */
  lemma ResetNeedsAPart(scan: Scan, b: nat, m: nat, e: nat)
    requires Ordered(scan) && b <= m <= e < |scan.tokens| && AllKnown(scan.tokens[m].counters)
    ensures ResetWithin(scan, b, e) <==> ResetWithin(scan, b, m) || ResetWithin(scan, m, e)
  {
    ResetWidens(scan, b, m, b, e);
    ResetWidens(scan, m, e, b, e);
    if ResetWithin(scan, b, e) {
      var f, i, k :| b <= i && k <= e && Drop(scan, f, i, k) && scan.tokens[i].file == scan.tokens[k].file;
      if i < m < k {
        assert scan.tokens[i].file <= scan.tokens[m].file <= scan.tokens[k].file;
        assert Known(scan, f, m);
        assert Drop(scan, f, i, m) || Drop(scan, f, m, k);
      }
    }
  }

  /** The field is next reported below what it was last reported as before anchor m, in one file. */
  ghost predicate DropsAcross(scan: Scan, f: Field, b: int, i: int, m: int, k: int, e: int) {
    && b <= i < m < k <= e && Drop(scan, f, i, k) && scan.tokens[i].file == scan.tokens[k].file
    && forall n :: i < n < k ==> !Known(scan, f, n)
  }

  ghost predicate HidesDrop(scan: Scan, b: int, m: int, e: int) {
    exists f, i, k :: DropsAcross(scan, f, b, i, m, k, e)
  }

  /** Two parts without a reset make a whole with one exactly when some field the anchor between them
      omits is lower when next reported than when last reported, within one file. */
  lemma ResetOfTheWholeIff(scan: Scan, b: nat, m: nat, e: nat)
    requires Ordered(scan) && b <= m <= e < |scan.tokens|
    requires !ResetWithin(scan, b, m) && !ResetWithin(scan, m, e)
    ensures ResetWithin(scan, b, e) <==> HidesDrop(scan, b, m, e)
  {
    if ResetWithin(scan, b, e) {
      var f, i, k :| b <= i && k <= e && Drop(scan, f, i, k) && scan.tokens[i].file == scan.tokens[k].file;
      assert scan.tokens[i].file <= scan.tokens[m].file <= scan.tokens[k].file;
      assert !Known(scan, f, m) by {
        assert Known(scan, f, m) ==> Drop(scan, f, i, m) || Drop(scan, f, m, k);
      }
      var last, next := NearestKnown(scan, f, i, m, k);
      assert i < last ==> !Drop(scan, f, i, last);
      assert next < k ==> !Drop(scan, f, next, k);
      assert DropsAcross(scan, f, b, last, m, next, e);
    }
  }

  /** The last anchor before m and the first after it that know the field. */
  lemma NearestKnown(scan: Scan, f: Field, i: nat, m: nat, k: nat) returns (last: nat, next: nat)
    requires Ordered(scan) && i < m < k < |scan.tokens| && scan.tokens[i].file == scan.tokens[k].file
    requires Known(scan, f, i) && Known(scan, f, k) && !Known(scan, f, m)
    ensures i <= last < m < next <= k && Known(scan, f, last) && Known(scan, f, next)
    ensures forall n :: last < n < next ==> !Known(scan, f, n)
    ensures scan.tokens[last].file == scan.tokens[next].file == scan.tokens[i].file
  {
    last, next := m - 1, m + 1;
    while !Known(scan, f, last)
      invariant i <= last < m && forall n :: last < n <= m ==> !Known(scan, f, n)
      decreases last
    {
      last := last - 1;
    }
    while !Known(scan, f, next)
      invariant m < next <= k && forall n :: m <= n < next ==> !Known(scan, f, n)
      decreases k - next
    {
      next := next + 1;
    }
    assert scan.tokens[i].file <= scan.tokens[last].file <= scan.tokens[next].file <= scan.tokens[k].file;
  }

  /** A drop across the anchor between two parts shows in neither of them. */
  lemma PartsCanHideAReset() returns (scan: Scan)
    ensures Ordered(scan) && ExactContinuations(scan) && |scan.tokens| == 3
    ensures !ResetWithin(scan, 0, 1) && !ResetWithin(scan, 1, 2) && ResetWithin(scan, 0, 2)
  {
    var high, none, low := Counters(None, None, None, None, Some(10)), Counters(None, None, None, None, None), Counters(None, None, None, None, Some(5));
    scan := Scan([Anchor(0, 0, 0, high), Anchor(1, 1, 0, none), Anchor(2, 2, 0, low)], [false]);
    assert forall f: Field :: none.Get(f).None?;
    assert Drop(scan, Total, 0, 2);
  }
}
