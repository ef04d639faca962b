/** Ordering the rollout files of one session into a chain, and scanning it into counter anchors. */
module RolloutChain {
  import opened Results
  import opened TextOrder
  import opened TokenSegments

  /** A token event: the running totals, if reported, and the total of the last turn. */
  datatype Signal = Signal(usage: Option<Counters>, lastTotal: Option<int>)

  datatype Line = Line(size: nat, at: int, signal: Option<Signal>)

  datatype Identity = Identity(id: string, parent: string, cwd: string, originator: string, source: string)

  /** `first` is the time in the session metadata, `last` the time of the last event; None means
      unreadable.  `content` is None when the file cannot be read or has a malformed line. */
  datatype Rollout = Rollout(path: string, first: Option<int>, last: Option<int>, identity: Identity, content: Option<seq<Line>>)

  datatype Chain = Chain(members: seq<Rollout>, continuations: seq<bool>)

  const NO_COUNTERS := Counters(None, None, None, None, None)

  function Reported(s: Signal): Counters {
    if s.usage.Some? then s.usage.value else NO_COUNTERS
  }

  // ---------------------------------------------------------------- boundaries between files

  function FirstSignal(lines: seq<Line>): Option<Signal> {
    if lines == [] then None
    else if lines[0].signal.Some? then lines[0].signal
    else FirstSignal(lines[1..])
  }

  function LastSignal(lines: seq<Line>): Option<Signal> {
    if lines == [] then None
    else if lines[|lines| - 1].signal.Some? then lines[|lines| - 1].signal
    else LastSignal(lines[..|lines| - 1])
  }

  predicate Carried(previous: Option<int>, current: Option<int>) {
    previous.Some? && previous.value >= 0 && current == previous
  }

  function CounterContinued(current: Counters, previous: Counters): (continued: bool)
    ensures continued ==> current == previous && AllKnown(current)
  {
    Carried(previous.input, current.input) && Carried(previous.cached, current.cached) && Carried(previous.output, current.output)
    && Carried(previous.reasoning, current.reasoning) && Carried(previous.total, current.total)
  }

  predicate CounterRestarted(signal: Signal, previousTotal: Option<int>) {
    var total := Reported(signal).total;
    total.Some? && (signal.lastTotal == total || (previousTotal.Some? && total.value < previousTotal.value))
  }

  /** Whether the current file continues the previous one, or None where it does neither that nor restart. */
  function CounterBoundary(previous: seq<Line>, current: seq<Line>): Option<bool>
    requires LastSignal(previous).Some?
  {
    var signal, before := FirstSignal(current), Reported(LastSignal(previous).value);
    if signal.None? then None
    else
      var now := Reported(signal.value);
      if CounterContinued(now, before) then Some(true)
      else if now.total.Some? && now.total == before.total then None
      else if CounterRestarted(signal.value, before.total) then Some(false)
      else None
  }

  // ---------------------------------------------------------------- the boundary, read off the two files

  /** Line i holds the file's last token event. */
  ghost predicate LastEvent(lines: seq<Line>, i: nat) {
    i < |lines| && lines[i].signal.Some? && forall k :: i < k < |lines| ==> lines[k].signal.None?
  }

  ghost predicate FirstEvent(lines: seq<Line>, i: nat) {
    i < |lines| && lines[i].signal.Some? && forall k :: 0 <= k < i ==> lines[k].signal.None?
  }

  lemma {:induction false} LastSignalAt(lines: seq<Line>, i: nat)
    requires LastEvent(lines, i)
    ensures LastSignal(lines) == lines[i].signal
  {
    if i < |lines| - 1 { LastSignalAt(lines[..|lines| - 1], i); }
  }

  lemma {:induction false} FirstSignalAt(lines: seq<Line>, i: nat)
    requires FirstEvent(lines, i)
    ensures FirstSignal(lines) == lines[i].signal
  {
    if i > 0 {
      forall k | 0 <= k < i - 1 ensures lines[1..][k].signal.None? { assert lines[k + 1].signal.None?; }
      FirstSignalAt(lines[1..], i - 1);
    }
  }

  lemma {:induction false} NoSignal(lines: seq<Line>)
    ensures (LastSignal(lines).None? <==> forall k :: 0 <= k < |lines| ==> lines[k].signal.None?)
    ensures (FirstSignal(lines).None? <==> forall k :: 0 <= k < |lines| ==> lines[k].signal.None?)
  {
    if lines != [] {
      NoSignal(lines[1..]);
      NoSignal(lines[..|lines| - 1]);
      assert forall k :: 1 <= k < |lines| ==> lines[k] == lines[1..][k - 1];
    }
  }

  /** All five counters are known and none is negative. */
  ghost predicate FullyReported(usage: Option<Counters>) {
    && usage.Some? && usage.value.input.Some? && usage.value.cached.Some? && usage.value.output.Some?
    && usage.value.reasoning.Some? && usage.value.total.Some?
    && usage.value.input.value >= 0 && usage.value.cached.value >= 0 && usage.value.output.value >= 0
    && usage.value.reasoning.value >= 0 && usage.value.total.value >= 0
  }

  ghost function TotalOf(usage: Option<Counters>): Option<int> {
    if usage.Some? then usage.value.total else None
  }

  /** A file continues the one before it exactly when its first token event reports, all five and not negative, the
      counters of the other's last one.  It restarts them exactly when its first total is known, not the last one of the
      other, and the total of that very turn or less than the other's.  Everything else is ambiguous. */
  lemma BoundaryIff(previous: seq<Line>, i: nat, current: seq<Line>, k: nat)
    requires LastEvent(previous, i) && FirstEvent(current, k)
    ensures LastSignal(previous).Some?
    ensures var before, now := previous[i].signal.value, current[k].signal.value;
            var total, boundary := TotalOf(now.usage), CounterBoundary(previous, current);
            && (boundary == Some(true) <==> FullyReported(before.usage) && now.usage == before.usage)
            && (boundary == Some(false) <==>
                && total.Some? && total != TotalOf(before.usage)
                && (now.lastTotal == total || (TotalOf(before.usage).Some? && total.value < TotalOf(before.usage).value)))
  {
    LastSignalAt(previous, i);
    FirstSignalAt(current, k);
  }

  /** A file without a token event is no anchor, and neither continues nor restarts anything. */
  lemma BoundaryNeedsEvents(r: Rollout, previous: seq<Line>)
    requires LastSignal(previous).Some? && r.content.Some?
    ensures Anchored(r) <==> exists i: nat :: LastEvent(r.content.value, i) && TotalOf(r.content.value[i].signal.value.usage).Some?
    ensures (forall k :: 0 <= k < |r.content.value| ==> r.content.value[k].signal.None?) ==> CounterBoundary(previous, r.content.value).None?
  {
    var lines := r.content.value;
    NoSignal(lines);
    if LastSignal(lines).Some? {
      var i := LastEventExists(lines);
      LastSignalAt(lines, i);
      forall n: nat | LastEvent(lines, n) ensures lines[n].signal == LastSignal(lines) { LastSignalAt(lines, n); }
    }
  }

  lemma {:induction false} LastEventExists(lines: seq<Line>) returns (i: nat)
    requires LastSignal(lines).Some?
    ensures LastEvent(lines, i)
  {
    i := |lines| - 1;
    if lines[i].signal.None? { i := LastEventExists(lines[..i]); }
  }

  // ---------------------------------------------------------------- what a chain is

  predicate Anchored(r: Rollout) {
    r.content.Some? && LastSignal(r.content.value).Some? && Reported(LastSignal(r.content.value).value).total.Some?
  }

  predicate Ranged(r: Rollout) {
    r.first.Some? && r.last.Some? && r.first.value <= r.last.value
  }

  predicate Follows(previous: Rollout, current: Rollout) {
    && Ranged(previous) && Ranged(current) && previous.last.value < current.first.value
    && previous.identity == current.identity
    && Anchored(previous) && Anchored(current)
    && CounterBoundary(previous.content.value, current.content.value).Some?
  }

  /** Different files of one session, one strictly after the other, each continuing or restarting the counters. */
  ghost predicate Chainable(members: seq<Rollout>) {
    && members != [] && Ranged(members[0]) && Anchored(members[0])
    && (forall i :: 0 < i < |members| ==> Follows(members[i - 1], members[i]))
    && (forall i, k :: 0 <= i < k < |members| ==> members[i].content != members[k].content)
  }

  ghost predicate Flagged(chain: Chain) {
    && |chain.continuations| == |chain.members| && Chainable(chain.members) && !chain.continuations[0]
    && forall i :: 0 < i < |chain.members| ==>
         Follows(chain.members[i - 1], chain.members[i]) &&
         CounterBoundary(chain.members[i - 1].content.value, chain.members[i].content.value) == Some(chain.continuations[i])
  }

  // ---------------------------------------------------------------- ordering the candidates

  predicate StartsLe(a: Rollout, b: Rollout) {
    if a.first == b.first then StrLe(a.path, b.path)
    else a.first.None? || (b.first.Some? && a.first.value < b.first.value)
  }

  lemma StartsLeTransitive(a: Rollout, b: Rollout, c: Rollout)
    requires StartsLe(a, b) && StartsLe(b, c)
    ensures StartsLe(a, c)
  {
    if a.first == b.first == c.first { StrLeTransitive(a.path, b.path, c.path); }
  }

  ghost predicate SortedByStart(rs: seq<Rollout>) {
    forall i, k :: 0 <= i < k < |rs| ==> StartsLe(rs[i], rs[k])
  }

  method SortByStart(matches: seq<Rollout>) returns (ordered: seq<Rollout>)
    ensures SortedByStart(ordered) && multiset(ordered) == multiset(matches)
  {
    ordered := [];
    for n := 0 to |matches|
      invariant SortedByStart(ordered) && multiset(ordered) == multiset(matches[..n])
    {
      var at := 0;
      while at < |ordered| && StartsLe(ordered[at], matches[n])
        invariant at <= |ordered| && forall i :: 0 <= i < at ==> StartsLe(ordered[i], matches[n])
      {
        at := at + 1;
      }
      if at < |ordered| {
        StrLeTotal(ordered[at].path, matches[n].path);
        forall i | at < i < |ordered| ensures StartsLe(matches[n], ordered[i]) {
          StartsLeTransitive(matches[n], ordered[at], ordered[i]);
        }
      }
      assert matches[..n + 1] == matches[..n] + [matches[n]];
      assert ordered == ordered[..at] + ordered[at..];
      ordered := ordered[..at] + [matches[n]] + ordered[at..];
    }
    assert matches[..|matches|] == matches;
  }

  /** A chain has strictly growing starts, so sorting any arrangement of it restores it. */
  lemma {:induction false} ChainIsSorted(members: seq<Rollout>, ordered: seq<Rollout>)
    requires multiset(members) == multiset(ordered) && SortedByStart(ordered) && StartsGrow(members)
    ensures members == ordered
  {
    assert |members| == |multiset(members)| == |ordered|;
    if members != [] {
      HeadsAgree(members, ordered);
      TailsAgree(members, ordered);
      ChainIsSorted(members[1..], ordered[1..]);
      assert members == [members[0]] + members[1..] && ordered == [ordered[0]] + ordered[1..];
    }
  }

  ghost predicate StartsGrow(members: seq<Rollout>) {
    forall i, k :: 0 <= i < k < |members| ==> StartsBefore(members[i], members[k])
  }

  lemma HeadsAgree(members: seq<Rollout>, ordered: seq<Rollout>)
    requires members != [] && ordered != [] && multiset(members) == multiset(ordered)
    requires SortedByStart(ordered) && StartsGrow(members)
    ensures members[0] == ordered[0]
  {
    assert members[0] in multiset(ordered) && ordered[0] in multiset(members);
    var i :| 0 <= i < |ordered| && ordered[i] == members[0];
    var k :| 0 <= k < |members| && members[k] == ordered[0];
    if i > 0 {
      assert StartsLe(members[k], members[0]);
      assert !StartsBefore(members[0], members[k]);
    }
  }

  lemma TailsAgree(a: seq<Rollout>, b: seq<Rollout>)
    requires a != [] && b != [] && a[0] == b[0] && multiset(a) == multiset(b)
    ensures multiset(a[1..]) == multiset(b[1..])
  {
    assert a == [a[0]] + a[1..] && b == [b[0]] + b[1..];
    assert multiset(a[1..]) == multiset(a) - multiset{a[0]};
  }

  predicate StartsBefore(a: Rollout, b: Rollout) {
    a.first.Some? && b.first.Some? && a.first.value < b.first.value
  }

  lemma {:induction false} ChainStartsGrow(members: seq<Rollout>, i: nat, k: nat)
    requires Chainable(members) && i < k < |members|
    ensures StartsBefore(members[i], members[k])
    decreases k
  {
    assert Follows(members[k - 1], members[k]);
    if i < k - 1 { ChainStartsGrow(members, i, k - 1); }
  }

  lemma ChainGrows(members: seq<Rollout>)
    requires Chainable(members)
    ensures StartsGrow(members)
  {
    forall i, k | 0 <= i < k < |members| ensures StartsBefore(members[i], members[k]) { ChainStartsGrow(members, i, k); }
  }

  // ---------------------------------------------------------------- resolving

  method DuplicateContent(ordered: seq<Rollout>) returns (found: bool)
    ensures !found <==> forall i, k :: 0 <= i < k < |ordered| ==> ordered[i].content != ordered[k].content
  {
    for i := 0 to |ordered|
      invariant forall m, k :: 0 <= m < i && m < k < |ordered| ==> ordered[m].content != ordered[k].content
    {
      for k := i + 1 to |ordered|
        invariant forall m :: i < m < k ==> ordered[i].content != ordered[m].content
      {
        if ordered[i].content == ordered[k].content { return true; }
      }
    }
    return false;
  }

  method IdentityMismatch(ordered: seq<Rollout>) returns (found: bool)
    requires ordered != []
    ensures !found <==> forall i :: 0 < i < |ordered| ==> ordered[i - 1].identity == ordered[i].identity
  {
    for i := 1 to |ordered|
      invariant forall k :: 0 <= k < i ==> ordered[k].identity == ordered[0].identity
    {
      if ordered[i].identity != ordered[0].identity {
        assert ordered[i - 1].identity != ordered[i].identity;
        return true;
      }
    }
    return false;
  }

  method OverlappingRanges(ordered: seq<Rollout>) returns (found: bool)
    requires ordered != [] && forall i :: 0 <= i < |ordered| ==> ordered[i].first.Some?
    ensures !found <==> (forall i :: 0 <= i < |ordered| ==> Ranged(ordered[i]))
                        && forall i :: 0 < i < |ordered| ==> ordered[i - 1].last.value < ordered[i].first.value
  {
    for i := 0 to |ordered|
      invariant forall k :: 0 <= k < i ==> Ranged(ordered[k])
    {
      if ordered[i].last.None? || ordered[i].last.value < ordered[i].first.value { return true; }
    }
    for i := 1 to |ordered|
      invariant forall k :: 0 < k < i <= |ordered| ==> ordered[k - 1].last.value < ordered[k].first.value
    {
      if ordered[i].first.value <= ordered[i - 1].last.value { return true; }
    }
    return false;
  }

  /** Fails unless every file has a last known total and every boundary continues or restarts. */
  method CounterBoundaries(ordered: seq<Rollout>) returns (r: Result<seq<bool>>)
    requires ordered != []
    ensures r.Ok? <==> (forall i :: 0 <= i < |ordered| ==> Anchored(ordered[i]))
                       && forall i :: 0 < i < |ordered| ==> CounterBoundary(ordered[i - 1].content.value, ordered[i].content.value).Some?
    ensures r.Ok? ==> |r.value| == |ordered| && !r.value[0]
    ensures r.Ok? ==> forall i :: 0 < i < |ordered| ==>
              CounterBoundary(ordered[i - 1].content.value, ordered[i].content.value) == Some(r.value[i])
  {
    for i := 0 to |ordered|
      invariant forall k :: 0 <= k < i ==> Anchored(ordered[k])
    {
      if !Anchored(ordered[i]) { return Fail; }
    }
    var flags := [false];
    for i := 1 to |ordered|
      invariant |flags| == i && !flags[0]
      invariant forall k :: 0 < k < i ==>
                  CounterBoundary(ordered[k - 1].content.value, ordered[k].content.value) == Some(flags[k])
    {
      var continuation := CounterBoundary(ordered[i - 1].content.value, ordered[i].content.value);
      if continuation.None? { return Fail; }
      flags := flags + [continuation.value];
    }
    return Ok(flags);
  }

  /** Finds the chain exactly when the candidates, in some order, form one; the order they come in
      does not matter. */
  method ResolveChain(matches: seq<Rollout>) returns (r: Result<Chain>)
    ensures r.Ok? <==> exists members :: multiset(members) == multiset(matches) && Chainable(members)
    ensures r.Ok? ==> Flagged(r.value)
    ensures r.Ok? ==> forall members :: multiset(members) == multiset(matches) && Chainable(members) ==> members == r.value.members
  {
    var ordered := SortByStart(matches);
    OnlyArrangement(matches, ordered);
    if |matches| == 0 { return Fail; }
    assert |ordered| == |multiset(ordered)| == |matches|;
    ChainableIff(ordered);
    for i := 0 to |ordered|
      invariant forall k :: 0 <= k < i ==> ordered[k].first.Some?
    {
      if ordered[i].first.None? { return Fail; }
    }
    var duplicate := DuplicateContent(ordered);
    if duplicate { return Fail; }
    var mismatch := IdentityMismatch(ordered);
    if mismatch { return Fail; }
    var overlap := OverlappingRanges(ordered);
    if overlap { return Fail; }
    var flags := CounterBoundaries(ordered);
    if flags.Fail? { return Fail; }
    return Ok(Chain(ordered, flags.value));
  }

  lemma OnlyArrangement(matches: seq<Rollout>, ordered: seq<Rollout>)
    requires SortedByStart(ordered) && multiset(ordered) == multiset(matches)
    ensures forall members :: multiset(members) == multiset(matches) && Chainable(members) ==> members == ordered
  {
    forall members | multiset(members) == multiset(matches) && Chainable(members) ensures members == ordered {
      ChainGrows(members);
      ChainIsSorted(members, ordered);
    }
  }

  /** The checks of the code, one after the other, are the definition of a chain. */
  lemma ChainableIff(members: seq<Rollout>)
    requires members != []
    ensures Chainable(members) <==>
            && (forall i :: 0 <= i < |members| ==> members[i].first.Some?)
            && (forall i, k :: 0 <= i < k < |members| ==> members[i].content != members[k].content)
            && (forall i :: 0 < i < |members| ==> members[i - 1].identity == members[i].identity)
            && (forall i :: 0 <= i < |members| ==> Ranged(members[i]))
            && (forall i :: 0 < i < |members| ==> members[i - 1].last.value < members[i].first.value)
            && (forall i :: 0 <= i < |members| ==> Anchored(members[i]))
            && (forall i :: 0 < i < |members| ==> CounterBoundary(members[i - 1].content.value, members[i].content.value).Some?)
  {
    if Chainable(members) {
      forall i | 0 <= i < |members| ensures Ranged(members[i]) && Anchored(members[i]) {
        assert i > 0 ==> Follows(members[i - 1], members[i]);
      }
      forall i | 0 < i < |members| ensures Follows(members[i - 1], members[i]) {}
    }
  }
}
