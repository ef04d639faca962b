/** Scanning a resolved chain into token anchors, and what that guarantees for usage. */
module RolloutScan {
  import opened Results
  import opened TokenSegments
  import opened RolloutChain

  // ---------------------------------------------------------------- what is scanned

  predicate Observed(line: Line) {
    line.signal.Some? && line.signal.value.usage.Some?
  }

  function Size(lines: seq<Line>): nat {
    if lines == [] then 0 else Size(lines[..|lines| - 1]) + lines[|lines| - 1].size
  }

  function AnchorOf(line: Line, offset: nat, file: nat): Anchor
    requires Observed(line)
  {
    Anchor(line.at, offset, file, line.signal.value.usage.value)
  }

  /** The anchors of one file whose first byte is at the given offset of the chain. */
  function FileAnchors(lines: seq<Line>, file: nat, offset: nat): seq<Anchor> {
    if lines == [] then []
    else
      var before, line := lines[..|lines| - 1], lines[|lines| - 1];
      FileAnchors(before, file, offset) + if Observed(line) then [AnchorOf(line, offset + Size(before), file)] else []
  }

  /** A file is made of non-empty lines. */
  predicate Readable(r: Rollout) {
    r.content.Some? && forall i :: 0 <= i < |r.content.value| ==> 0 < r.content.value[i].size
  }

  function Lines(r: Rollout): seq<Line> {
    if r.content.Some? then r.content.value else []
  }

  function TotalSize(members: seq<Rollout>): nat {
    if members == [] then 0 else TotalSize(members[..|members| - 1]) + Size(Lines(members[|members| - 1]))
  }

  function ChainAnchors(members: seq<Rollout>): seq<Anchor> {
    if members == [] then []
    else
      var before, last := members[..|members| - 1], members[|members| - 1];
      ChainAnchors(before) + FileAnchors(Lines(last), |before|, TotalSize(before))
  }

  // ---------------------------------------------------------------- the scanner

  class Scanner {
    var tokens: seq<Anchor>
    var continuations: seq<bool>
    var fileCount: nat
    var totalBytes: nat

    constructor ()
      ensures tokens == [] && continuations == [] && fileCount == 0 && totalBytes == 0
    {
      tokens, continuations, fileCount, totalBytes := [], [], 0, 0;
    }

    method ScanFile(lines: seq<Line>, continuation: bool)
      modifies this
      ensures fileCount == old(fileCount) + 1 && continuations == old(continuations) + [continuation]
      ensures totalBytes == old(totalBytes) + Size(lines)
      ensures tokens == old(tokens) + FileAnchors(lines, old(fileCount), old(totalBytes))
    {
      var fileIndex := fileCount;
      fileCount := fileCount + 1;
      continuations := continuations + [continuation];
      for i := 0 to |lines|
        invariant fileCount == old(fileCount) + 1 && continuations == old(continuations) + [continuation]
        invariant totalBytes == old(totalBytes) + Size(lines[..i])
        invariant tokens == old(tokens) + FileAnchors(lines[..i], fileIndex, old(totalBytes))
      {
        assert lines[..i + 1][..i] == lines[..i];
        if Observed(lines[i]) {
          tokens := tokens + [AnchorOf(lines[i], totalBytes, fileIndex)];
        }
        totalBytes := totalBytes + lines[i].size;
      }
      assert lines[..|lines|] == lines;
    }
  }

  method ScanChain(chain: Chain) returns (scan: Scan)
    requires |chain.continuations| == |chain.members| && forall i :: 0 <= i < |chain.members| ==> Readable(chain.members[i])
    ensures scan == Scan(ChainAnchors(chain.members), chain.continuations)
  {
    var scanner := new Scanner();
    for i := 0 to |chain.members|
      invariant scanner.fileCount == i && scanner.continuations == chain.continuations[..i]
      invariant scanner.totalBytes == TotalSize(chain.members[..i])
      invariant scanner.tokens == ChainAnchors(chain.members[..i])
    {
      assert chain.members[..i + 1][..i] == chain.members[..i];
      scanner.ScanFile(chain.members[i].content.value, chain.continuations[i]);
    }
    assert chain.members[..|chain.members|] == chain.members;
    scan := Scan(scanner.tokens, scanner.continuations);
  }

  // ---------------------------------------------------------------- order

  ghost predicate Increasing(tokens: seq<Anchor>) {
    forall i, k :: 0 <= i < k < |tokens| ==> tokens[i].offset < tokens[k].offset && tokens[i].file <= tokens[k].file
  }

  lemma {:induction false} FileAnchorsIncrease(lines: seq<Line>, file: nat, offset: nat)
    requires forall i :: 0 <= i < |lines| ==> 0 < lines[i].size
    ensures Increasing(FileAnchors(lines, file, offset))
    ensures forall a :: a in FileAnchors(lines, file, offset) ==> a.file == file && offset <= a.offset < offset + Size(lines)
  {
    if lines != [] { FileAnchorsIncrease(lines[..|lines| - 1], file, offset); }
  }

  lemma {:induction false} ChainAnchorsIncrease(members: seq<Rollout>)
    requires forall i :: 0 <= i < |members| ==> Readable(members[i])
    ensures Increasing(ChainAnchors(members))
    ensures forall a :: a in ChainAnchors(members) ==> a.file < |members| && a.offset < TotalSize(members)
  {
    if members != [] {
      var before, last := members[..|members| - 1], members[|members| - 1];
      ChainAnchorsIncrease(before);
      FileAnchorsIncrease(Lines(last), |before|, TotalSize(before));
    }
  }

  // ---------------------------------------------------------------- boundaries

  /** The last signal is the last anchor when it reports a total. */
  lemma {:induction false} LastAnchor(lines: seq<Line>, file: nat, offset: nat)
    requires LastSignal(lines).Some? && LastSignal(lines).value.usage.Some?
    ensures FileAnchors(lines, file, offset) != []
    ensures FileAnchors(lines, file, offset)[|FileAnchors(lines, file, offset)| - 1].counters == LastSignal(lines).value.usage.value
  {
    if lines[|lines| - 1].signal.None? { LastAnchor(lines[..|lines| - 1], file, offset); }
  }

  /** The first signal is the first anchor when it reports counters. */
  lemma {:induction false} FirstAnchor(lines: seq<Line>, file: nat, offset: nat)
    requires FirstSignal(lines).Some? && FirstSignal(lines).value.usage.Some?
    ensures FileAnchors(lines, file, offset) != [] && FileAnchors(lines, file, offset)[0].counters == FirstSignal(lines).value.usage.value
  {
    var before, line := lines[..|lines| - 1], lines[|lines| - 1];
    if FirstSignal(before).Some? {
      FirstSignalExtends(before, line);
      assert lines == before + [line];
      FirstAnchor(before, file, offset);
    } else {
      FirstSignalExtends(before, line);
      assert lines == before + [line];
      NoSignalNoAnchor(before, file, offset);
    }
  }

  lemma {:induction false} FirstSignalExtends(lines: seq<Line>, line: Line)
    ensures FirstSignal(lines + [line]) == if FirstSignal(lines).Some? then FirstSignal(lines) else line.signal
  {
    if lines == [] {
      assert [line][1..] == [] && lines + [line] == [line];
    } else {
      FirstSignalExtends(lines[1..], line);
      assert (lines + [line])[1..] == lines[1..] + [line];
    }
  }

  lemma {:induction false} NoSignalNoAnchor(lines: seq<Line>, file: nat, offset: nat)
    requires FirstSignal(lines).None?
    ensures FileAnchors(lines, file, offset) == []
  {
    if lines != [] {
      var before, line := lines[..|lines| - 1], lines[|lines| - 1];
      assert lines == before + [line];
      FirstSignalExtends(before, line);
      NoSignalNoAnchor(before, file, offset);
    }
  }

  ghost predicate Scannable(chain: Chain) {
    Flagged(chain) && forall i :: 0 <= i < |chain.members| ==> Readable(chain.members[i])
  }

  /** Every scan of a resolved chain is ordered, and its continued files start exactly where the
      previous ones ended. */
  lemma ResolvedScanIsExact(chain: Chain)
    requires Scannable(chain)
    ensures Ordered(Scan(ChainAnchors(chain.members), chain.continuations))
    ensures ExactContinuations(Scan(ChainAnchors(chain.members), chain.continuations))
  {
    ChainAnchorsIncrease(chain.members);
    assert chain.members[..|chain.members|] == chain.members;
    forall n | 1 < n <= |chain.members| && chain.continuations[n - 1] ensures JoinsExactly(chain, n) {
      BoundaryIsExact(chain, n);
    }
    PrefixIsExact(chain, |chain.members|);
  }

  /** The n-th file starts with the counters the files before it end with. */
  ghost predicate JoinsExactly(chain: Chain, n: nat)
    requires 0 < n <= |chain.members|
  {
    var before, added := ChainAnchors(chain.members[..n - 1]), AnchorsOf(chain, n - 1);
    before != [] && added != [] && before[|before| - 1].counters == added[0].counters && AllKnown(added[0].counters)
  }

  lemma {:induction false} PrefixIsExact(chain: Chain, n: nat)
    requires |chain.continuations| == |chain.members| && n <= |chain.members|
    requires forall i :: 0 <= i < |chain.members| ==> Readable(chain.members[i])
    requires forall i :: 1 < i <= |chain.members| && chain.continuations[i - 1] ==> JoinsExactly(chain, i)
    ensures ExactContinuations(Scan(ChainAnchors(chain.members[..n]), chain.continuations))
  {
    if n > 0 {
      PrefixIsExact(chain, n - 1);
      NextIsExact(chain, n, ChainAnchors(chain.members[..n - 1]), AnchorsOf(chain, n - 1));
    }
  }

  lemma NextIsExact(chain: Chain, n: nat, before: seq<Anchor>, added: seq<Anchor>)
    requires |chain.continuations| == |chain.members| && 0 < n <= |chain.members|
    requires forall i :: 0 <= i < |chain.members| ==> Readable(chain.members[i])
    requires n > 1 && chain.continuations[n - 1] ==> JoinsExactly(chain, n)
    requires before == ChainAnchors(chain.members[..n - 1]) && added == AnchorsOf(chain, n - 1)
    requires ExactContinuations(Scan(before, chain.continuations))
    ensures ExactContinuations(Scan(ChainAnchors(chain.members[..n]), chain.continuations))
  {
    FilesOfPrefix(chain, n);
    ExactAppend(before, added, chain.continuations, n - 1);
    PrefixStep(chain, n);
  }

  lemma FilesOfPrefix(chain: Chain, n: nat)
    requires 0 < n <= |chain.members| && forall i :: 0 <= i < |chain.members| ==> Readable(chain.members[i])
    ensures forall a :: a in ChainAnchors(chain.members[..n - 1]) ==> a.file < n - 1
    ensures forall a :: a in AnchorsOf(chain, n - 1) ==> a.file == n - 1
  {
    ChainAnchorsIncrease(chain.members[..n - 1]);
    FileAnchorsIncrease(Lines(chain.members[n - 1]), n - 1, TotalSize(chain.members[..n - 1]));
  }

  ghost function AnchorsOf(chain: Chain, n: nat): seq<Anchor>
    requires n < |chain.members|
  {
    FileAnchors(Lines(chain.members[n]), n, TotalSize(chain.members[..n]))
  }

  lemma PrefixStep(chain: Chain, n: nat)
    requires 0 < n <= |chain.members|
    ensures ChainAnchors(chain.members[..n]) == ChainAnchors(chain.members[..n - 1]) + AnchorsOf(chain, n - 1)
  {
    assert chain.members[..n][..n - 1] == chain.members[..n - 1];
  }

  /** Appending the anchors of one more file keeps continuations exact if its own start is. */
  lemma ExactAppend(before: seq<Anchor>, added: seq<Anchor>, continuations: seq<bool>, file: nat)
    requires ExactContinuations(Scan(before, continuations))
    requires forall a :: a in before ==> a.file < file
    requires forall a :: a in added ==> a.file == file
    requires 0 < file < |continuations| && continuations[file] && before != [] && added != [] ==>
               before[|before| - 1].counters == added[0].counters && AllKnown(added[0].counters)
    ensures ExactContinuations(Scan(before + added, continuations))
  {
    var old_, new_ := Scan(before, continuations), Scan(before + added, continuations);
    forall k | 0 < k < |new_.tokens| && IsFirst(new_, k) && Continued(new_, new_.tokens[k].file)
      ensures new_.tokens[k - 1].counters == new_.tokens[k].counters && AllKnown(new_.tokens[k].counters)
    {
      if k < |before| {
        assert forall i :: 0 <= i <= k ==> new_.tokens[i] == before[i];
        assert IsFirst(old_, k);
      } else {
        assert new_.tokens[k] == added[k - |before|] && new_.tokens[k] in added;
        assert new_.tokens[|before|] == added[0] && added[0] in added;
        assert k == |before|;
      }
    }
  }

  lemma BoundaryIsExact(chain: Chain, n: nat)
    requires Scannable(chain) && 1 < n <= |chain.members| && chain.continuations[n - 1]
    ensures JoinsExactly(chain, n)
  {
    PrefixStep(chain, n - 1);
    assert Follows(chain.members[n - 2], chain.members[n - 1]);
    var previous, current := chain.members[n - 2].content.value, chain.members[n - 1].content.value;
    ContinuedSignals(previous, current);
    LastAnchor(previous, n - 2, TotalSize(chain.members[..n - 2]));
    FirstAnchor(current, n - 1, TotalSize(chain.members[..n - 1]));
    LastOfAppended(ChainAnchors(chain.members[..n - 2]), AnchorsOf(chain, n - 2));
  }

  lemma LastOfAppended(before: seq<Anchor>, added: seq<Anchor>)
    requires added != []
    ensures (before + added)[|before + added| - 1] == added[|added| - 1]
  {
  }

  lemma ContinuedSignals(previous: seq<Line>, current: seq<Line>)
    requires LastSignal(previous).Some? && CounterBoundary(previous, current) == Some(true)
    ensures FirstSignal(current).Some? && FirstSignal(current).value.usage.Some? && LastSignal(previous).value.usage.Some?
    ensures FirstSignal(current).value.usage == LastSignal(previous).value.usage && AllKnown(FirstSignal(current).value.usage.value)
  {
  }

  /** Candidate files that form a chain scan to anchors on which usage is an exact walk. */
  method ResolveAndScan(matches: seq<Rollout>) returns (r: Result<Scan>)
    requires forall i :: 0 <= i < |matches| ==> matches[i].content.Some? ==> Readable(matches[i])
    ensures r.Ok? <==> exists members :: multiset(members) == multiset(matches) && Chainable(members)
    ensures r.Ok? ==> Ordered(r.value) && ExactContinuations(r.value)
  {
    var chain := ResolveChain(matches);
    if chain.Fail? { return Fail; }
    ChainIsReadable(matches, chain.value);
    var scan := ScanChain(chain.value);
    ResolvedScanIsExact(chain.value);
    return Ok(scan);
  }

  lemma ChainIsReadable(matches: seq<Rollout>, chain: Chain)
    requires Flagged(chain) && multiset(chain.members) == multiset(matches)
    requires forall i :: 0 <= i < |matches| ==> matches[i].content.Some? ==> Readable(matches[i])
    ensures Scannable(chain)
  {
    ChainableIff(chain.members);
    forall i | 0 <= i < |chain.members| ensures Readable(chain.members[i]) {
      assert Anchored(chain.members[i]);
      assert chain.members[i] in multiset(matches);
    }
  }
}
