/** Finding the forbidden comments of a shell script: here-document bodies are not code, unless
    the document is never terminated. */
module ShellScan {
  import opened ShellLexer

  datatype ShellLine = ShellLine(text: string, number: nat, offset: nat)

  datatype Finding = Finding(line: nat, column: nat, start: nat, end: nat)

  predicate Allowed(line: ShellLine) {
    line.number == 1 && (line.text == "#!/bin/sh" || line.text == "#!/usr/bin/env bash")
  }

  predicate Forbidden(line: ShellLine) {
    FirstComment(line.text) >= 0 && !Allowed(line)
  }

  function FindingOf(line: ShellLine): Finding
    requires FirstComment(line.text) >= 0
  {
    var at := FirstComment(line.text);
    Finding(line.number, at + 1, line.offset + at, line.offset + |line.text|)
  }

  function Code(text: string): string {
    if FirstComment(text) >= 0 then text[..FirstComment(text)] else text
  }

  function Found(line: ShellLine): seq<Finding> {
    if Forbidden(line) then [FindingOf(line)] else []
  }

  function TrimTabs(text: string): string {
    if text != [] && text[0] == '\t' then TrimTabs(text[1..]) else text
  }

  predicate Terminates(spec: Heredoc, text: string) {
    text == spec.word || (spec.stripTabs && TrimTabs(text) == spec.word)
  }

  /** The findings from the remaining lines on, with the given documents still open; `body` starts
      where the innermost open document's body does and is scanned again if the lines run out. */
  function Scan(rest: seq<ShellLine>, pending: seq<Heredoc>, body: seq<ShellLine>): seq<Finding>
    requires pending != [] ==> |rest| <= |body|
    decreases if pending == [] then 2 * |rest| else 2 * |body| + 1, |rest|
  {
    if rest == [] then
      if pending != [] then Scan(body, [], body) else []
    else if pending != [] then
      if Terminates(pending[0], rest[0].text) then Scan(rest[1..], pending[1..], rest[1..])
      else Scan(rest[1..], pending, body)
    else Found(rest[0]) + Scan(rest[1..], Delimiters(Code(rest[0].text)), rest[1..])
  }

  method ScanShellCodeLine(line: ShellLine) returns (findings: seq<Finding>, delimiters: seq<Heredoc>)
    ensures findings == Found(line) && delimiters == Delimiters(Code(line.text))
  {
    var commentAt := CommentOffset(line.text);
    var code := line.text;
    findings := [];
    if commentAt >= 0 {
      if !Allowed(line) {
        findings := [Finding(line.number, commentAt + 1, line.offset + commentAt, line.offset + |line.text|)];
      }
      code := line.text[..commentAt];
    }
    delimiters := HeredocDelimiters(code);
  }

  ghost function Left(lines: seq<ShellLine>, index: nat, pending: seq<Heredoc>, bodyStart: nat): seq<Finding>
    requires bodyStart <= index <= |lines|
  {
    Scan(lines[index..], pending, lines[bodyStart..])
  }

  method ScanShellLines(lines: seq<ShellLine>) returns (findings: seq<Finding>)
    ensures findings == Scan(lines, [], lines)
    decreases |lines|, 1
  {
    var pending, bodyStart;
    findings, pending, bodyStart := ScanPass(lines);
    RanOut(lines, pending, bodyStart);
    if pending != [] && bodyStart < |lines| {
      var more := ScanShellLines(lines[bodyStart..]);
      findings := findings + more;
    }
  }

  /** The loop over the lines; documents may be left open. */
  method ScanPass(lines: seq<ShellLine>) returns (findings: seq<Finding>, pending: seq<Heredoc>, bodyStart: nat)
    ensures bodyStart <= |lines| && (pending != [] ==> 0 < bodyStart)
    ensures findings + Left(lines, |lines|, pending, bodyStart) == Scan(lines, [], lines)
  {
    findings, pending, bodyStart := [], [], 0;
    assert lines[0..] == lines;
    ghost var total := Scan(lines, [], lines);
    for index := 0 to |lines|
      invariant bodyStart <= index && (pending != [] ==> 0 < bodyStart)
      invariant findings + Left(lines, index, pending, bodyStart) == total
    {
      ghost var before := findings;
      var found: seq<Finding>;
      found, pending, bodyStart := ScanNext(lines, index, pending, bodyStart);
      Reassociate(before, found, Left(lines, index + 1, pending, bodyStart));
      findings := findings + found;
    }
  }

  method ScanNext(lines: seq<ShellLine>, index: nat, open: seq<Heredoc>, start: nat)
    returns (found: seq<Finding>, pending: seq<Heredoc>, bodyStart: nat)
    requires start <= index < |lines| && (open != [] ==> 0 < start)
    ensures bodyStart <= index + 1 && (pending != [] ==> 0 < bodyStart)
    ensures Left(lines, index, open, start) == found + Left(lines, index + 1, pending, bodyStart)
  {
    found, pending, bodyStart := [], open, start;
    if pending != [] {
      if Terminates(pending[0], lines[index].text) {
        Closed(lines, index, open, start);
        pending := pending[1..];
        bodyStart := index + 1;
      } else {
        StillOpen(lines, index, open, start);
      }
      return;
    }
    found, pending := ScanShellCodeLine(lines[index]);
    CodeScanned(lines, index, start, found, pending);
    if pending != [] { bodyStart := index + 1; }
  }

  lemma Closed(lines: seq<ShellLine>, index: nat, pending: seq<Heredoc>, bodyStart: nat)
    requires bodyStart <= index < |lines| && pending != [] && Terminates(pending[0], lines[index].text)
    ensures Left(lines, index, pending, bodyStart) == Left(lines, index + 1, pending[1..], index + 1)
  {
    assert lines[index..][0] == lines[index] && lines[index..][1..] == lines[index + 1..];
  }

  lemma StillOpen(lines: seq<ShellLine>, index: nat, pending: seq<Heredoc>, bodyStart: nat)
    requires bodyStart <= index < |lines| && pending != [] && !Terminates(pending[0], lines[index].text)
    ensures Left(lines, index, pending, bodyStart) == Left(lines, index + 1, pending, bodyStart)
  {
    assert lines[index..][0] == lines[index] && lines[index..][1..] == lines[index + 1..];
  }

  lemma CodeScanned(lines: seq<ShellLine>, index: nat, bodyStart: nat, found: seq<Finding>, delimiters: seq<Heredoc>)
    requires bodyStart <= index < |lines| && found == Found(lines[index]) && delimiters == Delimiters(Code(lines[index].text))
    ensures Left(lines, index, [], bodyStart) ==
            found + Left(lines, index + 1, delimiters, if delimiters != [] then index + 1 else bodyStart)
  {
    assert lines[index..][0] == lines[index] && lines[index..][1..] == lines[index + 1..];
    BodyUnused(lines[index + 1..], lines[bodyStart..], lines[index + 1..]);
  }

  lemma RanOut(lines: seq<ShellLine>, pending: seq<Heredoc>, bodyStart: nat)
    requires bodyStart <= |lines|
    ensures Left(lines, |lines|, pending, bodyStart) ==
            if pending != [] then Scan(lines[bodyStart..], [], lines[bodyStart..]) else []
  {
  }

  lemma BodyUnused(rest: seq<ShellLine>, body: seq<ShellLine>, body': seq<ShellLine>)
    ensures Scan(rest, [], body) == Scan(rest, [], body')
  {
  }

  // ---------------------------------------------------------------- order of the findings

  ghost predicate InOrder(lines: seq<ShellLine>) {
    forall i, k :: 0 <= i < k < |lines| ==>
      lines[i].number < lines[k].number && lines[i].offset + |lines[i].text| < lines[k].offset
  }

  /** At most one finding a line, and each ends before the next one starts. */
  ghost predicate Separate(findings: seq<Finding>) {
    forall i, k :: 0 <= i < k < |findings| ==> findings[i].line < findings[k].line && findings[i].end < findings[k].start
  }

  ghost predicate FoundIn(f: Finding, lines: seq<ShellLine>) {
    exists i :: 0 <= i < |lines| && Forbidden(lines[i]) && f == FindingOf(lines[i])
  }

  ghost predicate AllFoundIn(findings: seq<Finding>, lines: seq<ShellLine>) {
    forall n :: 0 <= n < |findings| ==> FoundIn(findings[n], lines)
  }

  lemma LaterThanHead(lines: seq<ShellLine>, f: Finding)
    requires lines != [] && InOrder(lines) && FoundIn(f, lines[1..])
    ensures lines[0].number < f.line && lines[0].offset + |lines[0].text| < f.start
  {
    var i :| 0 <= i < |lines[1..]| && Forbidden(lines[1..][i]) && f == FindingOf(lines[1..][i]);
    assert lines[i + 1] == lines[1..][i];
  }

  lemma HeadFound(line: ShellLine, lines: seq<ShellLine>, findings: seq<Finding>)
    requires lines != [] && line == lines[0] && InOrder(lines) && AllFoundIn(findings, lines[1..]) && Separate(findings)
    ensures Separate(Found(line) + findings) && AllFoundIn(Found(line) + findings, lines)
  {
    FoundInSuffix(findings, lines, 1);
    if Forbidden(line) {
      forall n | 0 <= n < |findings| ensures line.number < findings[n].line && FindingOf(line).end < findings[n].start {
        assert FoundIn(findings[n], lines[1..]);
        LaterThanHead(lines, findings[n]);
      }
      assert FoundIn(FindingOf(line), lines);
    } else {
      assert Found(line) + findings == findings;
    }
  }

  ghost predicate Orderly(findings: seq<Finding>, lines: seq<ShellLine>) {
    Separate(findings) && AllFoundIn(findings, lines)
  }

  /** Findings come one per line and in order, also when open documents make lines scanned twice. */
  lemma {:induction false} FindingsInOrder(rest: seq<ShellLine>, pending: seq<Heredoc>, body: seq<ShellLine>)
    requires InOrder(body) && |rest| <= |body| && rest == body[|body| - |rest|..]
    ensures Orderly(Scan(rest, pending, body), if pending == [] then rest else body)
    decreases if pending == [] then 2 * |rest| else 2 * |body| + 1, |rest|
  {
    if rest == [] {
      if pending != [] { FindingsInOrder(body, [], body); }
    } else {
      var tail, from := rest[1..], |body| - |rest| + 1;
      assert tail == body[from..] && InOrder(tail) && tail[|tail| - |tail|..] == tail;
      if pending == [] {
        var delimiters := Delimiters(Code(rest[0].text));
        FindingsInOrder(tail, delimiters, tail);
        CodeInOrder(rest, Scan(tail, delimiters, tail), body, from - 1);
      } else if Terminates(pending[0], rest[0].text) {
        FindingsInOrder(tail, pending[1..], tail);
        FoundInSuffix(Scan(tail, pending[1..], tail), body, from);
      } else {
        FindingsInOrder(tail, pending, body);
      }
    }
  }

  lemma CodeInOrder(rest: seq<ShellLine>, findings: seq<Finding>, body: seq<ShellLine>, from: nat)
    requires from < |body| && rest == body[from..] && InOrder(body) && Orderly(findings, rest[1..])
    ensures Orderly(Found(rest[0]) + findings, rest)
  {
    HeadFound(rest[0], rest, findings);
  }

  lemma FoundInSuffix(findings: seq<Finding>, lines: seq<ShellLine>, from: nat)
    requires from <= |lines| && AllFoundIn(findings, lines[from..])
    ensures AllFoundIn(findings, lines)
  {
    forall n | 0 <= n < |findings| ensures FoundIn(findings[n], lines) {
      assert FoundIn(findings[n], lines[from..]);
      var i :| 0 <= i < |lines[from..]| && Forbidden(lines[from..][i]) && findings[n] == FindingOf(lines[from..][i]);
      assert lines[from + i] == lines[from..][i];
    }
  }
}
