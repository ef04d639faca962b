/** Lexing one line of shell text: quoting, the start of a comment and here-document delimiters
    (IEEE Std 1003.1, Shell Command Language, sections 2.2 and 2.7.4). */
module ShellLexer {

  /** Quoting state between two characters. */
  datatype Quoting = Quoting(escaped: bool, single: bool, double: bool)

  datatype Heredoc = Heredoc(word: string, stripTabs: bool)

  const UNQUOTED := Quoting(false, false, false)

  predicate Quoted(q: Quoting) {
    q.single || q.double
  }

  /** The character changes the quoting, or is escaped. */
  predicate Special(q: Quoting, c: char) {
    q.escaped || (c == '\\' && !q.single) || (c == '\'' && !q.double) || (c == '"' && !q.single)
  }

  function After(q: Quoting, c: char): Quoting {
    if q.escaped then q.(escaped := false)
    else if c == '\\' && !q.single then q.(escaped := true)
    else if c == '\'' && !q.double then q.(single := !q.single)
    else if c == '"' && !q.single then q.(double := !q.double)
    else q
  }

  class LexState {
    var escaped: bool
    var single: bool
    var double: bool

    ghost function State(): Quoting
      reads this
    {
      Quoting(escaped, single, double)
    }

    constructor ()
      ensures State() == UNQUOTED
    {
      escaped, single, double := false, false, false;
    }

    method Consume(value: char) returns (special: bool)
      modifies this
      ensures State() == After(old(State()), value) && special == Special(old(State()), value)
    {
      if escaped {
        escaped := false;
        return true;
      }
      if value == '\\' && !single {
        escaped := true;
        return true;
      }
      if value == '\'' && !double {
        single := !single;
        return true;
      }
      if value == '"' && !single {
        double := !double;
        return true;
      }
      return false;
    }
  }

  // ---------------------------------------------------------------- comments

  function QuotingAt(line: string, i: nat): Quoting
    requires i <= |line|
  {
    if i == 0 then UNQUOTED else After(QuotingAt(line, i - 1), line[i - 1])
  }

  predicate Separates(c: char) {
    c == ' ' || c == '\t' || c == ';' || c == '|' || c == '&' || c == '(' || c == ')' || c == '<' || c == '>'
  }

  /** An unquoted '#' at the start of the line or of a word. */
  predicate CommentAt(line: string, i: nat)
    requires i < |line|
  {
    line[i] == '#' && QuotingAt(line, i) == UNQUOTED && (i == 0 || Separates(line[i - 1]))
  }

  ghost predicate NoComment(line: string) {
    forall i :: 0 <= i < |line| ==> !CommentAt(line, i)
  }

  /** The position is that of the first comment, or -1 where there is none. */
  ghost predicate IsCommentOffset(line: string, at: int) {
    if at == -1 then NoComment(line)
    else 0 <= at < |line| && CommentAt(line, at) && forall i :: 0 <= i < at ==> !CommentAt(line, i)
  }

  function FirstComment(line: string): (at: int)
    ensures -1 <= at < |line|
  {
    CommentFrom(line, 0)
  }

  function CommentFrom(line: string, from: nat): (at: int)
    requires from <= |line|
    ensures at == -1 || from <= at < |line|
    decreases |line| - from
  {
    if from == |line| then -1 else if CommentAt(line, from) then from else CommentFrom(line, from + 1)
  }

  lemma FirstCommentIs(line: string)
    ensures IsCommentOffset(line, FirstComment(line))
  {
    CommentFromIs(line, 0);
  }

  lemma {:induction false} CommentFromIs(line: string, from: nat)
    requires from <= |line| && forall i :: 0 <= i < from ==> !CommentAt(line, i)
    ensures IsCommentOffset(line, CommentFrom(line, from))
    decreases |line| - from
  {
    if from < |line| && !CommentAt(line, from) { CommentFromIs(line, from + 1); }
  }

  method CommentOffset(line: string) returns (at: int)
    ensures at == FirstComment(line)
  {
    var state := new LexState();
    for i := 0 to |line|
      invariant state.State() == QuotingAt(line, i)
      invariant CommentFrom(line, i) == FirstComment(line)
    {
      var special := state.Consume(line[i]);
      if special || state.single || state.double || line[i] != '#' { continue; }
      if i == 0 || Separates(line[i - 1]) { return i; }
    }
    return -1;
  }

  function Spaces(n: nat): (s: string)
    ensures |s| == n && forall i :: 0 <= i < n ==> s[i] == ' '
  {
    seq(n, _ => ' ')
  }

  lemma {:induction false} QuotingOfPrefix(a: string, b: string, i: nat)
    requires i <= |a|
    ensures QuotingAt(a + b, i) == QuotingAt(a, i)
  {
    if i > 0 { QuotingOfPrefix(a, b, i - 1); }
  }

  /** A line whose comment is overwritten with blanks has no comment. */
  lemma BlankedHasNoComment(line: string, at: nat, n: nat)
    requires at <= |line| && forall i :: 0 <= i < at ==> !CommentAt(line, i)
    ensures NoComment(line[..at] + Spaces(n))
  {
    var blanked := line[..at] + Spaces(n);
    assert line == line[..at] + line[at..];
    forall i | 0 <= i < |blanked| ensures !CommentAt(blanked, i) {
      if i < at {
        QuotingOfPrefix(line[..at], Spaces(n), i);
        QuotingOfPrefix(line[..at], line[at..], i);
        assert blanked[i] == line[i] && (i > 0 ==> blanked[i - 1] == line[i - 1]);
        assert QuotingAt(blanked, i) == QuotingAt(line, i);
        assert CommentAt(line, i) == CommentAt(blanked, i);
      } else {
        assert blanked[i] == ' ';
      }
    }
  }

  // ---------------------------------------------------------------- here-document delimiters

  predicate HeredocStart(code: string, index: nat)
    requires index < |code|
  {
    code[index] == '<' && index + 1 < |code| && code[index + 1] == '<'
  }

  predicate TripleRedirect(code: string, index: nat) {
    index + 2 < |code| && code[index + 2] == '<'
  }

  predicate WordByte(value: char, first: bool) {
    'a' <= value <= 'z' || 'A' <= value <= 'Z' || value == '_' || (!first && '0' <= value <= '9')
  }

  function SkipBlanks(code: string, index: nat): (end: nat)
    requires index <= |code|
    ensures index <= end <= |code|
    decreases |code| - index
  {
    if index < |code| && (code[index] == ' ' || code[index] == '\t') then SkipBlanks(code, index + 1) else index
  }

  function WordEnd(code: string, begin: nat, index: nat): (end: nat)
    requires begin <= index <= |code|
    ensures index <= end <= |code|
    decreases |code| - index
  {
    if index < |code| && WordByte(code[index], index == begin) then WordEnd(code, begin, index + 1) else index
  }

  function PrefixEnd(code: string, start: nat): (end: nat)
    requires start <= |code|
    ensures start <= end <= |code|
  {
    SkipBlanks(code, if start < |code| && code[start] == '-' then start + 1 else start)
  }

  predicate OpensQuote(code: string, index: nat) {
    index < |code| && (code[index] == '\'' || code[index] == '"')
  }

  /** The possibly quoted word at a position, and where lexing goes on after it. */
  function WordAt(code: string, index: nat): (r: (string, nat))
    requires index <= |code|
    ensures index <= r.1 <= |code|
  {
    var begin := if OpensQuote(code, index) then index + 1 else index;
    var end := WordEnd(code, begin, begin);
    (code[begin..end], if begin > index && end < |code| && code[end] == code[index] then end + 1 else end)
  }

  predicate StripsTabs(code: string, start: nat) {
    start < |code| && code[start] == '-'
  }

  /** The delimiter after `<<`, and where lexing goes on; an empty word where none can be read. */
  function DelimiterAt(code: string, start: nat): (r: (Heredoc, nat))
    requires start <= |code|
    ensures start <= r.1 <= |code|
  {
    var (word, end) := WordAt(code, PrefixEnd(code, start));
    if word == "" then (Heredoc("", false), start) else (Heredoc(word, StripsTabs(code, start)), end)
  }

  /** The delimiters opened by the character at a position, and where lexing goes on. */
  function DelimiterStep(code: string, index: nat, q: Quoting): (r: (seq<Heredoc>, nat))
    requires index < |code|
    ensures index < r.1 <= |code|
  {
    if Special(q, code[index]) || Quoted(q) || !HeredocStart(code, index) then ([], index + 1)
    else if TripleRedirect(code, index) then ([], index + 3)
    else
      var (delimiter, consumed) := DelimiterAt(code, index + 2);
      (if delimiter.word != "" then [delimiter] else [], consumed)
  }

  function DelimitersFrom(code: string, index: nat, q: Quoting): seq<Heredoc>
    requires index <= |code|
    decreases |code| - index
  {
    if index == |code| then []
    else DelimiterStep(code, index, q).0 + DelimitersFrom(code, DelimiterStep(code, index, q).1, After(q, code[index]))
  }

  function Delimiters(code: string): seq<Heredoc> {
    DelimitersFrom(code, 0, UNQUOTED)
  }

  method HeredocPrefix(code: string, start: nat) returns (index: nat, stripTabs: bool)
    requires start <= |code|
    ensures index == PrefixEnd(code, start) && (stripTabs <==> start < |code| && code[start] == '-')
  {
    index, stripTabs := start, false;
    if index < |code| && code[index] == '-' {
      stripTabs := true;
      index := index + 1;
    }
    while index < |code| && (code[index] == ' ' || code[index] == '\t')
      invariant index <= |code| && SkipBlanks(code, index) == PrefixEnd(code, start)
    {
      index := index + 1;
    }
  }

  method HeredocDelimiter(code: string, start: nat) returns (delimiter: Heredoc, consumed: nat)
    requires start <= |code|
    ensures (delimiter, consumed) == DelimiterAt(code, start)
  {
    var opening, stripTabs := HeredocPrefix(code, start);
    var index := opening;
    if OpensQuote(code, opening) { index := index + 1; }
    var begin := index;
    while index < |code| && WordByte(code[index], index == begin)
      invariant begin <= index <= |code| && WordEnd(code, begin, index) == WordEnd(code, begin, begin)
    {
      index := index + 1;
    }
    if index == begin { return Heredoc("", false), start; }
    var end := index;
    if begin > opening && index < |code| && code[index] == code[opening] { index := index + 1; }
    return Heredoc(code[begin..end], stripTabs), index;
  }

  method HeredocDelimiters(code: string) returns (delimiters: seq<Heredoc>)
    ensures delimiters == Delimiters(code)
  {
    delimiters := [];
    var state := new LexState();
    var index: nat := 0;
    while index < |code|
      invariant index <= |code| && delimiters + DelimitersFrom(code, index, state.State()) == Delimiters(code)
    {
      ghost var at, q := index, state.State();
      var special := state.Consume(code[index]);
      var found: seq<Heredoc> := [];
      if special || state.single || state.double || !HeredocStart(code, index) {
        index := index + 1;
      } else if TripleRedirect(code, index) {
        index := index + 3;
      } else {
        var delimiter, consumed := HeredocDelimiter(code, index + 2);
        if delimiter.word != "" { found := [delimiter]; }
        index := consumed;
      }
      StepTaken(code, at, q, found, index, special || state.single || state.double);
      Reassociate(delimiters, found, DelimitersFrom(code, index, state.State()));
      delimiters := delimiters + found;
    }
  }

  lemma StepTaken(code: string, at: nat, q: Quoting, found: seq<Heredoc>, index: nat, skipped: bool)
    requires at < |code| && index <= |code| && (skipped <==> Special(q, code[at]) || Quoted(After(q, code[at])))
    requires (found, index) ==
             if skipped || !HeredocStart(code, at) then ([], at + 1)
             else if TripleRedirect(code, at) then ([], at + 3)
             else (if DelimiterAt(code, at + 2).0.word != "" then [DelimiterAt(code, at + 2).0] else [], DelimiterAt(code, at + 2).1)
    ensures DelimitersFrom(code, at, q) == found + DelimitersFrom(code, index, After(q, code[at]))
  {
    UnquotedStays(q, code[at]);
    assert DelimiterStep(code, at, q) == (found, index);
  }

  lemma Reassociate<T>(a: seq<T>, b: seq<T>, c: seq<T>)
    ensures a + (b + c) == (a + b) + c
  {
  }

  /** An ordinary character leaves the quoting alone. */
  lemma UnquotedStays(q: Quoting, c: char)
    ensures !Special(q, c) ==> After(q, c) == q
  {
  }

  // ---------------------------------------------------------------- blanks at the end change nothing

  predicate Blank(s: string) {
    forall i :: 0 <= i < |s| ==> s[i] == ' ' || s[i] == '\t'
  }

  lemma {:induction false} BlankHasNoDelimiters(a: string, b: string, index: nat, q: Quoting)
    requires Blank(b) && |a| <= index <= |a + b|
    ensures DelimitersFrom(a + b, index, q) == []
    decreases |a + b| - index
  {
    if index < |a + b| {
      assert (a + b)[index] == b[index - |a|];
      assert DelimiterStep(a + b, index, q) == ([], index + 1);
      BlankHasNoDelimiters(a, b, index + 1, After(q, (a + b)[index]));
    }
  }

  lemma {:induction false} SkipBlanksPadded(a: string, b: string, index: nat)
    requires Blank(b) && index <= |a|
    ensures SkipBlanks(a + b, index) == if SkipBlanks(a, index) < |a| then SkipBlanks(a, index) else |a + b|
    decreases |a| - index
  {
    if index < |a| {
      if a[index] == ' ' || a[index] == '\t' { SkipBlanksPadded(a, b, index + 1); }
    } else {
      SkipToEnd(a, b, index);
    }
  }

  lemma {:induction false} SkipToEnd(a: string, b: string, index: nat)
    requires Blank(b) && |a| <= index <= |a + b|
    ensures SkipBlanks(a + b, index) == |a + b|
    decreases |a + b| - index
  {
    if index < |a + b| {
      assert (a + b)[index] == b[index - |a|];
      SkipToEnd(a, b, index + 1);
    }
  }

  lemma {:induction false} WordEndPadded(a: string, b: string, begin: nat, index: nat)
    requires Blank(b) && begin <= index <= |a|
    ensures WordEnd(a + b, begin, index) == WordEnd(a, begin, index)
    decreases |a| - index
  {
    if index < |a| {
      if WordByte(a[index], index == begin) { WordEndPadded(a, b, begin, index + 1); }
    } else if b != [] {
      assert (a + b)[index] == b[0];
    }
  }

  lemma WordPadded(a: string, b: string, index: nat)
    requires Blank(b) && index < |a|
    ensures WordAt(a + b, index) == WordAt(a, index)
  {
    var begin := if OpensQuote(a, index) then index + 1 else index;
    WordEndPadded(a, b, begin, begin);
    var end := WordEnd(a, begin, begin);
    assert (a + b)[begin..end] == a[begin..end];
    assert b != [] ==> (a + b)[|a|] == b[0];
  }

  lemma NoWordAtEnd(code: string)
    ensures WordAt(code, |code|) == ("", |code|)
  {
    assert code[|code|..|code|] == "";
  }

  lemma DelimiterPadded(a: string, b: string, start: nat)
    requires Blank(b) && start <= |a|
    ensures DelimiterAt(a + b, start) == DelimiterAt(a, start)
  {
    assert b != [] ==> (a + b)[|a|] == b[0];
    SkipBlanksPadded(a, b, if StripsTabs(a, start) then start + 1 else start);
    var index := PrefixEnd(a, start);
    if index < |a| {
      WordPadded(a, b, index);
    } else {
      NoWordAtEnd(a);
      NoWordAtEnd(a + b);
    }
  }

  lemma StepPadded(a: string, b: string, index: nat, q: Quoting)
    requires Blank(b) && index < |a|
    ensures DelimiterStep(a + b, index, q) == DelimiterStep(a, index, q)
  {
    assert (a + b)[index] == a[index];
    assert b != [] ==> (a + b)[|a|] == b[0];
    if HeredocStart(a, index) { DelimiterPadded(a, b, index + 2); }
  }

  lemma {:induction false} DelimitersPadded(a: string, b: string, index: nat, q: Quoting)
    requires Blank(b) && index <= |a|
    ensures DelimitersFrom(a + b, index, q) == DelimitersFrom(a, index, q)
    decreases |a| - index
  {
    if index == |a| {
      BlankHasNoDelimiters(a, b, index, q);
    } else {
      assert (a + b)[index] == a[index];
      StepPadded(a, b, index, q);
      DelimitersPadded(a, b, DelimiterStep(a, index, q).1, After(q, a[index]));
    }
  }
}
