/** What the scan does to concrete shell text: quoted parts, comments, here-documents and their ends,
    written out in characters (IEEE Std 1003.1, Shell Command Language, sections 2.2, 2.3 and 2.7.4). */
module ShellText {
  import opened ShellLexer
  import opened ShellScan

  // ---------------------------------------------------------------- characters

  /** Text without quoting, comments or redirections. */
  ghost predicate Plain(s: string) {
    forall c :: c in s ==> c !in "'\"\\<#"
  }

  ghost predicate WordLetter(c: char) {
    'a' <= c <= 'z' || 'A' <= c <= 'Z' || c == '_'
  }

  /** A name as a delimiter word is read: letters, digits and underscores, no digit first. */
  ghost predicate Word(w: string) {
    w != "" && WordLetter(w[0]) && forall i :: 0 <= i < |w| ==> WordLetter(w[i]) || '0' <= w[i] <= '9'
  }

  ghost predicate EndsWord(tail: string) {
    tail == "" || !(WordLetter(tail[0]) || '0' <= tail[0] <= '9')
  }

  ghost predicate Blanks(s: string) {
    forall i :: 0 <= i < |s| ==> s[i] == ' ' || s[i] == '\t'
  }

  function Tabs(n: nat): (s: string)
    ensures |s| == n && forall i :: 0 <= i < n ==> s[i] == '\t'
  {
    seq(n, _ => '\t')
  }

  // ---------------------------------------------------------------- lexing a suffix

  /** From position k on the code reads b. */
  ghost predicate Continues(code: string, k: nat, b: string) {
    k + |b| == |code| && forall i :: 0 <= i < |b| ==> code[k + i] == b[i]
  }

  lemma {:induction false} SkipShifts(code: string, k: nat, b: string, i: nat)
    requires Continues(code, k, b) && i <= |b|
    ensures SkipBlanks(code, k + i) == k + SkipBlanks(b, i)
    decreases |b| - i
  {
    if i < |b| && (b[i] == ' ' || b[i] == '\t') { SkipShifts(code, k, b, i + 1); }
  }

  lemma {:induction false} WordShifts(code: string, k: nat, b: string, begin: nat, i: nat)
    requires Continues(code, k, b) && begin <= i <= |b|
    ensures WordEnd(code, k + begin, k + i) == k + WordEnd(b, begin, i)
    decreases |b| - i
  {
    if i < |b| && WordByte(b[i], i == begin) { WordShifts(code, k, b, begin, i + 1); }
  }

  lemma WordAtShifts(code: string, k: nat, b: string, i: nat)
    requires Continues(code, k, b) && i <= |b|
    ensures WordAt(code, k + i) == (WordAt(b, i).0, k + WordAt(b, i).1)
  {
    var begin := if OpensQuote(b, i) then i + 1 else i;
    WordShifts(code, k, b, begin, begin);
    assert code[k + begin..k + WordEnd(b, begin, begin)] == b[begin..WordEnd(b, begin, begin)];
  }

  lemma DelimiterShifts(code: string, k: nat, b: string, i: nat)
    requires Continues(code, k, b) && i <= |b|
    ensures DelimiterAt(code, k + i) == (DelimiterAt(b, i).0, k + DelimiterAt(b, i).1)
  {
    SkipShifts(code, k, b, if StripsTabs(b, i) then i + 1 else i);
    WordAtShifts(code, k, b, PrefixEnd(b, i));
  }

  lemma StepShifts(code: string, k: nat, b: string, i: nat, q: Quoting)
    requires Continues(code, k, b) && i < |b|
    ensures DelimiterStep(code, k + i, q) == (DelimiterStep(b, i, q).0, k + DelimiterStep(b, i, q).1)
  {
    assert HeredocStart(code, k + i) <==> HeredocStart(b, i);
    assert TripleRedirect(code, k + i) <==> TripleRedirect(b, i);
    if HeredocStart(b, i) { DelimiterShifts(code, k, b, i + 2); }
  }

  /** Delimiters are read from what is ahead only. */
  lemma {:induction false} DelimitersShift(code: string, k: nat, b: string, i: nat, q: Quoting)
    requires Continues(code, k, b) && i <= |b|
    ensures DelimitersFrom(code, k + i, q) == DelimitersFrom(b, i, q)
    decreases |b| - i
  {
    if i < |b| {
      StepShifts(code, k, b, i, q);
      DelimitersShift(code, k, b, DelimiterStep(b, i, q).1, After(q, b[i]));
    }
  }

  lemma DelimitersAfter(a: string, b: string)
    ensures DelimitersFrom(a + b, |a|, UNQUOTED) == Delimiters(b)
  {
    DelimitersShift(a + b, |a|, b, 0, UNQUOTED);
  }

  // ---------------------------------------------------------------- quoting and plain text

  /** The characters from i on are skipped: plain outside quotes, or anything that leaves them inside. */
  lemma SkipsOne(code: string, i: nat, q: Quoting)
    requires i < |code| && (Special(q, code[i]) || Quoted(q) || code[i] != '<')
    ensures DelimitersFrom(code, i, q) == DelimitersFrom(code, i + 1, After(q, code[i]))
  {
    assert DelimiterStep(code, i, q) == ([], i + 1);
  }

  lemma PlainStep(a: string, b: string, i: nat)
    requires Plain(a) && i < |a|
    ensures DelimitersFrom(a + b, i, UNQUOTED) == DelimitersFrom(a + b, i + 1, UNQUOTED)
  {
    assert (a + b)[i] == a[i] && a[i] in a;
    SkipsOne(a + b, i, UNQUOTED);
  }

  /** Plain text opens no document. */
  lemma {:induction false} PlainIsSkipped(a: string, b: string, i: nat)
    requires Plain(a) && i <= |a|
    ensures DelimitersFrom(a + b, i, UNQUOTED) == Delimiters(b)
    decreases |a| - i
  {
    if i < |a| {
      PlainStep(a, b, i);
      PlainIsSkipped(a, b, i + 1);
    } else {
      DelimitersShift(a + b, |a|, b, 0, UNQUOTED);
    }
  }

  ghost predicate Inside(s: string, quote: char) {
    forall c :: c in s ==> c != quote && (quote == '"' ==> c != '\\')
  }

  /** What stands between quotes is not looked at. */
  lemma QuotedIsSkipped(quote: char, s: string, tail: string)
    requires (quote == '\'' || quote == '"') && Inside(s, quote)
    ensures Delimiters([quote] + s + [quote] + tail) == Delimiters(tail)
  {
    var code := [quote] + s + [quote] + tail;
    var inside := Quoting(false, quote == '\'', quote == '"');
    SkipsOne(code, 0, UNQUOTED);
    QuotedRun(quote, s, tail, 1);
    assert code[|s| + 1] == quote;
    SkipsOne(code, |s| + 1, inside);
    DelimitersShift(code, |s| + 2, tail, 0, UNQUOTED);
  }

  lemma {:induction false} QuotedRun(quote: char, s: string, tail: string, i: nat)
    requires (quote == '\'' || quote == '"') && Inside(s, quote) && 1 <= i <= |s| + 1
    ensures var inside := Quoting(false, quote == '\'', quote == '"');
            DelimitersFrom([quote] + s + [quote] + tail, i, inside) == DelimitersFrom([quote] + s + [quote] + tail, |s| + 1, inside)
    decreases |s| + 1 - i
  {
    if i < |s| + 1 {
      var code := [quote] + s + [quote] + tail;
      assert code[i] == s[i - 1] && s[i - 1] in s;
      SkipsOne(code, i, Quoting(false, quote == '\'', quote == '"'));
      QuotedRun(quote, s, tail, i + 1);
    }
  }

  /** An escaped character is not looked at. */
  lemma EscapedIsSkipped(c: char, tail: string)
    ensures Delimiters(['\\', c] + tail) == Delimiters(tail)
  {
    var code := ['\\', c] + tail;
    SkipsOne(code, 0, UNQUOTED);
    SkipsOne(code, 1, Quoting(true, false, false));
    DelimitersShift(code, 2, tail, 0, UNQUOTED);
  }

  // ---------------------------------------------------------------- reading a delimiter

  lemma {:induction false} SkipsAll(a: string, b: string, i: nat)
    requires Blanks(a) && i <= |a| && (b == "" || (b[0] != ' ' && b[0] != '\t'))
    ensures SkipBlanks(a + b, i) == |a|
    decreases |a| - i
  {
    if i < |a| {
      assert (a + b)[i] == a[i];
      SkipsAll(a, b, i + 1);
    }
  }

  lemma {:induction false} ReadsAll(w: string, tail: string, i: nat)
    requires Word(w) && EndsWord(tail) && i <= |w|
    ensures WordEnd(w + tail, 0, i) == |w|
    decreases |w| - i
  {
    if i < |w| {
      assert (w + tail)[i] == w[i];
      ReadsAll(w, tail, i + 1);
    } else if tail != "" {
      assert (w + tail)[i] == tail[0];
    }
  }

  /** The word as it stands in the text: bare, or between two quotes of one kind. */
  ghost predicate Quote(quote: string) {
    quote == "" || quote == "'" || quote == "\""
  }

  lemma WordIsRead(quote: string, word: string, tail: string)
    requires Quote(quote) && Word(word) && (quote == "" ==> EndsWord(tail))
    ensures WordAt(quote + word + quote + tail, 0) == (word, |quote + word + quote|)
  {
    var code, rest := quote + word + quote + tail, quote + tail;
    assert code == quote + (word + rest);
    assert EndsWord(rest);
    ReadsAll(word, rest, 0);
    WordShifts(code, |quote|, word + rest, 0, 0);
    assert code[|quote|..|quote| + |word|] == word;
    assert quote != "" ==> code[0] == quote[0] && code[1 + |word|] == quote[0];
    assert quote == "" ==> code[0] == word[0];
  }

  function Opener(dash: bool, blanks: string, quote: string, word: string): string {
    Front(dash, blanks) + quote + word + quote
  }

  ghost predicate OpenerFits(blanks: string, quote: string, word: string, tail: string) {
    Blanks(blanks) && Quote(quote) && Word(word) && (quote == "" ==> EndsWord(tail))
  }

  lemma DelimiterBehind(code: string, k: nat, rest: string, dash: bool, word: string, end: nat)
    requires 2 <= |code| && PrefixEnd(code, 2) == k && (StripsTabs(code, 2) <==> dash) && Continues(code, k, rest)
    requires WordAt(rest, 0) == (word, end) && word != ""
    ensures DelimiterAt(code, 2) == (Heredoc(word, dash), k + end)
  {
    WordAtShifts(code, k, rest, 0);
  }

  lemma DelimiterIsRead(dash: bool, blanks: string, quote: string, word: string, tail: string)
    requires OpenerFits(blanks, quote, word, tail)
    ensures DelimiterAt(Opener(dash, blanks, quote, word) + tail, 2) == (Heredoc(word, dash), |Opener(dash, blanks, quote, word)|)
  {
    var rest, k := quote + word + quote + tail, |Front(dash, blanks)|;
    var code := Front(dash, blanks) + rest;
    assert Opener(dash, blanks, quote, word) + tail == code;
    FrontIsRead(code, dash, blanks, rest);
    WordIsRead(quote, word, tail);
    DelimiterBehind(code, k, rest, dash, word, |quote + word + quote|);
  }

  function Front(dash: bool, blanks: string): string {
    "<<" + (if dash then "-" else "") + blanks
  }

  lemma FrontIsRead(code: string, dash: bool, blanks: string, rest: string)
    requires code == Front(dash, blanks) + rest && Blanks(blanks) && rest != "" && rest[0] !in "- \t"
    ensures PrefixEnd(code, 2) == |Front(dash, blanks)| && (StripsTabs(code, 2) <==> dash)
  {
    var start := if dash then 3 else 2;
    assert code[start..] == blanks + rest;
    assert rest[0] != ' ' && rest[0] != '\t' && rest[0] != '-' by {
      assert "- \t"[0] == '-' && "- \t"[1] == ' ' && "- \t"[2] == '\t';
    }
    SkipsAll(blanks, rest, 0);
    assert code[start] == (blanks + rest)[0];
    SkipShifts(code, start, blanks + rest, 0);
  }

  /** After plain text a here-document operator names its word, with or without the dash, blanks and
      quotes, and reading goes on right after it. */
  lemma OpensDocument(head: string, dash: bool, blanks: string, quote: string, word: string, tail: string)
    requires Plain(head) && OpenerFits(blanks, quote, word, tail)
    ensures Delimiters(head + Opener(dash, blanks, quote, word) + tail) == [Heredoc(word, dash)] + Delimiters(tail)
  {
    var opener := Opener(dash, blanks, quote, word);
    OpenerIsRead(dash, blanks, quote, word, tail);
    PlainIsSkipped(head, opener + tail, 0);
    assert head + opener + tail == head + (opener + tail);
  }

  lemma OpenerIsRead(dash: bool, blanks: string, quote: string, word: string, tail: string)
    requires OpenerFits(blanks, quote, word, tail)
    ensures Delimiters(Opener(dash, blanks, quote, word) + tail) == [Heredoc(word, dash)] + Delimiters(tail)
  {
    var opener := Opener(dash, blanks, quote, word);
    var code := opener + tail;
    DelimiterIsRead(dash, blanks, quote, word, tail);
    OpenerSigns(dash, blanks, quote, word, tail);
    StepOpens(code, Heredoc(word, dash), |opener|);
    DelimitersAfter(opener, tail);
  }

  lemma OpenerSigns(dash: bool, blanks: string, quote: string, word: string, tail: string)
    requires OpenerFits(blanks, quote, word, tail)
    ensures var code := Opener(dash, blanks, quote, word) + tail; |code| > 2 && code[0] == '<' && code[1] == '<' && code[2] != '<'
  {
    var code := Opener(dash, blanks, quote, word) + tail;
    assert code[2] == if dash then '-' else if blanks != "" then blanks[0] else if quote != "" then quote[0] else word[0];
  }

  lemma StepOpens(code: string, d: Heredoc, consumed: nat)
    requires |code| > 2 && code[0] == '<' && code[1] == '<' && code[2] != '<' && DelimiterAt(code, 2) == (d, consumed) && d.word != ""
    ensures consumed <= |code| && DelimitersFrom(code, 0, UNQUOTED) == [d] + DelimitersFrom(code, consumed, UNQUOTED)
  {
    assert DelimiterStep(code, 0, UNQUOTED) == ([d], consumed);
  }

  /** Three signs are a redirection of a string. */
  lemma OpensNoDocument(head: string, tail: string)
    requires Plain(head)
    ensures Delimiters(head + "<<<" + tail) == Delimiters(tail)
  {
    var code := "<<<" + tail;
    assert DelimiterStep(code, 0, UNQUOTED) == ([], 3);
    DelimitersShift(code, 3, tail, 0, UNQUOTED);
    PlainIsSkipped(head, code, 0);
    assert head + "<<<" + tail == head + code;
  }

  // ---------------------------------------------------------------- comments

  /** What may stand before a comment. */
  const SEPARATORS := " \t;|&()<>"

  ghost predicate Unquoting(s: string) {
    forall c :: c in s ==> c !in "'\"\\"
  }

  lemma SeparatorsAre(c: char)
    ensures c in SEPARATORS <==> Separates(c)
  {
    var s := SEPARATORS;
    assert |s| == 9 && s[0] == ' ' && s[1] == '\t' && s[2] == ';' && s[3] == '|' && s[4] == '&';
    assert s[5] == '(' && s[6] == ')' && s[7] == '<' && s[8] == '>';
  }

  lemma {:induction false} UnquotedAt(line: string, s: string, i: nat)
    requires s <= line && Unquoting(s) && i <= |s|
    ensures QuotingAt(line, i) == UNQUOTED
  {
    if i > 0 {
      UnquotedAt(line, s, i - 1);
      assert line[i - 1] == s[i - 1] && s[i - 1] in s;
    }
  }

  /** Without a number sign there is no comment. */
  lemma NoSignNoComment(line: string)
    requires '#' !in line
    ensures FirstComment(line) == -1 && Code(line) == line
  {
    FirstCommentIs(line);
  }

  /** The sign starts a comment at the start of the line or after a separator. */
  ghost predicate MayStart(head: string) {
    head == "" || head[|head| - 1] in SEPARATORS
  }

  /** After unquoted text without one, the first number sign starts a comment at the start of the line or
      after a separator, and nowhere else. */
  lemma CommentStartsIff(head: string, tail: string)
    requires Unquoting(head) && '#' !in head
    ensures FirstComment(head + "#" + tail) == |head| <==> MayStart(head)
    ensures MayStart(head) ==> Code(head + "#" + tail) == head
  {
    var line := head + "#" + tail;
    FirstCommentIs(line);
    SignAt(head, tail);
    assert forall i :: 0 <= i < |head| ==> line[i] == head[i] && line[i] in head;
    assert line[..|head|] == head;
  }

  lemma SignAt(head: string, tail: string)
    requires Unquoting(head)
    ensures CommentAt(head + "#" + tail, |head|) <==> MayStart(head)
  {
    var line := head + "#" + tail;
    assert line[..|head|] == head;
    UnquotedAt(line, head, |head|);
    if head != "" {
      SeparatorsAre(head[|head| - 1]);
      assert line[|head| - 1] == head[|head| - 1];
    }
  }

  /** Quoted and escaped number signs start none. */
  lemma QuotedSignIsNone(head: string, quote: char, s: string, tail: string)
    requires Unquoting(head) && '#' !in head && (quote == '\'' || quote == '"') && Inside(s, quote) && '#' !in tail
    ensures FirstComment(head + [quote] + s + [quote] + tail) == -1
  {
    var line := head + [quote] + s + [quote] + tail;
    FirstCommentIs(line);
    forall i | 0 <= i < |line| ensures !CommentAt(line, i) {
      if |head| < i <= |head| + |s| {
        InsideQuotes(line, head, quote, s, i);
      } else {
        assert line[i] == if i < |head| then head[i] else if i == |head| || i == |head| + |s| + 1 then quote else tail[i - |head| - |s| - 2];
        assert i < |head| ==> line[i] in head;
        assert i > |head| + |s| + 1 ==> line[i] in tail;
      }
    }
  }

  lemma {:induction false} InsideQuotes(line: string, head: string, quote: char, s: string, i: nat)
    requires head + [quote] + s <= line && Unquoting(head) && (quote == '\'' || quote == '"') && Inside(s, quote)
    requires |head| < i <= |head| + |s| + 1
    ensures QuotingAt(line, i) == Quoting(false, quote == '\'', quote == '"')
  {
    assert line[i - 1] == (head + [quote] + s)[i - 1];
    if i == |head| + 1 {
      assert head <= line by { assert line[..|head|] == (head + [quote] + s)[..|head|] == head; }
      UnquotedAt(line, head, |head|);
    } else {
      InsideQuotes(line, head, quote, s, i - 1);
      assert line[i - 1] == s[i - |head| - 2] && s[i - |head| - 2] in s;
    }
  }

  /** A comment is reported from its sign to the end of the line, but for the two interpreter lines. */
  lemma CommentIsReported(line: ShellLine, head: string, tail: string)
    requires Unquoting(head) && '#' !in head && MayStart(head) && line.text == head + "#" + tail
    ensures Found(line) ==
            if line.number == 1 && (line.text == "#!/bin/sh" || line.text == "#!/usr/bin/env bash") then []
            else [Finding(line.number, |head| + 1, line.offset + |head|, line.offset + |line.text|)]
  {
    CommentStartsIff(head, tail);
  }

  // ---------------------------------------------------------------- the end of a document

  /** The line ends a document of the word: the word alone, behind tabs only if the document strips them. */
  ghost predicate Ends(text: string, word: string, dash: bool) {
    exists n: nat :: text == Tabs(n) + word && (n > 0 ==> dash)
  }

  lemma {:induction false} TrimmedTabs(n: nat, word: string)
    requires word != "" && word[0] != '\t'
    ensures TrimTabs(Tabs(n) + word) == word
  {
    if n > 0 {
      assert (Tabs(n) + word)[1..] == Tabs(n - 1) + word;
      TrimmedTabs(n - 1, word);
    } else {
      assert Tabs(0) + word == word;
    }
  }

  lemma {:induction false} TabsBefore(text: string) returns (n: nat)
    ensures text == Tabs(n) + TrimTabs(text)
  {
    if text != "" && text[0] == '\t' {
      var m := TabsBefore(text[1..]);
      n := m + 1;
      assert text == ['\t'] + text[1..];
    } else {
      n := 0;
      assert Tabs(0) + text == text;
    }
  }

  lemma EndsIff(text: string, word: string, dash: bool)
    requires Word(word)
    ensures Terminates(Heredoc(word, dash), text) <==> Ends(text, word, dash)
  {
    if Terminates(Heredoc(word, dash), text) {
      if text == word {
        assert text == Tabs(0) + word;
      } else {
        var n := TabsBefore(text);
      }
    }
    if n: nat :| text == Tabs(n) + word && (n > 0 ==> dash) {
      TrimmedTabs(n, word);
      assert n == 0 ==> text == word;
    }
  }

  // ---------------------------------------------------------------- documents and the scan

  /** A terminated document: lines that do not end it, and the one that does. */
  datatype Document = Document(word: string, dash: bool, body: seq<ShellLine>, close: ShellLine)

  ghost predicate Terminated(d: Document) {
    Word(d.word) && Ends(d.close.text, d.word, d.dash) && forall i :: 0 <= i < |d.body| ==> !Ends(d.body[i].text, d.word, d.dash)
  }

  function LinesOf(docs: seq<Document>): seq<ShellLine> {
    if docs == [] then [] else docs[0].body + [docs[0].close] + LinesOf(docs[1..])
  }

  function Specs(docs: seq<Document>): (specs: seq<Heredoc>)
    ensures |specs| == |docs|
  {
    seq(|docs|, i requires 0 <= i < |docs| => Heredoc(docs[i].word, docs[i].dash))
  }

  lemma {:induction false} BodySkipped(lines: seq<ShellLine>, word: string, dash: bool, rest: seq<ShellLine>, pending: seq<Heredoc>, body: seq<ShellLine>)
    requires Word(word) && pending != [] && pending[0] == Heredoc(word, dash) && |lines + rest| <= |body|
    requires forall i :: 0 <= i < |lines| ==> !Ends(lines[i].text, word, dash)
    ensures Scan(lines + rest, pending, body) == Scan(rest, pending, body)
    decreases |lines|
  {
    if lines == [] {
      assert lines + rest == rest;
    } else {
      EndsIff(lines[0].text, word, dash);
      assert (lines + rest)[0] == lines[0] && (lines + rest)[1..] == lines[1..] + rest;
      BodySkipped(lines[1..], word, dash, rest, pending, body);
    }
  }

  /** Open documents are read one after the other, without a finding; then the scan goes on as code. */
  lemma {:induction false} PendingSkipped(docs: seq<Document>, rest: seq<ShellLine>, body: seq<ShellLine>)
    requires (forall i :: 0 <= i < |docs| ==> Terminated(docs[i])) && |LinesOf(docs) + rest| <= |body|
    ensures Scan(LinesOf(docs) + rest, Specs(docs), body) == Scan(rest, [], rest)
    decreases |docs|
  {
    if docs == [] {
      assert LinesOf(docs) + rest == rest && Specs(docs) == [];
      BodyUnused(rest, body, rest);
    } else {
      var d, later := docs[0], LinesOf(docs[1..]) + rest;
      assert LinesOf(docs) + rest == d.body + ([d.close] + later);
      assert Specs(docs)[0] == Heredoc(d.word, d.dash) && Specs(docs)[1..] == Specs(docs[1..]);
      BodySkipped(d.body, d.word, d.dash, [d.close] + later, Specs(docs), body);
      EndsIff(d.close.text, d.word, d.dash);
      assert ([d.close] + later)[1..] == later;
      PendingSkipped(docs[1..], rest, later);
    }
  }

  /** A line that opens documents, their bodies and closing lines give no finding but the line's own, and
      the scan goes on as code right after the last closing line. */
  lemma DocumentsAreSkipped(line: ShellLine, docs: seq<Document>, rest: seq<ShellLine>)
    requires Delimiters(Code(line.text)) == Specs(docs) && forall i :: 0 <= i < |docs| ==> Terminated(docs[i])
    ensures var lines := [line] + LinesOf(docs) + rest;
            Scan(lines, [], lines) == Found(line) + Scan(rest, [], rest)
  {
    var lines, later := [line] + LinesOf(docs) + rest, LinesOf(docs) + rest;
    assert lines[0] == line && lines[1..] == later;
    PendingSkipped(docs, rest, later);
  }

  /** The same, written out for one document. */
  lemma DocumentIsSkipped(head: string, dash: bool, blanks: string, quote: string, d: Document, tail: string, line: ShellLine, rest: seq<ShellLine>)
    requires Plain(head) && Plain(tail) && OpenerFits(blanks, quote, d.word, tail) && d.dash == dash && Terminated(d)
    requires line.text == head + Opener(dash, blanks, quote, d.word) + tail
    ensures var lines := [line] + d.body + [d.close] + rest;
            Scan(lines, [], lines) == Scan(rest, [], rest)
  {
    NoSign(head, dash, blanks, quote, d.word, tail);
    NoSignNoComment(line.text);
    OpensDocument(head, dash, blanks, quote, d.word, tail);
    PlainIsSkipped(tail, "", 0);
    assert tail + "" == tail;
    assert Specs([d]) == [Heredoc(d.word, d.dash)] && LinesOf([d]) == d.body + [d.close];
    DocumentsAreSkipped(line, [d], rest);
    assert [line] + d.body + [d.close] + rest == [line] + LinesOf([d]) + rest;
  }

  lemma NoSign(head: string, dash: bool, blanks: string, quote: string, word: string, tail: string)
    requires Plain(head) && Plain(tail) && OpenerFits(blanks, quote, word, tail)
    ensures '#' !in head + Opener(dash, blanks, quote, word) + tail
  {
    assert '#' !in Front(dash, blanks) && '#' !in quote && '#' !in word;
  }

  /** A document that is never closed is no document: the lines after the one that opened it are code. */
  lemma {:induction false} UnterminatedIsCode(lines: seq<ShellLine>, word: string, dash: bool)
    requires lines != [] && Word(word) && [Heredoc(word, dash)] <= Delimiters(Code(lines[0].text))
    requires forall i :: 1 <= i < |lines| ==> !Ends(lines[i].text, word, dash)
    ensures Scan(lines, [], lines) == Found(lines[0]) + Scan(lines[1..], [], lines[1..])
  {
    NeverEnds(lines[1..], Delimiters(Code(lines[0].text)), word, dash);
  }

  lemma CodeOpens(line: ShellLine, rest: seq<ShellLine>)
    ensures Scan([line] + rest, [], [line] + rest) == Found(line) + Scan(rest, Delimiters(Code(line.text)), rest)
  {
    assert ([line] + rest)[0] == line && ([line] + rest)[1..] == rest;
  }

  lemma NeverEnds(lines: seq<ShellLine>, pending: seq<Heredoc>, word: string, dash: bool)
    requires Word(word) && pending != [] && pending[0] == Heredoc(word, dash)
    requires forall i :: 0 <= i < |lines| ==> !Ends(lines[i].text, word, dash)
    ensures Scan(lines, pending, lines) == Scan(lines, [], lines)
  {
    assert lines + [] == lines;
    BodySkipped(lines, word, dash, [], pending, lines);
  }

  /** A line that opens none is scanned by itself. */
  lemma CodeLine(line: ShellLine, rest: seq<ShellLine>)
    requires Delimiters(Code(line.text)) == []
    ensures Scan([line] + rest, [], [line] + rest) == Found(line) + Scan(rest, [], rest)
  {
    CodeOpens(line, rest);
  }
}
