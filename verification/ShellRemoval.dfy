/** Removing the found comments line by line, and why scanning the result finds nothing. */
module ShellRemoval {
  import opened ShellLexer
  import opened ShellScan

  /** What removal does to a line: leave it, overwrite its comment with blanks, or take it out. */
  datatype Edit = Keep | Overwrite | Drop

  /** Edits apply to lines with a forbidden comment; a dropped line is blank before its comment. */
  ghost predicate Sound(line: ShellLine, edit: Edit) {
    edit != Keep ==> Forbidden(line) && (edit.Drop? ==> Blank(line.text[..FirstComment(line.text)]))
  }

  /** Edits are indexed by line number, from 1. */
  function EditOf(edits: seq<Edit>, number: nat): Edit {
    if 1 <= number <= |edits| then edits[number - 1] else Keep
  }

  ghost predicate SoundEdits(lines: seq<ShellLine>, edits: seq<Edit>) {
    forall i :: 0 <= i < |lines| ==> Sound(lines[i], EditOf(edits, lines[i].number))
  }

  function Overwritten(text: string): string
    requires FirstComment(text) >= 0
  {
    text[..FirstComment(text)] + Spaces(|text| - FirstComment(text))
  }

  /** The line after the edit; a dropped last line leaves an empty one behind. */
  function NewText(line: ShellLine, edit: Edit): string
    requires edit.Overwrite? ==> FirstComment(line.text) >= 0
  {
    match edit
    case Keep => line.text
    case Overwrite => Overwritten(line.text)
    case Drop => ""
  }

  ghost predicate EditedLine(line: ShellLine, edit: Edit, e: ShellLine) {
    && (edit.Overwrite? ==> FirstComment(line.text) >= 0)
    && e.text == NewText(line, edit) && (edit.Keep? && Allowed(line) ==> Allowed(e))
  }

  /** The lines `e` are what the edits make of `rest`. */
  ghost predicate EditedAs(rest: seq<ShellLine>, edits: seq<Edit>, e: seq<ShellLine>) {
    if rest == [] then e == []
    else
      var edit := EditOf(edits, rest[0].number);
      if edit.Drop? && |rest| > 1 then EditedAs(rest[1..], edits, e)
      else e != [] && EditedLine(rest[0], edit, e[0]) && EditedAs(rest[1..], edits, e[1..])
  }

  ghost predicate Covered(findings: seq<Finding>, edits: seq<Edit>) {
    forall n :: 0 <= n < |findings| ==> EditOf(edits, findings[n].line) != Keep
  }

  // ---------------------------------------------------------------- delimiters and edited lines

  /** The words that can end a document. */
  predicate Plain(word: string) {
    word != "" && forall i :: 0 <= i < |word| ==> word[i] != '#' && word[i] != ' ' && word[i] != '\t'
  }

  ghost predicate PlainWords(pending: seq<Heredoc>) {
    forall n :: 0 <= n < |pending| ==> Plain(pending[n].word)
  }

  lemma {:induction false} WordIsPlain(code: string, begin: nat, index: nat)
    requires begin <= index <= |code|
    ensures forall i :: index <= i < WordEnd(code, begin, index) ==> code[i] != '#' && code[i] != ' ' && code[i] != '\t'
    decreases |code| - index
  {
    if index < |code| && WordByte(code[index], index == begin) { WordIsPlain(code, begin, index + 1); }
  }

  lemma WordAtIsPlain(code: string, index: nat)
    requires index <= |code| && WordAt(code, index).0 != ""
    ensures Plain(WordAt(code, index).0)
  {
    var begin := if OpensQuote(code, index) then index + 1 else index;
    WordIsPlain(code, begin, begin);
    var word := code[begin..WordEnd(code, begin, begin)];
    assert forall i :: 0 <= i < |word| ==> word[i] == code[begin + i];
  }

  lemma StepIsPlain(code: string, index: nat, q: Quoting)
    requires index < |code|
    ensures PlainWords(DelimiterStep(code, index, q).0)
  {
    if HeredocStart(code, index) && WordAt(code, PrefixEnd(code, index + 2)).0 != "" {
      WordAtIsPlain(code, PrefixEnd(code, index + 2));
    }
  }

  lemma {:induction false} DelimitersArePlain(code: string, index: nat, q: Quoting)
    requires index <= |code|
    ensures PlainWords(DelimitersFrom(code, index, q))
    decreases |code| - index
  {
    if index < |code| {
      StepIsPlain(code, index, q);
      DelimitersArePlain(code, DelimiterStep(code, index, q).1, After(q, code[index]));
    }
  }

  lemma {:induction false} TrimTabsKeeps(text: string, i: nat)
    requires i < |text| && text[i] != '\t'
    ensures text[i] in TrimTabs(text)
  {
    if text[0] == '\t' { TrimTabsKeeps(text[1..], i - 1); }
  }

  /** A line with a blank or '#' in it ends no document, nor does an empty one. */
  lemma NotTerminating(spec: Heredoc, text: string)
    requires Plain(spec.word) && (text == "" || exists i :: 0 <= i < |text| && (text[i] == '#' || text[i] == ' '))
    ensures !Terminates(spec, text)
  {
    if text != "" {
      var i :| 0 <= i < |text| && (text[i] == '#' || text[i] == ' ');
      TrimTabsKeeps(text, i);
      assert text[i] in text && text[i] !in spec.word;
    }
  }

  lemma EditedNotTerminating(line: ShellLine, edit: Edit, e: ShellLine, spec: Heredoc)
    requires Plain(spec.word) && Sound(line, edit) && edit != Keep && EditedLine(line, edit, e)
    ensures !Terminates(spec, line.text) && !Terminates(spec, e.text)
  {
    CommentNotTerminating(line.text, spec);
    if edit.Overwrite? {
      assert e.text[|e.text| - 1] == ' ';
      NotTerminating(spec, e.text);
    } else {
      NotTerminating(spec, "");
    }
  }

  lemma CommentNotTerminating(text: string, spec: Heredoc)
    requires Plain(spec.word) && FirstComment(text) >= 0
    ensures !Terminates(spec, text)
  {
    FirstCommentIs(text);
    assert text[FirstComment(text)] == '#';
    NotTerminating(spec, text);
  }

  /** Overwriting a comment removes it and changes no delimiter. */
  lemma OverwrittenIsSilent(text: string)
    requires FirstComment(text) >= 0
    ensures FirstComment(Overwritten(text)) == -1
    ensures Delimiters(Overwritten(text)) == Delimiters(Code(text))
  {
    var at := FirstComment(text);
    FirstCommentIs(text);
    BlankedHasNoComment(text, at, |text| - at);
    SilentWithoutComment(Overwritten(text));
    DelimitersPadded(Code(text), Spaces(|text| - at), 0, UNQUOTED);
  }

  lemma SilentWithoutComment(text: string)
    requires NoComment(text)
    ensures FirstComment(text) == -1
  {
    FirstCommentIs(text);
  }

  lemma BlankIsSilent(text: string)
    requires Blank(text)
    ensures Delimiters(text) == []
  {
    BlankHasNoDelimiters("", text, 0, UNQUOTED);
    assert "" + text == text;
  }

  /** The edited line is not reported, and opens the documents its original opened. */
  lemma EditedIsSilent(line: ShellLine, edit: Edit, e: ShellLine)
    requires Sound(line, edit) && EditedLine(line, edit, e) && (Forbidden(line) ==> edit != Keep)
    ensures Found(e) == [] && Delimiters(Code(e.text)) == Delimiters(Code(line.text))
  {
    if edit.Overwrite? {
      OverwrittenIsSilent(line.text);
    } else if edit.Drop? {
      BlankIsSilent(line.text[..FirstComment(line.text)]);
      BlankIsSilent("");
    }
  }

  // ---------------------------------------------------------------- the fixpoint

  /** Scanning the edited lines in step with the original ones finds nothing. */
  lemma {:induction false} Rescan(rest: seq<ShellLine>, pending: seq<Heredoc>, body: seq<ShellLine>,
                                  edits: seq<Edit>, e: seq<ShellLine>, eBody: seq<ShellLine>)
    requires pending != [] ==> |rest| <= |body| && |e| <= |eBody|
    requires PlainWords(pending) && SoundEdits(rest, edits) && SoundEdits(body, edits)
    requires EditedAs(rest, edits, e) && (pending != [] ==> EditedAs(body, edits, eBody))
    requires Covered(Scan(rest, pending, body), edits)
    ensures Scan(e, pending, eBody) == []
    decreases if pending == [] then 2 * |rest| else 2 * |body| + 1, |rest|
  {
    if rest == [] {
      if pending != [] { Rescan(body, [], body, edits, eBody, eBody); }
    } else {
      var tail, edit := rest[1..], EditOf(edits, rest[0].number);
      assert Sound(rest[0], edit);
      assert SoundEdits(tail, edits) by { assert forall i :: 0 <= i < |tail| ==> tail[i] == rest[i + 1]; }
      if pending != [] {
        RescanBody(rest, pending, body, edits, e, eBody);
        if Terminates(pending[0], rest[0].text) {
          Rescan(tail, pending[1..], tail, edits, e[1..], e[1..]);
        } else if edit.Drop? && |rest| > 1 {
          Rescan(tail, pending, body, edits, e, eBody);
        } else {
          Rescan(tail, pending, body, edits, e[1..], eBody);
        }
      } else {
        var delimiters := Delimiters(Code(rest[0].text));
        DelimitersArePlain(Code(rest[0].text), 0, UNQUOTED);
        var found, more := Found(rest[0]), Scan(tail, delimiters, tail);
        TailCovered(found, more, edits);
        if Forbidden(rest[0]) { assert (found + more)[0] == FindingOf(rest[0]); }
        if edit.Drop? && |rest| > 1 {
          BlankIsSilent(rest[0].text[..FirstComment(rest[0].text)]);
          Rescan(tail, [], tail, edits, e, e);
          BodyUnused(e, e, eBody);
        } else {
          EditedIsSilent(rest[0], edit, e[0]);
          Rescan(tail, delimiters, tail, edits, e[1..], e[1..]);
        }
      }
    }
  }

  lemma TailCovered(found: seq<Finding>, more: seq<Finding>, edits: seq<Edit>)
    requires Covered(found + more, edits)
    ensures Covered(more, edits)
  {
    assert forall n :: 0 <= n < |more| ==> more[n] == (found + more)[|found| + n];
  }

  /** A line of an open document ends it before the edit exactly when it does so after. */
  lemma RescanBody(rest: seq<ShellLine>, pending: seq<Heredoc>, body: seq<ShellLine>,
                   edits: seq<Edit>, e: seq<ShellLine>, eBody: seq<ShellLine>)
    requires rest != [] && pending != [] && PlainWords(pending) && Sound(rest[0], EditOf(edits, rest[0].number))
    requires EditedAs(rest, edits, e)
    ensures EditOf(edits, rest[0].number).Drop? && |rest| > 1 ==> !Terminates(pending[0], rest[0].text) && EditedAs(rest[1..], edits, e)
    ensures !(EditOf(edits, rest[0].number).Drop? && |rest| > 1) ==>
              && e != [] && EditedAs(rest[1..], edits, e[1..])
              && (Terminates(pending[0], rest[0].text) <==> Terminates(pending[0], e[0].text))
  {
    var edit := EditOf(edits, rest[0].number);
    if edit != Keep {
      CommentNotTerminating(rest[0].text, pending[0]);
      if !(edit.Drop? && |rest| > 1) { EditedNotTerminating(rest[0], edit, e[0], pending[0]); }
    }
  }
}
