/** What the scan of config.toml takes a line for, read off its text: which spellings of the key assign it, what
    ends the top level, and when a plan is refused. */
module ConfigLines {
  import opened Results
  import opened CodexConfig

  // ---------------------------------------------------------------- blanks

  ghost predicate Blank(s: string) {
    forall i :: 0 <= i < |s| ==> s[i] in " \t\n\r\U{0B}\U{0C}"
  }

  /** No blank at either end. */
  ghost predicate Tight(s: string) {
    s != "" ==> s[0] !in " \t\n\r\U{0B}\U{0C}" && s[|s| - 1] !in " \t\n\r\U{0B}\U{0C}"
  }

  lemma {:induction false} TrimLeftPadded(pad: string, s: string)
    requires Blank(pad) && (s != "" ==> !Space(s[0]))
    ensures TrimLeft(pad + s) == s
  {
    if pad == "" {
      assert pad + s == s;
    } else {
      assert (pad + s)[0] == pad[0] && (pad + s)[1..] == pad[1..] + s;
      TrimLeftPadded(pad[1..], s);
    }
  }

  lemma {:induction false} TrimRightPadded(s: string, pad: string)
    requires Blank(pad) && (s != "" ==> !Space(s[|s| - 1]))
    ensures TrimRight(s + pad) == s
  {
    if pad == "" {
      assert s + pad == s;
    } else {
      var n := |pad| - 1;
      assert (s + pad)[|s + pad| - 1] == pad[n] && (s + pad)[..|s + pad| - 1] == s + pad[..n];
      TrimRightPadded(s, pad[..n]);
    }
  }

  /** Trimming takes the blanks at both ends and nothing else. */
  lemma TrimmedIs(before: string, s: string, after: string)
    requires Blank(before) && Tight(s) && Blank(after)
    ensures TrimSpace(before + s + after) == s
  {
    if s == "" {
      assert before + s + after == before + after;
      TrimLeftPadded(before + after, "");
      assert before + after + "" == before + after;
    } else {
      assert before + s + after == before + (s + after) && (s + after)[0] == s[0];
      TrimLeftPadded(before, s + after);
      TrimRightPadded(s, after);
    }
  }

  lemma {:induction false} LeftPad(s: string) returns (pad: string)
    ensures Blank(pad) && s == pad + TrimLeft(s)
  {
    if s != "" && Space(s[0]) {
      pad := LeftPad(s[1..]);
      assert s == [s[0]] + s[1..];
      pad := [s[0]] + pad;
    } else {
      pad := "";
    }
  }

  lemma {:induction false} RightPad(s: string) returns (pad: string)
    ensures Blank(pad) && s == TrimRight(s) + pad
  {
    if s != "" && Space(s[|s| - 1]) {
      var n := |s| - 1;
      pad := RightPad(s[..n]);
      assert s == s[..n] + [s[n]];
      pad := pad + [s[n]];
    } else {
      pad := "";
    }
  }

  lemma Pads(s: string) returns (before: string, after: string)
    ensures Blank(before) && Blank(after) && s == before + TrimSpace(s) + after && Tight(TrimSpace(s))
  {
    before := LeftPad(s);
    after := RightPad(TrimLeft(s));
    TrimmedEnds(s);
  }

  /** The line feed the scan takes off would be trimmed anyway. */
  lemma FeedIsTrimmed(line: string)
    ensures TrimSpace(TrimFeed(line)) == TrimSpace(line)
  {
    if line != "" && line[|line| - 1] == '\n' {
      var before, after := Pads(TrimFeed(line));
      assert line == TrimFeed(line) + "\n";
      assert line == before + TrimSpace(TrimFeed(line)) + (after + "\n");
      TrimmedIs(before, TrimSpace(TrimFeed(line)), after + "\n");
    }
  }

  // ---------------------------------------------------------------- what a line is

  /** The bare key, or the key in single quotes, or a double-quoted string that stands for it. */
  ghost predicate SpellsKey(form: string, key: string, unquote: Unquote) {
    || form == key || form == "'" + key + "'"
    || (|form| >= 2 && form[0] == '"' && form[|form| - 1] == '"' && unquote(form) == Some(key))
  }

  /** A line in its parts: blanks, a spelling of the key, an equals sign, the value, and possibly a comment. */
  datatype Parts = Parts(indent: string, form: string, gap: string, lead: string, value: string, tail: string, note: string) {
    function Text(): string {
      indent + form + gap + "=" + lead + value + tail + note
    }

    ghost predicate Fits(key: string, unquote: Unquote) {
      && Blank(indent) && Blank(gap) && Blank(lead) && Blank(tail)
      && SpellsKey(form, key, unquote) && '=' !in form
      && Tight(value) && '#' !in value && (note != "" ==> note[0] == '#')
    }
  }

  lemma SpellingIsTight(form: string, key: string, unquote: Unquote)
    requires SpellsKey(form, key, unquote) && PlainKey(key)
    ensures Tight(form) && form != "" && form[0] != '#' && form[0] != '['
    ensures KeyMatches(form, key, unquote)
  {
    assert form == "'" + key + "'" ==> form[1..|form| - 1] == key;
    assert "" + form + "" == form;
    TrimmedIs("", form, "");
  }

  lemma MatchIsSpelling(raw: string, key: string, unquote: Unquote)
    ensures KeyMatches(raw, key, unquote) <==> SpellsKey(TrimSpace(raw), key, unquote)
  {
    var r := TrimSpace(raw);
    if |r| >= 2 && r[0] == '\'' && r[|r| - 1] == '\'' { assert r == "'" + r[1..|r| - 1] + "'"; }
    assert r == "'" + key + "'" ==> r[1..|r| - 1] == key;
  }

  /** Such a line assigns its value, whatever the blanks and the comment. */
  lemma AssignmentIsRead(p: Parts, key: string, unquote: Unquote)
    requires p.Fits(key, unquote) && PlainKey(key)
    ensures KindOf(p.Text(), key, unquote) == Assigns(p.value)
  {
    SpellingIsTight(p.form, key, unquote);
    var left, rest := p.form + p.gap, p.lead + p.value + p.tail + p.note;
    assert '=' !in left && left[0] == p.form[0];
    TextTrims(p, left, rest);
    SpelledLeft(p.form, p.gap, key, unquote);
    ReadLine(p.Text(), left, TrimRight(rest), key, unquote);
    ValueIsRead(p.lead, p.value, p.tail, p.note);
  }

  lemma TextTrims(p: Parts, left: string, rest: string)
    requires Blank(p.indent) && left == p.form + p.gap && rest == p.lead + p.value + p.tail + p.note && left != "" && !Space(left[0])
    ensures TrimSpace(TrimFeed(p.Text())) == left + "=" + TrimRight(rest)
  {
    assert p.Text() == p.indent + (left + "=" + rest);
    FeedIsTrimmed(p.Text());
    TrimmedLine(p.indent, left, rest);
  }

  lemma SpelledLeft(form: string, gap: string, key: string, unquote: Unquote)
    requires SpellsKey(form, key, unquote) && Tight(form) && Blank(gap)
    ensures KeyMatches(form + gap, key, unquote)
  {
    TrimmedIs("", form, gap);
    assert "" + form + gap == form + gap;
    MatchIsSpelling(form + gap, key, unquote);
  }

  lemma ReadLine(line: string, left: string, right: string, key: string, unquote: Unquote)
    requires TrimSpace(TrimFeed(line)) == left + "=" + right && '=' !in left && left != "" && left[0] != '#' && left[0] != '['
    requires KeyMatches(left, key, unquote)
    ensures KindOf(line, key, unquote) == Assigns(TrimSpace(right[..IndexOf(right, '#')]))
  {
    var trimmed := left + "=" + right;
    assert trimmed[..|left|] == left && trimmed[|left| + 1..] == right;
    FirstAt(trimmed, |left|, '=');
  }

  /** Trimming a line whose first part starts with no blank leaves that part, the equals sign, and the rest without the
      blanks at its end. */
  lemma TrimmedLine(indent: string, left: string, rest: string)
    requires Blank(indent) && left != "" && !Space(left[0])
    ensures TrimSpace(indent + (left + "=" + rest)) == left + "=" + TrimRight(rest)
  {
    var pad := RightPad(rest);
    var inner := left + "=" + TrimRight(rest);
    TrimRightKeeps(rest);
    assert inner[|inner| - 1] == if TrimRight(rest) == "" then '=' else TrimRight(rest)[|TrimRight(rest)| - 1];
    assert indent + (left + "=" + rest) == indent + inner + pad;
    TrimmedIs(indent, inner, pad);
  }

  /** What stands before the comment is the value between its blanks. */
  lemma ValueIsRead(lead: string, value: string, tail: string, note: string)
    requires Blank(lead) && Tight(value) && Blank(tail) && '#' !in value && (note != "" ==> note[0] == '#')
    ensures var right := TrimRight(lead + value + tail + note); TrimSpace(right[..IndexOf(right, '#')]) == value
  {
    var bare := lead + value + tail;
    assert '#' !in bare;
    TrimmedIs(lead, value, tail);
    if note == "" {
      assert bare + note == bare;
      BareIsRead(bare);
    } else {
      NotedRight(bare, note);
      BeforeNote(bare, TrimRight(note));
    }
  }

  lemma TrimmedTwice(s: string)
    ensures TrimSpace(TrimRight(s)) == TrimSpace(s)
  {
    var pad := RightPad(s);
    var before, after := Pads(TrimRight(s));
    var inner := TrimSpace(TrimRight(s));
    assert s == before + inner + (after + pad);
    TrimmedIs(before, inner, after + pad);
  }

  lemma BareIsRead(bare: string)
    requires '#' !in bare
    ensures var right := TrimRight(bare); TrimSpace(right[..IndexOf(right, '#')]) == TrimSpace(bare)
  {
    var right := TrimRight(bare);
    TrimRightKeeps(bare);
    IndexOfMissing(right, '#');
    assert right[..|right|] == right;
    TrimmedTwice(bare);
  }

  lemma NotedRight(bare: string, note: string)
    requires note != "" && !Space(note[0])
    ensures TrimRight(note) != "" && TrimRight(note)[0] == note[0] && TrimRight(bare + note) == bare + TrimRight(note)
  {
    var pad := RightPad(note);
    TrimRightKeeps(note);
    assert TrimRight(note) != "" by { assert note == TrimRight(note) + pad; }
    assert bare + note == (bare + TrimRight(note)) + pad;
    TrimRightPadded(bare + TrimRight(note), pad);
  }

  lemma BeforeNote(bare: string, note: string)
    requires '#' !in bare && note != "" && note[0] == '#'
    ensures IndexOf(bare + note, '#') == |bare| && (bare + note)[..|bare|] == bare
  {
    assert (bare + note)[..|bare|] == bare;
    FirstAt(bare + note, |bare|, '#');
  }

  /** Nothing else does: a line assigns a value exactly when it has these parts. */
  lemma AssignmentIff(line: string, value: string, key: string, unquote: Unquote)
    requires PlainKey(key)
    ensures KindOf(line, key, unquote) == Assigns(value) <==>
              exists p: Parts :: p.Fits(key, unquote) && p.Text() == line && p.value == value
  {
    if KindOf(line, key, unquote) == Assigns(value) { var p := PartsOf(line, key, unquote); }
    forall p: Parts | p.Fits(key, unquote) && p.Text() == line && p.value == value ensures KindOf(line, key, unquote) == Assigns(value) {
      AssignmentIsRead(p, key, unquote);
    }
  }

  lemma PartsOf(line: string, key: string, unquote: Unquote) returns (p: Parts)
    requires KindOf(line, key, unquote).Assigns?
    ensures p.Fits(key, unquote) && p.Text() == line && p.value == KindOf(line, key, unquote).value
  {
    FeedIsTrimmed(line);
    var before, after := Pads(line);
    var trimmed := TrimSpace(line);
    var cut := IndexOf(trimmed, '=');
    var left, right := trimmed[..cut], trimmed[cut + 1..];
    assert trimmed == left + "=" + right;
    var l0, form, gap := LeftParts(trimmed, cut, key, unquote);
    var lead, value, tail, note := RightParts(right, after);
    p := Parts(before + l0, form, gap, lead, value, tail, note);
    Assembled(before, left, right, after, p, l0);
  }

  lemma LeftParts(trimmed: string, cut: nat, key: string, unquote: Unquote) returns (l0: string, form: string, gap: string)
    requires cut == IndexOf(trimmed, '=') && KeyMatches(trimmed[..cut], key, unquote)
    ensures Blank(l0) && Blank(gap) && SpellsKey(form, key, unquote) && '=' !in form && trimmed[..cut] == l0 + form + gap
  {
    AbsentBefore(trimmed, '=');
    MatchIsSpelling(trimmed[..cut], key, unquote);
    l0, gap := Pads(trimmed[..cut]);
    form := TrimSpace(trimmed[..cut]);
  }

  lemma RightParts(right: string, after: string) returns (lead: string, value: string, tail: string, note: string)
    requires Blank(after)
    ensures Blank(lead) && Tight(value) && Blank(tail) && '#' !in value && (note != "" ==> note[0] == '#')
    ensures lead + value + tail + note == right + after && value == TrimSpace(right[..IndexOf(right, '#')])
  {
    var k := IndexOf(right, '#');
    AbsentBefore(right, '#');
    var t0;
    lead, t0 := Pads(right[..k]);
    value := TrimSpace(right[..k]);
    assert right == right[..k] + right[k..];
    if k == |right| {
      tail, note := t0 + after, "";
      assert right == lead + value + t0;
    } else {
      tail, note := t0, right[k..] + after;
    }
  }

  lemma Assembled(before: string, left: string, right: string, after: string, p: Parts, l0: string)
    requires p.indent == before + l0 && left == l0 + p.form + p.gap && p.lead + p.value + p.tail + p.note == right + after
    ensures p.Text() == before + (left + "=" + right) + after
  {
    var front := before + left + "=";
    assert p.indent + p.form + p.gap + "=" == front;
    assert p.Text() == front + (p.lead + p.value + p.tail + p.note);
    assert front + (right + after) == before + (left + "=" + right) + after;
  }

  /** A line ends the top level exactly when its first character that is not blank opens a bracket. */
  lemma TableIff(line: string, key: string, unquote: Unquote)
    ensures KindOf(line, key, unquote).Table? <==> exists indent, rest :: Opens(line, indent, rest)
  {
    FeedIsTrimmed(line);
    if KindOf(line, key, unquote).Table? {
      var before, after := Pads(line);
      var trimmed := TrimSpace(line);
      assert trimmed == "[" + trimmed[1..];
      assert Opens(line, before, trimmed[1..] + after);
    }
    forall indent, rest | Opens(line, indent, rest) ensures KindOf(line, key, unquote).Table? {
      BracketFirst(indent, "[" + rest);
      assert line == indent + ("[" + rest);
    }
  }

  ghost predicate Opens(line: string, indent: string, rest: string) {
    Blank(indent) && line == indent + "[" + rest
  }

  lemma BracketFirst(indent: string, text: string)
    requires Blank(indent) && text != "" && !Space(text[0])
    ensures TrimSpace(indent + text) != "" && TrimSpace(indent + text)[0] == text[0]
  {
    TrimLeftPadded(indent, text);
    NotedRight("", text);
    assert "" + text == text;
  }

  // ---------------------------------------------------------------- what the scan finds

  /** The lines before the first table. */
  ghost predicate TopLevel(lines: seq<string>, kind: Kind, top: nat) {
    && top <= |lines| && (forall i :: 0 <= i < top ==> !kind(lines[i]).Table?)
    && (top < |lines| ==> kind(lines[top]).Table?)
  }

  /** Line i assigns the key and no other top-level line does. */
  ghost predicate OnlyAssignment(lines: seq<string>, kind: Kind, top: nat, i: int) {
    0 <= i < top <= |lines| && kind(lines[i]).Assigns? && forall k :: 0 <= k < top && k != i ==> !kind(lines[k]).Assigns?
  }

  /** The scan finds nothing exactly when no top-level line assigns the key, and a line exactly when it is the only one
      and its value is not empty; otherwise it fails. */
  lemma {:induction false} FindIff(lines: seq<string>, from: nat, kind: Kind, top: nat, a: Assignment)
    requires TopLevel(lines, kind, top)
    ensures Find(lines, from, kind) == Ok(None) <==> forall i :: 0 <= i < top ==> !kind(lines[i]).Assigns?
    ensures Find(lines, from, kind) == Ok(Some(a)) <==>
              && OnlyAssignment(lines, kind, top, a.index - from)
              && a.line == lines[a.index - from] && kind(a.line) == Assigns(a.value) && a.value != ""
  {
    if lines != [] && top > 0 {
      var rest := lines[1..];
      assert forall k :: 1 <= k < |lines| ==> rest[k - 1] == lines[k];
      assert TopLevel(rest, kind, top - 1);
      FindIff(rest, from + 1, kind, top - 1, a);
      FirstLine(lines, kind, top, a.index - from);
    }
  }

  lemma FirstLine(lines: seq<string>, kind: Kind, top: nat, i: int)
    requires 0 < top <= |lines|
    ensures kind(lines[0]).Assigns? && i == 0 ==>
              (OnlyAssignment(lines, kind, top, 0) <==> forall k :: 0 <= k < top - 1 ==> !kind(lines[1..][k]).Assigns?)
    ensures kind(lines[0]).Assigns? && i != 0 ==> !OnlyAssignment(lines, kind, top, i)
    ensures !kind(lines[0]).Assigns? ==> (OnlyAssignment(lines, kind, top, i) <==> OnlyAssignment(lines[1..], kind, top - 1, i - 1))
  {
    forall k | 1 <= k < top ensures lines[k] == lines[1..][k - 1] {}
    if OnlyAssignment(lines[1..], kind, top - 1, i - 1) && !kind(lines[0]).Assigns? {
      forall k | 0 <= k < top && k != i ensures !kind(lines[k]).Assigns? {
        if k > 0 { assert lines[k] == lines[1..][k - 1]; }
      }
    }
    if kind(lines[0]).Assigns? && OnlyAssignment(lines, kind, top, 0) {
      forall k | 0 <= k < top - 1 ensures !kind(lines[1..][k]).Assigns? { assert lines[k + 1] == lines[1..][k]; }
    }
    if OnlyAssignment(lines, kind, top, i) && !kind(lines[0]).Assigns? {
      forall k | 0 <= k < top - 1 && k != i - 1 ensures !kind(lines[1..][k]).Assigns? { assert lines[k + 1] == lines[1..][k]; }
    }
  }

  // ---------------------------------------------------------------- when a plan is refused

  /** A plan fails exactly when one of the texts cannot be scanned, when an owned line that is still wanted is gone or
      changed, or when the user has set the key to another value. */
  lemma PlanRefusedIff(managedText: string, data: string, previous: Option<Record>, key: string, kind: Kind)
    ensures var managed, current := Find(Lines(managedText), 0, kind), Find(Lines(data), 0, kind);
            BuildPlan(managedText, data, previous, key, kind).Fail? <==>
              || managed.Fail? || current.Fail?
              || (managed.value.Some? && previous.Some? && (current.value.None? || current.value.value.line != previous.value.line))
              || (managed.value.Some? && previous.None? && current.value.Some? && current.value.value.value != managed.value.value.value)
  {
    FoundInRange(Lines(data), 0, kind);
  }

  /** A plan changes nothing and records nothing where there is nothing of the tool's, or the user changed a retired line,
      which it reports; and where the user set the key to the wanted value it leaves the line to the user. */
  lemma PlanLeavesAlone(managedText: string, data: string, previous: Option<Record>, key: string, kind: Kind)
    requires BuildPlan(managedText, data, previous, key, kind).Ok?
    ensures var p := BuildPlan(managedText, data, previous, key, kind).value;
            var managed, current := Find(Lines(managedText), 0, kind).value, Find(Lines(data), 0, kind).value;
            && (p.preserved <==> managed.None? && previous.Some? && current.Some? && current.value.line != previous.value.line)
            && (p.record.Some? <==> managed.Some? && (previous.Some? || current.None?))
            && (p.record.None? && (previous.None? || current.None? || p.preserved) ==> p.next == data)
  {
    FoundInRange(Lines(data), 0, kind);
  }
}
