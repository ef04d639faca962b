/** The one managed assignment in the user's config.toml: finding it, planning its installation,
    update or retirement, and what the new text keeps of the old one. */
module CodexConfig {
  import opened Results

  // ---------------------------------------------------------------- text

  predicate Space(c: char) {
    c == ' ' || c == '\t' || c == '\n' || c == '\r' || c == '\U{0B}' || c == '\U{0C}'
  }

  /** The first position of a character, or the length. */
  function IndexOf(s: string, c: char): (i: nat)
    ensures i <= |s| && (i < |s| ==> s[i] == c)
  {
    if s == [] then 0 else if s[0] == c then 0 else 1 + IndexOf(s[1..], c)
  }

  function TrimLeft(s: string): string {
    if s != [] && Space(s[0]) then TrimLeft(s[1..]) else s
  }

  function TrimRight(s: string): string {
    if s != [] && Space(s[|s| - 1]) then TrimRight(s[..|s| - 1]) else s
  }

  function TrimSpace(s: string): string {
    TrimRight(TrimLeft(s))
  }

  /** Lines with their line feeds; what follows the last line feed is a line of its own. */
  function Lines(data: string): (lines: seq<string>)
    ensures lines != []
  {
    var feed := IndexOf(data, '\n');
    if feed == |data| then [data] else [data[..feed + 1]] + Lines(data[feed + 1..])
  }

  function Join(lines: seq<string>): string {
    if lines == [] then "" else lines[0] + Join(lines[1..])
  }

  function TrimFeed(line: string): string {
    if line != [] && line[|line| - 1] == '\n' then line[..|line| - 1] else line
  }

  function LineEnding(line: string): string {
    if |line| >= 2 && line[|line| - 2..] == "\r\n" then "\r\n"
    else if line != [] && line[|line| - 1] == '\n' then "\n"
    else ""
  }

  function AssignmentLine(key: string, value: string, ending: string): string {
    key + " = " + value + if ending == "" then "\n" else ending
  }

  // ---------------------------------------------------------------- finding the assignment

  datatype Assignment = Assignment(index: nat, line: string, value: string)

  /** What a line is for the scan of one key; `unquote` undoes a double-quoted Go string, if it is one. */
  datatype LineKind = Ignored | Table | Assigns(value: string)

  type Unquote = string -> Option<string>

  predicate KeyMatches(raw: string, key: string, unquote: Unquote) {
    var r := TrimSpace(raw);
    r == key
    || (|r| >= 2 && r[0] == '\'' && r[|r| - 1] == '\'' && r[1..|r| - 1] == key)
    || (|r| >= 2 && r[0] == '"' && r[|r| - 1] == '"' && unquote(r) == Some(key))
  }

  type Kind = string -> LineKind

  /** The reading of lines for a key. */
  function Classifier(key: string, unquote: Unquote): Kind {
    line => KindOf(line, key, unquote)
  }

  function KindOf(line: string, key: string, unquote: Unquote): LineKind {
    var trimmed := TrimSpace(TrimFeed(line));
    if trimmed == "" || trimmed[0] == '#' then Ignored
    else if trimmed[0] == '[' then Table
    else
      var cut := IndexOf(trimmed, '=');
      if cut == |trimmed| || !KeyMatches(trimmed[..cut], key, unquote) then Ignored
      else
        var right := trimmed[cut + 1..];
        Assigns(TrimSpace(right[..IndexOf(right, '#')]))
  }

  /** The top-level assignment among lines numbered from an index; fails for an empty value or a second one. */
  function Find(lines: seq<string>, from: nat, kind: Kind): Result<Option<Assignment>> {
    if lines == [] then Ok(None)
    else
      match kind(lines[0])
      case Ignored => Find(lines[1..], from + 1, kind)
      case Table => Ok(None)
      case Assigns(value) =>
        if value == "" || Find(lines[1..], from + 1, kind) != Ok(None) then Fail
        else Ok(Some(Assignment(from, lines[0], value)))
  }

  method FindTopLevelAssignment(data: string, kind: Kind) returns (r: Result<Option<Assignment>>)
    ensures r == Find(Lines(data), 0, kind)
  {
    var lines := Lines(data);
    var found: Option<Assignment> := None;
    assert lines[0..] == lines;
    for index := 0 to |lines|
      invariant found.None? ==> Find(lines, 0, kind) == Find(lines[index..], index, kind)
      invariant found.Some? ==> Find(lines, 0, kind) ==
                                if Find(lines[index..], index, kind) == Ok(None) then Ok(found) else Fail
    {
      assert lines[index..][0] == lines[index] && lines[index..][1..] == lines[index + 1..];
      var read := kind(lines[index]);
      if read.Ignored? { continue; }
      if read.Table? { break; }
      if found.Some? { return Fail; }
      if read.value == "" { return Fail; }
      found := Some(Assignment(index, lines[index], read.value));
    }
    return Ok(found);
  }

  // ---------------------------------------------------------------- planning

  /** The line's digest is injective, so it is the line. */
  datatype Record = Record(value: string, line: string)

  datatype Plan = Plan(next: string, changed: bool, record: Option<Record>, preserved: bool)

  function ReplaceAssignmentLine(data: string, index: nat, replacement: string): string
    requires index < |Lines(data)|
  {
    var lines := Lines(data);
    Join(if replacement == "" then lines[..index] + lines[index + 1..] else lines[index := replacement])
  }

  function PlanOwned(data: string, current: Option<Assignment>, managed: Option<Assignment>, previous: Record, key: string): Result<Plan>
    requires current.Some? ==> current.value.index < |Lines(data)|
  {
    if managed.None? then
      if current.None? then Ok(Plan(data, false, None, false))
      else if current.value.line != previous.line then Ok(Plan(data, false, None, true))
      else
        var next := ReplaceAssignmentLine(data, current.value.index, "");
        Ok(Plan(next, next != data, None, false))
    else if current.None? || current.value.line != previous.line then Fail
    else
      var line := AssignmentLine(key, managed.value.value, LineEnding(current.value.line));
      var next := ReplaceAssignmentLine(data, current.value.index, line);
      Ok(Plan(next, next != data, Some(Record(managed.value.value, line)), false))
  }

  function PlanUnowned(data: string, current: Option<Assignment>, managed: Option<Assignment>, key: string): Result<Plan> {
    if managed.None? then Ok(Plan(data, false, None, false))
    else if current.Some? then
      if current.value.value != managed.value.value then Fail else Ok(Plan(data, false, None, false))
    else
      var line := AssignmentLine(key, managed.value.value, "\n");
      Ok(Plan(line + data, true, Some(Record(managed.value.value, line)), false))
  }

  function BuildPlan(managedText: string, data: string, previous: Option<Record>, key: string, kind: Kind): Result<Plan> {
    var managed, current := Find(Lines(managedText), 0, kind), Find(Lines(data), 0, kind);
    if managed.Fail? || current.Fail? then Fail
    else
      FoundInRange(Lines(data), 0, kind);
      if previous.Some? then PlanOwned(data, current.value, managed.value, previous.value, key)
      else PlanUnowned(data, current.value, managed.value, key)
  }

  lemma {:induction false} FoundInRange(lines: seq<string>, from: nat, kind: Kind)
    ensures var r := Find(lines, from, kind);
            r.Ok? && r.value.Some? ==>
              && from <= r.value.value.index < from + |lines| && r.value.value.line == lines[r.value.value.index - from]
              && kind(r.value.value.line) == Assigns(r.value.value.value) && r.value.value.value != ""
  {
    if lines != [] && kind(lines[0]).Ignored? { FoundInRange(lines[1..], from + 1, kind); }
  }

  method BuildConfigPlan(managedText: string, data: string, previous: Option<Record>, key: string, kind: Kind)
    returns (r: Result<Plan>)
    ensures r == BuildPlan(managedText, data, previous, key, kind)
  {
    var managed := FindTopLevelAssignment(managedText, kind);
    if managed.Fail? { return Fail; }
    var current := FindTopLevelAssignment(data, kind);
    if current.Fail? { return Fail; }
    FoundInRange(Lines(data), 0, kind);
    r := if previous.Some? then PlanOwned(data, current.value, managed.value, previous.value, key)
         else PlanUnowned(data, current.value, managed.value, key);
  }

  // ---------------------------------------------------------------- lines and their text

  /** A line with its one line feed at the end. */
  predicate Full(line: string) {
    line != [] && IndexOf(line, '\n') == |line| - 1
  }

  ghost predicate WellSplit(lines: seq<string>) {
    && lines != [] && '\n' !in lines[|lines| - 1]
    && forall i :: 0 <= i < |lines| - 1 ==> Full(lines[i])
  }

  lemma {:induction false} IndexOfMissing(s: string, c: char)
    ensures IndexOf(s, c) == |s| <==> c !in s
  {
    if s != [] && s[0] != c { IndexOfMissing(s[1..], c); }
  }

  lemma {:induction false} IndexOfPrefix(a: string, b: string, c: char)
    ensures IndexOf(a + b, c) == if IndexOf(a, c) < |a| then IndexOf(a, c) else |a| + IndexOf(b, c)
  {
    if a == [] {
      assert a + b == b;
    } else {
      assert (a + b)[0] == a[0] && (a + b)[1..] == a[1..] + b;
      if a[0] != c { IndexOfPrefix(a[1..], b, c); }
    }
  }

  lemma {:induction false} FirstAt(s: string, i: nat, c: char)
    requires i < |s| && s[i] == c && c !in s[..i]
    ensures IndexOf(s, c) == i
  {
    IndexOfMissing(s[..i], c);
    IndexOfPrefix(s[..i], s[i..], c);
    assert s == s[..i] + s[i..];
  }

  lemma LinesCons(line: string, rest: string)
    requires Full(line)
    ensures Lines(line + rest) == [line] + Lines(rest)
  {
    IndexOfPrefix(line, rest, '\n');
    assert (line + rest)[..|line|] == line && (line + rest)[|line|..] == rest;
  }

  lemma {:induction false} LinesAreSplit(data: string)
    ensures WellSplit(Lines(data)) && Join(Lines(data)) == data
  {
    var feed := IndexOf(data, '\n');
    IndexOfMissing(data, '\n');
    if feed == |data| {
      JoinOne(data);
    } else {
      LinesAreSplit(data[feed + 1..]);
      HeadIsFull(data);
      SplitCons(data[..feed + 1], Lines(data[feed + 1..]));
      assert data == data[..feed + 1] + data[feed + 1..];
    }
  }

  lemma JoinOne(line: string)
    ensures Join([line]) == line
  {
    assert [line][1..] == [];
  }

  lemma HeadIsFull(data: string)
    requires IndexOf(data, '\n') < |data|
    ensures Full(data[..IndexOf(data, '\n') + 1])
  {
    var feed := IndexOf(data, '\n');
    AbsentBefore(data, '\n');
    assert data[..feed + 1][..feed] == data[..feed];
    FirstAt(data[..feed + 1], feed, '\n');
  }

  lemma SplitCons(head: string, lines: seq<string>)
    requires Full(head) && WellSplit(lines)
    ensures WellSplit([head] + lines) && Join([head] + lines) == head + Join(lines)
  {
    var all := [head] + lines;
    assert all[1..] == lines;
    forall i | 0 <= i < |all| - 1 ensures Full(all[i]) {
      if i > 0 { assert all[i] == lines[i - 1]; }
    }
  }

  /** Splitting what was joined gives the lines back; a full last line leaves an empty one behind it. */
  lemma {:induction false} LinesOfJoin(lines: seq<string>)
    requires lines != [] && forall i :: 0 <= i < |lines| - 1 ==> Full(lines[i])
    requires Full(lines[|lines| - 1]) || '\n' !in lines[|lines| - 1]
    ensures Lines(Join(lines)) == if Full(lines[|lines| - 1]) then lines + [""] else lines
  {
    var rest := lines[1..];
    assert lines == [lines[0]] + rest;
    if rest == [] {
      assert Join(lines) == lines[0] + "" == lines[0];
      IndexOfMissing(lines[0], '\n');
      if Full(lines[0]) { LinesCons(lines[0], ""); }
    } else {
      LinesOfJoin(rest);
      LinesCons(lines[0], Join(rest));
    }
  }

  lemma {:induction false} JoinConcat(a: seq<string>, b: seq<string>)
    ensures Join(a + b) == Join(a) + Join(b)
  {
    if a == [] {
      assert a + b == b;
    } else {
      assert (a + b)[0] == a[0] && (a + b)[1..] == a[1..] + b;
      JoinConcat(a[1..], b);
    }
  }

  // ---------------------------------------------------------------- the managed line

  predicate PlainKey(key: string) {
    key != "" && key[0] != '#' && key[0] != '[' && '=' !in key && forall i :: 0 <= i < |key| ==> !Space(key[i])
  }

  predicate PlainValue(value: string) {
    value != "" && !Space(value[0]) && !Space(value[|value| - 1]) && '#' !in value && '\n' !in value
  }

  const MANAGED_KEY := "background_terminal_max_timeout"

  lemma ManagedKeyIsPlain()
    ensures PlainKey(MANAGED_KEY) && MANAGED_KEY == "background_terminal_max_timeout"
  {
  }

  lemma {:induction false} TrimLeftKeeps(s: string)
    ensures TrimLeft(s) == "" || !Space(TrimLeft(s)[0])
    ensures forall c :: c in TrimLeft(s) ==> c in s
  {
    if s != [] && Space(s[0]) { TrimLeftKeeps(s[1..]); }
  }

  lemma {:induction false} TrimRightKeeps(s: string)
    ensures TrimRight(s) == "" || !Space(TrimRight(s)[|TrimRight(s)| - 1])
    ensures TrimRight(s) != "" ==> TrimRight(s)[0] == s[0]
    ensures forall c :: c in TrimRight(s) ==> c in s
  {
    if s != [] && Space(s[|s| - 1]) { TrimRightKeeps(s[..|s| - 1]); }
  }

  lemma TrimmedEnds(s: string)
    ensures TrimSpace(s) == "" || (!Space(TrimSpace(s)[0]) && !Space(TrimSpace(s)[|TrimSpace(s)| - 1]))
    ensures forall c :: c in TrimSpace(s) ==> c in s
  {
    TrimLeftKeeps(s);
    TrimRightKeeps(TrimLeft(s));
  }

  /** A reading of lines under which what is written for the key is read back, and what is read can be written. */
  ghost predicate Reads(kind: Kind, key: string) {
    && kind("") == Ignored
    && (forall line :: '\n' !in TrimFeed(line) && kind(line).Assigns? && kind(line).value != "" ==> PlainValue(kind(line).value))
    && (forall value, ending :: PlainValue(value) && ending in ["", "\n", "\r\n"] ==> Written(kind, key, value, ending))
  }

  ghost predicate Written(kind: Kind, key: string, value: string, ending: string) {
    kind(AssignmentLine(key, value, ending)) == Assigns(value) && Full(AssignmentLine(key, value, ending))
  }

  /** Every value that was found can be written back. */
  lemma FoundIsPlain(lines: seq<string>, from: nat, key: string, kind: Kind)
    requires Reads(kind, key) && WellSplit(lines) && Find(lines, from, kind).Ok? && Find(lines, from, kind).value.Some?
    ensures PlainValue(Find(lines, from, kind).value.value.value)
  {
    FoundInRange(lines, from, kind);
    NoFeedInside(lines, Find(lines, from, kind).value.value.index - from);
  }

  lemma NoFeedInside(lines: seq<string>, i: nat)
    requires WellSplit(lines) && i < |lines|
    ensures '\n' !in TrimFeed(lines[i])
  {
    if Full(lines[i]) {
      IndexOfPrefix(lines[i][..|lines[i]| - 1], lines[i][|lines[i]| - 1..], '\n');
      assert lines[i] == lines[i][..|lines[i]| - 1] + lines[i][|lines[i]| - 1..];
      IndexOfMissing(lines[i][..|lines[i]| - 1], '\n');
    }
  }

  lemma {:induction false} AbsentBefore(s: string, c: char)
    ensures c !in s[..IndexOf(s, c)]
  {
    if s != [] && s[0] != c {
      AbsentBefore(s[1..], c);
      assert s[..IndexOf(s, c)] == [s[0]] + s[1..][..IndexOf(s[1..], c)];
    }
  }

  lemma AssignedIsPlain(line: string, key: string, unquote: Unquote)
    requires '\n' !in TrimFeed(line) && KindOf(line, key, unquote).Assigns? && KindOf(line, key, unquote).value != ""
    ensures PlainValue(KindOf(line, key, unquote).value)
  {
    var trimmed := TrimSpace(TrimFeed(line));
    TrimmedEnds(TrimFeed(line));
    ValueIsPlain(trimmed, IndexOf(trimmed, '='));
  }

  lemma ValueIsPlain(trimmed: string, cut: nat)
    requires cut < |trimmed| && '\n' !in trimmed
    requires var right := trimmed[cut + 1..]; TrimSpace(right[..IndexOf(right, '#')]) != ""
    ensures var right := trimmed[cut + 1..]; PlainValue(TrimSpace(right[..IndexOf(right, '#')]))
  {
    var right := trimmed[cut + 1..];
    var bare := right[..IndexOf(right, '#')];
    AbsentBefore(right, '#');
    TrimmedEnds(bare);
    assert '\n' !in right;
  }

  /** The written line is read back as the assignment of its value. */
  lemma WrittenLine(key: string, value: string, ending: string, unquote: Unquote)
    requires PlainKey(key) && PlainValue(value) && (ending == "" || ending == "\n" || ending == "\r\n")
    ensures KindOf(AssignmentLine(key, value, ending), key, unquote) == Assigns(value)
    ensures Full(AssignmentLine(key, value, ending))
  {
    var tail := if ending == "\r\n" then "\r" else "";
    WrittenText(key, value, ending, tail);
    WrittenBody(key, value, unquote);
  }

  lemma WrittenText(key: string, value: string, ending: string, tail: string)
    requires PlainKey(key) && PlainValue(value) && (ending == "" || ending == "\n" || ending == "\r\n")
    requires tail == if ending == "\r\n" then "\r" else ""
    ensures Full(AssignmentLine(key, value, ending)) && TrimSpace(TrimFeed(AssignmentLine(key, value, ending))) == key + " = " + value
  {
    var body, line := key + " = " + value, AssignmentLine(key, value, ending);
    assert line == (body + tail) + "\n";
    assert '\n' !in body + tail;
    FedLine(body + tail);
    assert TrimLeft(body + tail) == body + tail by { assert (body + tail)[0] == key[0]; }
    assert body[|body| - 1] == value[|value| - 1];
    TrimTail(body, tail);
  }

  lemma FedLine(text: string)
    requires '\n' !in text
    ensures Full(text + "\n") && TrimFeed(text + "\n") == text
  {
    assert (text + "\n")[..|text|] == text;
    FirstAt(text + "\n", |text|, '\n');
  }

  /** The scan of a plain key is such a reading. */
  lemma ClassifierReads(key: string, unquote: Unquote)
    requires PlainKey(key)
    ensures Reads(Classifier(key, unquote), key)
  {
    var kind := Classifier(key, unquote);
    forall line | '\n' !in TrimFeed(line) && kind(line).Assigns? && kind(line).value != "" ensures PlainValue(kind(line).value) {
      AssignedIsPlain(line, key, unquote);
    }
    forall value, ending | PlainValue(value) && ending in ["", "\n", "\r\n"] ensures Written(kind, key, value, ending) {
      WrittenLine(key, value, ending, unquote);
    }
  }

  lemma TrimTail(body: string, tail: string)
    requires body != "" && !Space(body[|body| - 1]) && (tail == "" || tail == "\r")
    ensures TrimRight(body + tail) == body
  {
    if tail == "" { assert body + tail == body; } else { assert (body + tail)[..|body|] == body; }
  }

  lemma TrimKey(key: string)
    requires PlainKey(key)
    ensures TrimSpace(key + " ") == key
  {
    var padded := key + " ";
    assert padded[0] == key[0] && padded[|padded| - 1] == ' ' && padded[..|padded| - 1] == key;
    assert TrimLeft(padded) == padded;
    assert TrimRight(padded) == TrimRight(key) == key;
  }

  /** What the scan makes of `key = value` once its ends are trimmed. */
  lemma WrittenBody(key: string, value: string, unquote: Unquote)
    requires PlainKey(key) && PlainValue(value)
    ensures var body := key + " = " + value;
            && body != "" && !Space(body[0]) && body[0] != '#' && body[0] != '[' && !Space(body[|body| - 1]) && '\n' !in body
            && IndexOf(body, '=') == |key| + 1
            && KeyMatches(body[..|key| + 1], key, unquote)
            && (var right := body[|key| + 2..]; TrimSpace(right[..IndexOf(right, '#')]) == value)
  {
    var body := key + " = " + value;
    assert body[..|key| + 1] == key + " ";
    FirstAt(body, |key| + 1, '=');
    TrimKey(key);
    var right := body[|key| + 2..];
    assert right == " " + value;
    IndexOfMissing(right, '#');
    assert right[..|right|] == right && right[1..] == value;
    assert TrimLeft(right) == value;
  }

  // ---------------------------------------------------------------- the new text

  lemma {:induction false} FindReplaced(lines: seq<string>, from: nat, i: nat, line: string, kind: Kind)
    requires i < |lines| && Find(lines, from, kind).Ok? && Find(lines, from, kind).value.Some?
    requires Find(lines, from, kind).value.value.index == from + i
    requires kind(line).Assigns? && kind(line).value != ""
    ensures Find(lines[i := line], from, kind) == Ok(Some(Assignment(from + i, line, kind(line).value)))
  {
    if i == 0 {
      FoundInRange(lines[1..], from + 1, kind);
      assert lines[i := line][1..] == lines[1..];
    } else {
      FindReplaced(lines[1..], from + 1, i - 1, line, kind);
      assert lines[i := line][1..] == lines[1..][i - 1 := line];
    }
  }

  lemma {:induction false} FindRemoved(lines: seq<string>, from: nat, i: nat, kind: Kind)
    requires i < |lines| && Find(lines, from, kind).Ok? && Find(lines, from, kind).value.Some?
    requires Find(lines, from, kind).value.value.index == from + i
    ensures Find(lines[..i] + lines[i + 1..], from, kind) == Ok(None)
  {
    var rest := lines[..i] + lines[i + 1..];
    if i == 0 {
      FoundInRange(lines[1..], from + 1, kind);
      FindShifts(lines[1..], from + 1, from, kind);
      assert rest == lines[1..];
    } else {
      FindRemoved(lines[1..], from + 1, i - 1, kind);
      assert rest[0] == lines[0] && rest[1..] == lines[1..][..i - 1] + lines[1..][i..];
    }
  }

  /** Numbering the lines differently moves what is found and nothing else. */
  lemma {:induction false} FindShifts(lines: seq<string>, from: nat, to: nat, kind: Kind)
    ensures Find(lines, from, kind).Fail? <==> Find(lines, to, kind).Fail?
    ensures Find(lines, from, kind) == Ok(None) <==> Find(lines, to, kind) == Ok(None)
  {
    if lines != [] { FindShifts(lines[1..], from + 1, to + 1, kind); }
  }

  lemma {:induction false} FindIgnoresEmptyEnd(lines: seq<string>, from: nat, kind: Kind)
    requires kind("") == Ignored
    ensures Find(lines + [""], from, kind) == Find(lines, from, kind)
  {
    if lines == [] {
      EmptyLineIgnored(from, kind);
      assert lines + [""] == [""];
    } else {
      FindIgnoresEmptyEnd(lines[1..], from + 1, kind);
      assert (lines + [""])[1..] == lines[1..] + [""];
      SameTailSameFind(lines + [""], lines, from, kind);
    }
  }

  lemma EmptyLineIgnored(from: nat, kind: Kind)
    requires kind("") == Ignored
    ensures Find([""], from, kind) == Ok(None)
  {
    assert [""][1..] == [];
  }

  lemma SameTailSameFind(a: seq<string>, b: seq<string>, from: nat, kind: Kind)
    requires a != [] && b != [] && a[0] == b[0] && Find(a[1..], from + 1, kind) == Find(b[1..], from + 1, kind)
    ensures Find(a, from, kind) == Find(b, from, kind)
  {
  }

  /** After an update the text reads back as the managed value, on the line that was replaced. */
  lemma UpdatedReadsBack(data: string, i: nat, line: string, kind: Kind)
    requires kind("") == Ignored
    requires i < |Lines(data)| && Find(Lines(data), 0, kind).Ok? && Find(Lines(data), 0, kind).value.Some?
    requires Find(Lines(data), 0, kind).value.value.index == i
    requires Full(line) && kind(line).Assigns? && kind(line).value != ""
    ensures Find(Lines(ReplaceAssignmentLine(data, i, line)), 0, kind) == Ok(Some(Assignment(i, line, kind(line).value)))
  {
    var lines := Lines(data);
    ReplacedLines(data, i, line);
    FindReplaced(lines, 0, i, line, kind);
    FindWithTail(lines[i := line], if i == |lines| - 1 then [""] else [], kind);
  }

  lemma FindWithTail(lines: seq<string>, tail: seq<string>, kind: Kind)
    requires kind("") == Ignored
    requires tail == [] || tail == [""]
    ensures Find(lines + tail, 0, kind) == Find(lines, 0, kind)
  {
    if tail == [] { assert lines + tail == lines; } else { FindIgnoresEmptyEnd(lines, 0, kind); }
  }

  /** The other lines stay; a last line that gained a line feed leaves an empty one behind it. */
  lemma ReplacedLines(data: string, i: nat, line: string)
    requires i < |Lines(data)| && Full(line)
    ensures Lines(ReplaceAssignmentLine(data, i, line)) == Lines(data)[i := line] + if i == |Lines(data)| - 1 then [""] else []
  {
    LinesAreSplit(data);
    JoinReplaced(Lines(data), i, line);
  }

  lemma JoinReplaced(lines: seq<string>, i: nat, line: string)
    requires WellSplit(lines) && i < |lines| && Full(line)
    ensures Lines(Join(lines[i := line])) == lines[i := line] + if i == |lines| - 1 then [""] else []
  {
    var after := lines[i := line];
    forall k | 0 <= k < |after| - 1 ensures Full(after[k]) {}
    LastNotFull(lines[|lines| - 1]);
    LinesOfJoin(after);
    assert after + [] == after;
  }

  lemma LastNotFull(line: string)
    requires '\n' !in line
    ensures !Full(line)
  {
    IndexOfMissing(line, '\n');
  }

  /** Installing in front of a text without the key. */
  lemma PrependedReadsBack(data: string, line: string, kind: Kind)
    requires Find(Lines(data), 0, kind) == Ok(None)
    requires Full(line) && kind(line).Assigns? && kind(line).value != ""
    ensures Lines(line + data) == [line] + Lines(data)
    ensures Find(Lines(line + data), 0, kind) == Ok(Some(Assignment(0, line, kind(line).value)))
  {
    LinesCons(line, data);
    FindShifts(Lines(data), 0, 1, kind);
    assert ([line] + Lines(data))[1..] == Lines(data);
  }

  /** After a removal the key is gone. */
  lemma RemovedReadsBack(data: string, i: nat, kind: Kind)
    requires kind("") == Ignored
    requires i < |Lines(data)| && Find(Lines(data), 0, kind).Ok? && Find(Lines(data), 0, kind).value.Some?
    requires Find(Lines(data), 0, kind).value.value.index == i
    ensures Find(Lines(ReplaceAssignmentLine(data, i, "")), 0, kind) == Ok(None)
  {
    var lines := Lines(data);
    var after := lines[..i] + lines[i + 1..];
    LinesAreSplit(data);
    FindRemoved(lines, 0, i, kind);
    if after == [] {
      assert Lines("") == [""];
    } else {
      LinesOfJoin(after);
      FindIgnoresEmptyEnd(after, 0, kind);
    }
  }

  // ---------------------------------------------------------------- what a plan promises

  /** A recorded plan's text carries the recorded line and value, so the check before the state commit passes. */
  lemma PlanReadsBack(managedText: string, data: string, previous: Option<Record>, key: string, kind: Kind)
    requires Reads(kind, key) && BuildPlan(managedText, data, previous, key, kind).Ok?
    ensures var p := BuildPlan(managedText, data, previous, key, kind).value;
            var found := Find(Lines(p.next), 0, kind);
            && found.Ok?
            && (p.record.Some? ==> found.value.Some? && found.value.value.value == p.record.value.value && found.value.value.line == p.record.value.line)
            && (p.record.Some? ==> Find(Lines(managedText), 0, kind).value.Some?
                                   && p.record.value.value == Find(Lines(managedText), 0, kind).value.value.value)
  {
    var managed, current := Find(Lines(managedText), 0, kind), Find(Lines(data), 0, kind);
    FoundInRange(Lines(data), 0, kind);
    if managed.value.Some? {
      ManagedIsPlain(managedText, key, kind);
      var value := managed.value.value.value;
      if current.value.Some? {
        var i, line := current.value.value.index, AssignmentLine(key, value, LineEnding(current.value.value.line));
        assert Written(kind, key, value, LineEnding(current.value.value.line));
        UpdatedReadsBack(data, i, line, kind);
      } else {
        assert Written(kind, key, value, "\n");
        PrependedReadsBack(data, AssignmentLine(key, value, "\n"), kind);
      }
    } else if current.value.Some? {
      RemovedReadsBack(data, current.value.value.index, kind);
    }
  }

  /** Planning again for the planned text, with the record the plan keeps, changes nothing. */
  lemma PlanIsIdempotent(managedText: string, data: string, previous: Option<Record>, key: string, kind: Kind)
    requires Reads(kind, key) && BuildPlan(managedText, data, previous, key, kind).Ok?
    ensures var p := BuildPlan(managedText, data, previous, key, kind).value;
            var again := BuildPlan(managedText, p.next, p.record, key, kind);
            again == Ok(Plan(p.next, false, p.record, false))
  {
    var p := BuildPlan(managedText, data, previous, key, kind).value;
    PlanReadsBack(managedText, data, previous, key, kind);
    FoundInRange(Lines(data), 0, kind);
    if p.record.Some? {
      var a := Find(Lines(p.next), 0, kind).value.value;
      RecordedLine(managedText, data, previous, key, kind);
      SameLine(p.next, a, kind);
    }
  }

  /** The recorded line is what an update would write over itself. */
  lemma RecordedLine(managedText: string, data: string, previous: Option<Record>, key: string, kind: Kind)
    requires Reads(kind, key) && BuildPlan(managedText, data, previous, key, kind).Ok?
    requires BuildPlan(managedText, data, previous, key, kind).value.record.Some?
    ensures var r := BuildPlan(managedText, data, previous, key, kind).value.record.value;
            r.line == AssignmentLine(key, r.value, LineEnding(r.line))
  {
    var value, current := Find(Lines(managedText), 0, kind).value.value.value, Find(Lines(data), 0, kind).value;
    ManagedIsPlain(managedText, key, kind);
    if current.Some? { EndingOfLine(key, value, LineEnding(current.value.line)); } else { EndingOfLine(key, value, "\n"); }
  }

  lemma ManagedIsPlain(managedText: string, key: string, kind: Kind)
    requires Reads(kind, key) && Find(Lines(managedText), 0, kind).Ok? && Find(Lines(managedText), 0, kind).value.Some?
    ensures PlainValue(Find(Lines(managedText), 0, kind).value.value.value)
  {
    LinesAreSplit(managedText);
    FoundIsPlain(Lines(managedText), 0, key, kind);
  }

  lemma EndingOfLine(key: string, value: string, ending: string)
    requires ending == "" || ending == "\n" || ending == "\r\n"
    requires value != "" ==> value[|value| - 1] != '\r'
    ensures AssignmentLine(key, value, LineEnding(AssignmentLine(key, value, ending))) == AssignmentLine(key, value, ending)
  {
    var line := AssignmentLine(key, value, ending);
    if ending == "\r\n" {
      assert line[|line| - 2..] == "\r\n";
    } else {
      assert line[|line| - 1] == '\n' && line[|line| - 2] == if value == "" then ' ' else value[|value| - 1];
      assert line[|line| - 2..][0] != '\r';
    }
  }

  lemma SameLine(data: string, a: Assignment, kind: Kind)
    requires kind("") == Ignored && Find(Lines(data), 0, kind) == Ok(Some(a))
    ensures a.index < |Lines(data)| && ReplaceAssignmentLine(data, a.index, a.line) == data
  {
    FoundInRange(Lines(data), 0, kind);
    LinesAreSplit(data);
    assert Lines(data)[a.index := a.line] == Lines(data);
  }

  /** Installing into a text without the key and then retiring the key restores the text, byte for byte. */
  lemma InstallThenRetire(managedText: string, retiredText: string, data: string, key: string, kind: Kind)
    requires Reads(kind, key) && Find(Lines(data), 0, kind) == Ok(None) && Find(Lines(retiredText), 0, kind) == Ok(None)
    requires Find(Lines(managedText), 0, kind).Ok? && Find(Lines(managedText), 0, kind).value.Some?
    ensures var installed := BuildPlan(managedText, data, None, key, kind);
            && installed.Ok? && installed.value.changed && installed.value.record.Some?
            && BuildPlan(retiredText, installed.value.next, installed.value.record, key, kind) == Ok(Plan(data, true, None, false))
  {
    var value := Find(Lines(managedText), 0, kind).value.value.value;
    var line := AssignmentLine(key, value, "\n");
    ManagedIsPlain(managedText, key, kind);
    assert Written(kind, key, value, "\n");
    PrependedReadsBack(data, line, kind);
    RemoveFirst(data, line);
  }

  lemma RemoveFirst(data: string, line: string)
    requires Full(line) && Lines(line + data) == [line] + Lines(data)
    ensures ReplaceAssignmentLine(line + data, 0, "") == data && line + data != data
  {
    LinesAreSplit(data);
    assert ([line] + Lines(data))[..0] + ([line] + Lines(data))[1..] == Lines(data);
    assert |line + data| > |data|;
  }

  /** A plan changes the managed line and nothing else. */
  lemma PlanTouchesOneLine(managedText: string, data: string, previous: Option<Record>, key: string, kind: Kind)
    requires BuildPlan(managedText, data, previous, key, kind).Ok? && BuildPlan(managedText, data, previous, key, kind).value.changed
    ensures var p, current := BuildPlan(managedText, data, previous, key, kind).value, Find(Lines(data), 0, kind).value;
            if current.None? then p.record.Some? && p.next == p.record.value.line + data
            else
              var lines, i := Lines(data), current.value.index;
              && i < |lines| && previous.Some? && previous.value.line == current.value.line == lines[i]
              && data == Join(lines[..i]) + lines[i] + Join(lines[i + 1..])
              && p.next == Join(lines[..i]) + (if p.record.Some? then p.record.value.line else "") + Join(lines[i + 1..])
  {
    FoundInRange(Lines(data), 0, kind);
    var p, current := BuildPlan(managedText, data, previous, key, kind).value, Find(Lines(data), 0, kind).value;
    if current.Some? {
      ReplaceAround(data, current.value.index, if p.record.Some? then p.record.value.line else "");
    }
  }

  /** The change flag is exact. */
  lemma ChangedMeansDifferent(managedText: string, data: string, previous: Option<Record>, key: string, kind: Kind)
    requires BuildPlan(managedText, data, previous, key, kind).Ok?
    ensures var p := BuildPlan(managedText, data, previous, key, kind).value; p.changed <==> p.next != data
  {
    var p := BuildPlan(managedText, data, previous, key, kind).value;
    if previous.None? && p.record.Some? { assert |p.next| == |p.record.value.line| + |data|; }
  }

  lemma ReplaceAround(data: string, i: nat, line: string)
    requires i < |Lines(data)|
    ensures data == Join(Lines(data)[..i]) + Lines(data)[i] + Join(Lines(data)[i + 1..])
    ensures ReplaceAssignmentLine(data, i, line) == Join(Lines(data)[..i]) + line + Join(Lines(data)[i + 1..])
  {
    var lines := Lines(data);
    LinesAreSplit(data);
    JoinAround(lines, i, lines[i]);
    assert lines[i := lines[i]] == lines;
    if line == "" {
      JoinConcat(lines[..i], lines[i + 1..]);
      assert Join(lines[..i]) + "" == Join(lines[..i]);
    } else {
      JoinAround(lines, i, line);
    }
  }

  lemma JoinAround(lines: seq<string>, i: nat, line: string)
    requires i < |lines|
    ensures Join(lines[i := line]) == Join(lines[..i]) + line + Join(lines[i + 1..])
  {
    assert lines[i := line] == lines[..i] + ([line] + lines[i + 1..]);
    JoinConcat(lines[..i], [line] + lines[i + 1..]);
    assert ([line] + lines[i + 1..])[1..] == lines[i + 1..];
  }

  /** Only the managed line was inserted, replaced or removed. */
  ghost predicate OneLineChanged(data: string, p: Plan, current: Option<Assignment>) {
    if current.None? then p.record.Some? && p.next == p.record.value.line + data
    else
      var lines, i := Lines(data), current.value.index;
      && i < |lines| && data == Join(lines[..i]) + lines[i] + Join(lines[i + 1..])
      && p.next == Join(lines[..i]) + (if p.record.Some? then p.record.value.line else "") + Join(lines[i + 1..])
  }

  /** Retiring the key from what this plan made of a text without it gives that text back. */
  ghost predicate RetiresTo(data: string, p: Plan, retiredText: string, kind: Kind) {
    BuildPlan(retiredText, p.next, p.record, MANAGED_KEY, kind) == Ok(Plan(data, true, None, false))
  }

  /** Planning for the managed key, with everything a plan promises. */
  method PlanManagedKey(managedText: string, data: string, previous: Option<Record>, unquote: Unquote) returns (r: Result<Plan>)
    ensures var kind := Classifier(MANAGED_KEY, unquote);
            r == BuildPlan(managedText, data, previous, MANAGED_KEY, kind)
    ensures var kind := Classifier(MANAGED_KEY, unquote);
            r.Ok? ==>
              && BuildPlan(managedText, r.value.next, r.value.record, MANAGED_KEY, kind) == Ok(Plan(r.value.next, false, r.value.record, false))
              && (r.value.changed <==> r.value.next != data)
              && (r.value.record.Some? ==> exists i ::
                    Find(Lines(r.value.next), 0, kind) == Ok(Some(Assignment(i, r.value.record.value.line, r.value.record.value.value))))
    ensures var kind := Classifier(MANAGED_KEY, unquote);
            r.Ok? && r.value.changed ==> Find(Lines(data), 0, kind).Ok? && OneLineChanged(data, r.value, Find(Lines(data), 0, kind).value)
    ensures var kind := Classifier(MANAGED_KEY, unquote);
            r.Ok? && previous.None? && r.value.changed ==>
              forall retiredText :: Find(Lines(retiredText), 0, kind) == Ok(None) ==> RetiresTo(data, r.value, retiredText, kind)
  {
    var kind := Classifier(MANAGED_KEY, unquote);
    r := BuildConfigPlan(managedText, data, previous, MANAGED_KEY, kind);
    ManagedKeyIsPlain();
    ClassifierReads(MANAGED_KEY, unquote);
    if r.Ok? {
      PlanReadsBack(managedText, data, previous, MANAGED_KEY, kind);
      PlanIsIdempotent(managedText, data, previous, MANAGED_KEY, kind);
      ChangedMeansDifferent(managedText, data, previous, MANAGED_KEY, kind);
      if r.value.record.Some? {
        var a := Find(Lines(r.value.next), 0, kind).value.value;
        assert Find(Lines(r.value.next), 0, kind) == Ok(Some(Assignment(a.index, r.value.record.value.line, r.value.record.value.value)));
      }
      if r.value.changed { ChangedPlan(managedText, data, previous, r.value, kind); }
    }
  }

  lemma ChangedPlan(managedText: string, data: string, previous: Option<Record>, p: Plan, kind: Kind)
    requires Reads(kind, MANAGED_KEY) && BuildPlan(managedText, data, previous, MANAGED_KEY, kind) == Ok(p) && p.changed
    ensures Find(Lines(data), 0, kind).Ok? && OneLineChanged(data, p, Find(Lines(data), 0, kind).value)
    ensures previous.None? ==>
              forall retiredText :: Find(Lines(retiredText), 0, kind) == Ok(None) ==> RetiresTo(data, p, retiredText, kind)
  {
    PlanTouchesOneLine(managedText, data, previous, MANAGED_KEY, kind);
    if previous.None? {
      forall retiredText | Find(Lines(retiredText), 0, kind) == Ok(None) ensures RetiresTo(data, p, retiredText, kind) {
        InstallThenRetire(managedText, retiredText, data, MANAGED_KEY, kind);
      }
    }
  }
}
