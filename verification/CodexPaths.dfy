/** Which relative paths an install may write, in terms of their components. */
module CodexPaths {
  import opened CodexJournal
  import opened CodexConfig

  /** A name that can stand between slashes. */
  ghost predicate CleanPart(part: string) {
    part != "" && part != "." && part != ".." && '/' !in part && '\\' !in part
  }

  function Slashed(parts: seq<string>): string
    requires parts != []
  {
    if |parts| == 1 then parts[0] else parts[0] + "/" + Slashed(parts[1..])
  }

  /** The path is such names with single slashes between them. */
  ghost predicate PathOf(path: string, parts: seq<string>) {
    parts != [] && path == Slashed(parts) && forall i :: 0 <= i < |parts| ==> CleanPart(parts[i])
  }

  ghost predicate CleanPath(path: string) {
    exists parts :: PathOf(path, parts)
  }

  /** Every component is a clean name. */
  ghost predicate AllClean(path: string) {
    '\\' !in path && forall i: nat, k: nat :: i <= |path| && k <= |path| && Component(path, i, k) ==> path[i..k] !in ["", ".", ".."]
  }

  lemma NoSlashAt(s: string)
    ensures '/' !in s <==> forall j :: 0 <= j < |s| ==> s[j] != '/'
  {
  }

  lemma OnePart(part: string)
    requires '/' !in part
    ensures AllClean(part) <==> CleanPart(part)
  {
    assert part[0..|part|] == part;
    assert Component(part, 0, |part|);
    NoSlashAt(part);
  }

  lemma MoreParts(head: string, rest: string)
    requires '/' !in head
    ensures AllClean(head + "/" + rest) <==> CleanPart(head) && AllClean(rest)
  {
    var path, n := head + "/" + rest, |head|;
    if AllClean(path) { SplitIsClean(head, rest); }
    if CleanPart(head) && AllClean(rest) {
      forall i: nat, k: nat | i <= |path| && k <= |path| && Component(path, i, k) ensures path[i..k] !in ["", ".", ".."] {
        if i <= n {
          HeadComponent(head, rest, i, k);
        } else {
          RestComponent(head, rest, i - n - 1, k - n - 1);
        }
      }
      assert '\\' !in path;
    }
  }

  lemma SplitIsClean(head: string, rest: string)
    requires '/' !in head && AllClean(head + "/" + rest)
    ensures CleanPart(head) && AllClean(rest)
  {
    var path, n := head + "/" + rest, |head|;
    assert path[0..n] == head && Component(path, 0, n) by {
      assert forall j :: 0 <= j < n ==> path[j] == head[j] && head[j] in head;
    }
    assert forall c :: c in head || c in rest ==> c in path;
    forall i: nat, k: nat | i <= |rest| && k <= |rest| && Component(rest, i, k) ensures rest[i..k] !in ["", ".", ".."] {
      RestComponent(head, rest, i, k);
    }
  }

  /** A component that starts within the head is the head. */
  lemma HeadComponent(head: string, rest: string, i: nat, k: nat)
    requires '/' !in head && i <= |head| && k <= |head + "/" + rest| && Component(head + "/" + rest, i, k)
    ensures i == 0 && k == |head| && (head + "/" + rest)[i..k] == head
  {
    var path := head + "/" + rest;
    NoSlashAt(head);
    assert forall j :: 0 <= j < |head| ==> path[j] == head[j];
    assert path[|head|] == '/';
  }

  /** The components behind the first slash are those of the rest. */
  lemma RestComponent(head: string, rest: string, i: int, k: int)
    requires 0 <= i && -|head| - 1 <= k <= |rest|
    ensures var path, n := head + "/" + rest, |head| + 1;
            Component(path, i + n, k + n) <==> 0 <= k && i <= |rest| && Component(rest, i, k)
    ensures 0 <= i <= k <= |rest| ==> (head + "/" + rest)[i + |head| + 1..k + |head| + 1] == rest[i..k]
  {
    var path, n := head + "/" + rest, |head| + 1;
    assert forall j :: 0 <= j < |rest| ==> path[j + n] == rest[j];
    assert path[n - 1] == '/';
    if 0 <= k && i <= |rest| && Component(rest, i, k) {
      forall j | i + n <= j < k + n ensures path[j] != '/' { assert path[j] == rest[j - n]; }
    }
    if Component(path, i + n, k + n) {
      forall j | i <= j < k ensures rest[j] != '/' { assert path[j + n] == rest[j]; }
    }
  }

  /** A path is accepted exactly when it is clean names with slashes between them, or `..` alone. */
  lemma CleanRelativeIff(path: string)
    ensures CleanRelative(path) <==> path == ".." || CleanPath(path)
  {
    AllCleanIff(path);
  }

  lemma {:induction false} AllCleanIff(path: string)
    ensures AllClean(path) <==> CleanPath(path)
    decreases |path|
  {
    var n := IndexOf(path, '/');
    AbsentBefore(path, '/');
    if n == |path| {
      OnePart(path);
      assert path[..n] == path;
      if AllClean(path) { assert PathOf(path, [path]); }
      forall parts | PathOf(path, parts) ensures AllClean(path) { NoSlashOnePart(path, parts); }
    } else {
      var head, rest := path[..n], path[n + 1..];
      assert path == head + "/" + rest;
      MoreParts(head, rest);
      AllCleanIff(rest);
      if AllClean(path) {
        var parts :| PathOf(rest, parts);
        assert ([head] + parts)[1..] == parts;
        assert PathOf(path, [head] + parts);
      }
      forall parts | PathOf(path, parts) ensures CleanPart(head) && CleanPath(rest) { FirstPart(head, rest, parts); }
    }
  }

  /** More than one name means a slash, the first one right behind the first name. */
  lemma SlashBehindFirst(parts: seq<string>)
    requires |parts| > 1 && CleanPart(parts[0])
    ensures var path, n := Slashed(parts), |parts[0]|;
            n < |path| && path[n] == '/' && '/' in path && path[..n] == parts[0] && path[n + 1..] == Slashed(parts[1..])
    ensures forall j :: 0 <= j < |parts[0]| ==> Slashed(parts)[j] != '/'
  {
    NoSlashAt(parts[0]);
    assert Slashed(parts)[|parts[0]|] == '/';
  }

  lemma NoSlashOnePart(path: string, parts: seq<string>)
    requires '/' !in path && PathOf(path, parts)
    ensures parts == [path] && CleanPart(path)
  {
    if |parts| > 1 { SlashBehindFirst(parts); }
  }

  lemma FirstPart(head: string, rest: string, parts: seq<string>)
    requires '/' !in head && PathOf(head + "/" + rest, parts)
    ensures CleanPart(head) && PathOf(rest, parts[1..])
  {
    var path := head + "/" + rest;
    assert path[|head|] == '/' && path[..|head|] == head && path[|head| + 1..] == rest;
    NoSlashAt(head);
    NoSlashAt(parts[0]);
    if |parts| > 1 {
      SlashBehindFirst(parts);
      assert forall j :: 0 <= j < |head| ==> path[j] == head[j];
      assert |head| == |parts[0]|;
    }
  }

  lemma BelowInstructions(below: string)
    ensures CleanRelative("instructions/" + below) <==> CleanPath(below)
  {
    assert "instructions/" + below == "instructions" + "/" + below;
    OneName("instructions", below);
  }

  lemma BelowPrompts(below: string)
    ensures CleanRelative("glm-worker/prompts/" + below) <==> CleanPath(below)
  {
    assert "glm-worker/prompts/" + below == "glm-worker" + "/" + ("prompts" + "/" + below);
    OneName("prompts", below);
    OneName("glm-worker", "prompts" + "/" + below);
    AllCleanIff("prompts" + "/" + below);
  }

  lemma OneName(name: string, below: string)
    requires CleanPart(name)
    ensures CleanRelative(name + "/" + below) <==> CleanPath(below)
    ensures AllClean(name + "/" + below) <==> CleanPath(below)
  {
    MoreParts(name, below);
    AllCleanIff(below);
    assert (name + "/" + below)[|name|] == '/';
  }

  /** A clean path below this root. */
  ghost predicate Below(rel: string, root: string, below: string) {
    CleanPath(below) && rel == root + below
  }

  lemma PromptsIff(rel: string)
    ensures "glm-worker/prompts/" <= rel && CleanRelative(rel) <==> exists below :: Below(rel, "glm-worker/prompts/", below)
  {
    var root := "glm-worker/prompts/";
    if root <= rel {
      BelowPrompts(rel[|root|..]);
      assert rel == root + rel[|root|..];
      assert CleanRelative(rel) ==> Below(rel, root, rel[|root|..]);
    }
    forall below | Below(rel, root, below) ensures root <= rel && CleanRelative(rel) { BelowPrompts(below); }
  }

  lemma InstructionsIff(rel: string)
    ensures "instructions/" <= rel && CleanRelative(rel) <==> exists below :: Below(rel, "instructions/", below)
  {
    var root := "instructions/";
    if root <= rel {
      BelowInstructions(rel[|root|..]);
      assert rel == root + rel[|root|..];
      assert CleanRelative(rel) ==> Below(rel, root, rel[|root|..]);
    }
    forall below | Below(rel, root, below) ensures root <= rel && CleanRelative(rel) { BelowInstructions(below); }
  }

  /** The managed surfaces are the rules file and the clean paths below the two roots. */
  lemma SurfaceIff(rel: string)
    ensures ValidSurfacePath(Managed(rel)) <==>
              || rel == "rules/glm-worker.rules"
              || (exists below :: Below(rel, "instructions/", below)) || exists below :: Below(rel, "glm-worker/prompts/", below)
  {
    RulesAreClean();
    InstructionsIff(rel);
    PromptsIff(rel);
  }

  lemma RulesAreClean()
    ensures CleanRelative("rules/glm-worker.rules")
  {
    var file := "glm-worker.rules";
    assert "rules/glm-worker.rules" == "rules" + "/" + file;
    OneName("rules", file);
    OnePart(file);
    AllCleanIff(file);
  }
}
