/** Quality-gate run records shared by launchers, runners and observers.  Reading, checking and
    rewriting a record under its lock is one step; launchers hold the start lock over several. */
module QualityGate {
  import opened Results

  /** What makes two gate requests the same: form, repository, directory, snapshot and Darwin tests. */
  datatype Identity = Identity(form: string, repository: string, workingDir: string, head: string, index: string, worktree: string, darwin: seq<string>)

  datatype Status = Running | Passed | Failed | Interrupted

  datatype Record = Record(identity: Identity, status: Status, published: bool, startedAt: int)

  /** The runner of a run: started, at work after publishing its process, or gone. */
  datatype Runner = Started | AtWork | Exited

  datatype Launcher =
    | Away
    | Scanning(identity: Identity, left: set<nat>)
    | Cleared(identity: Identity)
    | Wrote(run: nat)
    | LaunchFailed(run: nat)
    | Waiting(run: nat)

  datatype State = State(records: map<nat, Record>, runners: map<nat, Runner>, launchers: map<nat, Launcher>, clock: int)

  datatype Event =
    | Acquire(identity: Identity)
    | Scan(run: nat)
    | GiveUp
    | Write(run: nat)
    | Launch(works: bool)
    | FailLaunch(works: bool)
    | Reconcile(run: nat, works: bool)
    | AfterWait(works: bool)
    | RunnerBegin(run: nat, works: bool)
    | RunnerComplete(run: nat, status: Status, works: bool)
    | RunnerDie(run: nat)
    | Tick(passed: nat)
    | Crash

  // In seconds.
  const STARTUP_GRACE := 30

  function LauncherOf(s: State, p: nat): Launcher {
    if p in s.launchers then s.launchers[p] else Away
  }

  predicate HoldsStart(l: Launcher) {
    l.Scanning? || l.Cleared? || l.Wrote?
  }

  /** The liveness probe is truthful: the published process is alive exactly while the runner works. */
  predicate Alive(s: State, run: nat) {
    run in s.runners && s.runners[run].AtWork?
  }

  /** The record after reconciling: interrupted if its runner is dead or never showed up in time. */
  function Reconciled(s: State, run: nat): Record
    requires run in s.records
  {
    var r := s.records[run];
    if r.status != Running then r
    else if r.published then if Alive(s, run) then r else r.(status := Interrupted)
    else if s.clock - r.startedAt >= STARTUP_GRACE then r.(status := Interrupted)
    else r
  }

  function Put(s: State, run: nat, r: Record): State {
    s.(records := s.records[run := r])
  }

  function At(s: State, p: nat, l: Launcher): State {
    s.(launchers := s.launchers[p := l])
  }

  function RunnerAt(s: State, run: nat, r: Runner): State {
    s.(runners := s.runners[run := r])
  }

  /** One step of launcher p, of a runner, of an observer or of time; None when it cannot happen. */
  function Next(s: State, p: nat, e: Event): Option<State> {
    var l := LauncherOf(s, p);
    match e
    case Acquire(identity) =>
      if l.Away? && forall q :: q in s.launchers ==> !HoldsStart(s.launchers[q])
      then Some(At(s, p, Scanning(identity, s.records.Keys))) else None
    case Scan(run) =>
      if !l.Scanning? then None
      else if l.left == {} then Some(At(s, p, Cleared(l.identity)))
      else if run !in l.left || run !in s.records then None
      else
        var r := Reconciled(s, run);
        if r.status == Running && r.identity == l.identity then Some(At(Put(s, run, r), p, Away))
        else Some(At(Put(s, run, r), p, Scanning(l.identity, l.left - {run})))
    case GiveUp => if l.Cleared? then Some(At(s, p, Away)) else None
    case Write(run) =>
      if l.Cleared? && run !in s.records
      then Some(At(Put(s, run, Record(l.identity, Running, false, s.clock)), p, Wrote(run))) else None
    case Launch(works) =>
      if !l.Wrote? then None
      else if works then Some(At(RunnerAt(s, l.run, Started), p, Waiting(l.run)))
      else Some(At(s, p, LaunchFailed(l.run)))
    case FailLaunch(works) =>
      if !l.LaunchFailed? || l.run !in s.records then None
      else Some(At(if works then Put(s, l.run, s.records[l.run].(status := Failed)) else s, p, Away))
    case Reconcile(run, works) =>
      if run !in s.records then None else Some(if works then Put(s, run, Reconciled(s, run)) else s)
    case AfterWait(works) =>
      if !l.Waiting? || l.run !in s.records || l.run !in s.runners || !s.runners[l.run].Exited? then None
      else
        var r := s.records[l.run];
        Some(At(if works && r.status == Running then Put(s, l.run, r.(status := Interrupted)) else s, p, Away))
    case RunnerBegin(run, works) =>
      if run !in s.runners || !s.runners[run].Started? || run !in s.records then None
      else if s.records[run].status != Running || !works then Some(RunnerAt(s, run, Exited))
      else Some(RunnerAt(Put(s, run, s.records[run].(published := true)), run, AtWork))
    case RunnerComplete(run, status, works) =>
      if status == Running || run !in s.runners || !s.runners[run].AtWork? || run !in s.records then None
      else Some(RunnerAt(if works then Put(s, run, s.records[run].(status := status)) else s, run, Exited))
    case RunnerDie(run) => if run in s.runners then Some(RunnerAt(s, run, Exited)) else None
    case Tick(passed) => Some(s.(clock := s.clock + passed))
    case Crash => Some(At(s, p, Away))
  }

  ghost predicate Step(s: State, s': State) {
    exists p, e :: Next(s, p, e) == Some(s')
  }

  ghost predicate Run(states: seq<State>) {
    && states != [] && states[0].records == map[] && states[0].runners == map[] && states[0].launchers == map[]
    && forall i :: 0 < i < |states| ==> Step(states[i - 1], states[i])
  }

  // ---------------------------------------------------------------- the invariant

  ghost predicate OneRunning(s: State) {
    forall a, b :: a in s.records && b in s.records && a != b && s.records[a].status == Running && s.records[b].status == Running ==>
      s.records[a].identity != s.records[b].identity
  }

  /** None of the runs is running for the identity. */
  ghost predicate Clear(s: State, runs: set<nat>, identity: Identity) {
    forall r :: r in runs && r in s.records && s.records[r].identity == identity ==> s.records[r].status != Running
  }

  ghost predicate LauncherFits(s: State, l: Launcher) {
    match l
    case Away => true
    case Scanning(identity, left) => left <= s.records.Keys && Clear(s, s.records.Keys - left, identity)
    case Cleared(identity) => Clear(s, s.records.Keys, identity)
    case Wrote(run) => run in s.records && run !in s.runners && !s.records[run].published
    case LaunchFailed(run) => run in s.records && run !in s.runners && !s.records[run].published
    case Waiting(run) => run in s.records && run in s.runners
  }

  ghost predicate Apart(s: State) {
    forall p, q :: p != q ==>
      && !(HoldsStart(LauncherOf(s, p)) && HoldsStart(LauncherOf(s, q)))
      && !(LauncherOf(s, p).Wrote? && LauncherOf(s, q).LaunchFailed? && LauncherOf(s, p).run == LauncherOf(s, q).run)
  }

  ghost predicate RunnersFit(s: State) {
    && (forall r :: r in s.runners ==> r in s.records)
    && (forall r :: r in s.runners && s.runners[r].Started? ==> !s.records[r].published)
    && (forall r :: r in s.runners && s.runners[r].AtWork? ==> s.records[r].published && s.records[r].status == Running)
    && (forall r :: r in s.records && s.records[r].published ==> r in s.runners)
  }

  ghost predicate Inv(s: State) {
    OneRunning(s) && Apart(s) && RunnersFit(s) && forall p :: LauncherFits(s, LauncherOf(s, p))
  }

  // ---------------------------------------------------------------- every step keeps it

  /** One record may have been settled or published; no new run, and none runs again. */
  ghost predicate Calm(s: State, s': State) {
    && s'.records.Keys == s.records.Keys
    && forall r :: r in s.records ==>
         && s'.records[r].identity == s.records[r].identity && (s.records[r].status != Running ==> s'.records[r].status != Running)
         && (s.records[r].published ==> s'.records[r].published)
  }

  lemma CalmKeepsClear(s: State, s': State, runs: set<nat>, identity: Identity)
    requires Calm(s, s') && Clear(s, runs, identity)
    ensures Clear(s', runs, identity)
  {
  }

  ghost predicate Unlaunched(s: State, l: Launcher) {
    l.Wrote? || l.LaunchFailed? ==> l.run in s.records && l.run !in s.runners && !s.records[l.run].published
  }

  /** Records and runners change calmly, no launcher moves. */
  lemma RecordsKeep(s: State, s': State)
    requires Inv(s) && Calm(s, s') && RunnersFit(s') && s'.launchers == s.launchers && s.runners.Keys <= s'.runners.Keys
    requires forall p :: Unlaunched(s', LauncherOf(s, p))
    ensures Inv(s')
  {
    CalmKeepsOne(s, s');
    forall p ensures LauncherFits(s', LauncherOf(s', p)) {
      var l := LauncherOf(s, p);
      assert LauncherFits(s, l) && Unlaunched(s', l) && LauncherOf(s', p) == l;
      if l.Scanning? { CalmKeepsClear(s, s', s.records.Keys - l.left, l.identity); }
      if l.Cleared? { CalmKeepsClear(s, s', s.records.Keys, l.identity); }
    }
    forall a, b | a != b
      ensures !(HoldsStart(LauncherOf(s', a)) && HoldsStart(LauncherOf(s', b)))
      ensures !(LauncherOf(s', a).Wrote? && LauncherOf(s', b).LaunchFailed? && LauncherOf(s', a).run == LauncherOf(s', b).run)
    {
      assert LauncherOf(s', a) == LauncherOf(s, a) && LauncherOf(s', b) == LauncherOf(s, b);
    }
  }

  ghost predicate Alone(s: State, p: nat) {
    forall q :: q != p ==> !HoldsStart(LauncherOf(s, q))
  }

  lemma HolderIsAlone(s: State, t: State, p: nat)
    requires Inv(s) && HoldsStart(LauncherOf(s, p)) && t.launchers == s.launchers
    ensures Alone(s, p) && Alone(t, p)
  {
    forall q | q != p ensures !HoldsStart(LauncherOf(t, q)) && !HoldsStart(LauncherOf(s, q)) {
      assert LauncherOf(t, q) == LauncherOf(s, q);
    }
  }

  /** One launcher moves, nothing else changes. */
  lemma MoveKeeps(s: State, p: nat, l: Launcher)
    requires Inv(s) && LauncherFits(s, l)
    requires HoldsStart(l) ==> Alone(s, p)
    requires !l.Wrote? || LauncherOf(s, p) == l
    requires l.LaunchFailed? ==> LauncherOf(s, p) == Wrote(l.run)
    ensures Inv(At(s, p, l))
  {
    var s' := At(s, p, l);
    forall q ensures LauncherFits(s', LauncherOf(s', q)) {
      assert LauncherFits(s, LauncherOf(s, q));
    }
    forall a, b | a != b
      ensures !(HoldsStart(LauncherOf(s', a)) && HoldsStart(LauncherOf(s', b)))
      ensures !(LauncherOf(s', a).Wrote? && LauncherOf(s', b).LaunchFailed? && LauncherOf(s', a).run == LauncherOf(s', b).run)
    {
      assert LauncherOf(s', a) == if a == p then l else LauncherOf(s, a);
      assert LauncherOf(s', b) == if b == p then l else LauncherOf(s, b);
      assert !(HoldsStart(LauncherOf(s, a)) && HoldsStart(LauncherOf(s, b)));
    }
  }

  lemma CalmKeepsOne(s: State, s': State)
    requires OneRunning(s) && Calm(s, s')
    ensures OneRunning(s')
  {
  }

  /** A record is settled or published in place. */
  lemma PutKeeps(s: State, run: nat, r: Record)
    requires Inv(s) && run in s.records && r.identity == s.records[run].identity && r.published == s.records[run].published
    requires s.records[run].status != Running ==> r.status != Running
    requires Alive(s, run) ==> r.status == Running
    ensures Inv(Put(s, run, r)) && Calm(s, Put(s, run, r))
  {
    var s' := Put(s, run, r);
    forall p ensures Unlaunched(s', LauncherOf(s, p)) { assert LauncherFits(s, LauncherOf(s, p)); }
    RecordsKeep(s, s');
  }

  lemma RunnerGoneKeeps(s: State, run: nat)
    requires Inv(s) && run in s.runners
    ensures Inv(RunnerAt(s, run, Exited))
  {
    var s' := RunnerAt(s, run, Exited);
    forall p ensures Unlaunched(s', LauncherOf(s, p)) { assert LauncherFits(s, LauncherOf(s, p)); }
    RecordsKeep(s, s');
  }

  lemma AcquireKeeps(s: State, p: nat, e: Event, s': State)
    requires Inv(s) && Next(s, p, e) == Some(s') && (e.Acquire? || e.GiveUp? || e.Crash?)
    ensures Inv(s')
  {
    MoveKeeps(s, p, LauncherOf(s', p));
  }

  lemma TickKeeps(s: State, passed: nat)
    requires Inv(s)
    ensures Inv(s.(clock := s.clock + passed))
  {
    var s' := s.(clock := s.clock + passed);
    forall p ensures Unlaunched(s', LauncherOf(s, p)) { assert LauncherFits(s, LauncherOf(s, p)); }
    RecordsKeep(s, s');
  }

  lemma ScanKeeps(s: State, p: nat, run: nat, s': State)
    requires Inv(s) && Next(s, p, Scan(run)) == Some(s')
    ensures Inv(s')
  {
    var l := LauncherOf(s, p);
    assert LauncherFits(s, l);
    HolderIsAlone(s, s, p);
    if l.left == {} {
      assert s.records.Keys - l.left == s.records.Keys;
      MoveKeeps(s, p, Cleared(l.identity));
    } else {
      var r := Reconciled(s, run);
      PutKeeps(s, run, r);
      var t := Put(s, run, r);
      if r.status == Running && r.identity == l.identity {
        MoveKeeps(t, p, Away);
      } else {
        CalmKeepsClear(s, t, s.records.Keys - l.left, l.identity);
        HolderIsAlone(s, t, p);
        MoveKeeps(t, p, Scanning(l.identity, l.left - {run}));
      }
    }
  }

  lemma WriteKeeps(s: State, p: nat, run: nat, s': State)
    requires Inv(s) && Next(s, p, Write(run)) == Some(s')
    ensures Inv(s')
  {
    var l := LauncherOf(s, p);
    assert LauncherFits(s, l);
    forall q ensures LauncherFits(s', LauncherOf(s', q)) {
      assert LauncherFits(s, LauncherOf(s, q));
      if q != p { assert !HoldsStart(LauncherOf(s, q)); }
    }
    forall a, b | a in s'.records && b in s'.records && a != b && s'.records[a].status == Running && s'.records[b].status == Running
      ensures s'.records[a].identity != s'.records[b].identity
    {
    }
    forall a, b | a != b
      ensures !(HoldsStart(LauncherOf(s', a)) && HoldsStart(LauncherOf(s', b)))
      ensures !(LauncherOf(s', a).Wrote? && LauncherOf(s', b).LaunchFailed? && LauncherOf(s', a).run == LauncherOf(s', b).run)
    {
      assert LauncherFits(s, LauncherOf(s, a)) && LauncherFits(s, LauncherOf(s, b));
    }
  }

  lemma LaunchKeeps(s: State, p: nat, works: bool, s': State)
    requires Inv(s) && Next(s, p, Launch(works)) == Some(s')
    ensures Inv(s')
  {
    var l := LauncherOf(s, p);
    assert LauncherFits(s, l);
    HolderIsAlone(s, s, p);
    if works {
      MoveKeeps(s, p, Away);
      StartKeeps(s, p, l.run);
      MoveKeeps(RunnerAt(At(s, p, Away), l.run, Started), p, Waiting(l.run));
      assert At(RunnerAt(At(s, p, Away), l.run, Started), p, Waiting(l.run)) == s';
    } else {
      MoveKeeps(s, p, LaunchFailed(l.run));
    }
  }

  lemma StartKeeps(s: State, p: nat, run: nat)
    requires Inv(s) && LauncherOf(s, p) == Wrote(run) && Alone(s, p) && Inv(At(s, p, Away))
    ensures Inv(RunnerAt(At(s, p, Away), run, Started))
  {
    var t := At(s, p, Away);
    var u := RunnerAt(t, run, Started);
    assert LauncherFits(s, Wrote(run)) by { assert LauncherFits(s, LauncherOf(s, p)); }
    forall q ensures Unlaunched(u, LauncherOf(t, q)) {
      assert LauncherFits(t, LauncherOf(t, q));
      if q != p { assert LauncherOf(t, q) == LauncherOf(s, q); }
    }
    RecordsKeep(t, u);
  }

  lemma LaunchEndKeeps(s: State, p: nat, e: Event, s': State)
    requires Inv(s) && Next(s, p, e) == Some(s') && (e.FailLaunch? || e.AfterWait?)
    ensures Inv(s')
  {
    var l := LauncherOf(s, p);
    assert LauncherFits(s, l);
    var r := s'.records[l.run];
    PutKeeps(s, l.run, r);
    assert Put(s, l.run, s.records[l.run]).records == s.records;
    MoveKeeps(Put(s, l.run, r), p, Away);
    assert At(Put(s, l.run, r), p, Away) == s';
  }

  lemma BeginKeeps(s: State, run: nat)
    requires Inv(s) && run in s.runners && s.runners[run].Started? && s.records[run].status == Running
    ensures Inv(RunnerAt(Put(s, run, s.records[run].(published := true)), run, AtWork))
  {
    var s' := RunnerAt(Put(s, run, s.records[run].(published := true)), run, AtWork);
    forall p ensures Unlaunched(s', LauncherOf(s, p)) { assert LauncherFits(s, LauncherOf(s, p)); }
    RecordsKeep(s, s');
  }

  lemma CompleteKeeps(s: State, run: nat, status: Status, works: bool)
    requires Inv(s) && run in s.runners && s.runners[run].AtWork? && status != Running
    ensures Inv(RunnerAt(if works then Put(s, run, s.records[run].(status := status)) else s, run, Exited))
  {
    RunnerGoneKeeps(s, run);
    if works {
      var t := RunnerAt(s, run, Exited);
      PutKeeps(t, run, t.records[run].(status := status));
      assert Put(t, run, t.records[run].(status := status)) == RunnerAt(Put(s, run, s.records[run].(status := status)), run, Exited);
    }
  }

  lemma RunnerKeeps(s: State, p: nat, e: Event, s': State)
    requires Inv(s) && Next(s, p, e) == Some(s') && (e.Reconcile? || e.RunnerBegin? || e.RunnerComplete? || e.RunnerDie?)
    ensures Inv(s')
  {
    match e
    case Reconcile(run, works) => PutKeeps(s, run, Reconciled(s, run));
    case RunnerBegin(run, works) =>
      if s.records[run].status != Running || !works { RunnerGoneKeeps(s, run); } else { BeginKeeps(s, run); }
    case RunnerComplete(run, status, works) => CompleteKeeps(s, run, status, works);
    case RunnerDie(run) => RunnerGoneKeeps(s, run);
  }

  lemma InvStep(s: State, p: nat, e: Event, s': State)
    requires Inv(s) && Next(s, p, e) == Some(s')
    ensures Inv(s')
  {
    match e
    case Scan(run) => ScanKeeps(s, p, run, s');
    case Write(run) => WriteKeeps(s, p, run, s');
    case Launch(works) => LaunchKeeps(s, p, works, s');
    case FailLaunch(_) => LaunchEndKeeps(s, p, e, s');
    case AfterWait(_) => LaunchEndKeeps(s, p, e, s');
    case Reconcile(_, _) => RunnerKeeps(s, p, e, s');
    case RunnerBegin(_, _) => RunnerKeeps(s, p, e, s');
    case RunnerComplete(_, _, _) => RunnerKeeps(s, p, e, s');
    case RunnerDie(_) => RunnerKeeps(s, p, e, s');
    case Tick(passed) => TickKeeps(s, passed);
    case _ => AcquireKeeps(s, p, e, s');
  }

  // ---------------------------------------------------------------- over every run

  lemma StepOf(states: seq<State>, i: nat)
    requires Run(states) && 0 < i < |states|
    ensures Step(states[i - 1], states[i])
  {
  }

  lemma {:induction false} RunKeeps(states: seq<State>, i: nat)
    requires Run(states) && i < |states|
    ensures Inv(states[i])
  {
    if i > 0 {
      RunKeeps(states, i - 1);
      StepOf(states, i);
      var p, e :| Next(states[i - 1], p, e) == Some(states[i]);
      InvStep(states[i - 1], p, e, states[i]);
    }
  }

  /** Over all interleavings of launchers, runners and observers, no two running records are of the
      same request. */
  lemma AtMostOneRunning(states: seq<State>, i: nat, a: nat, b: nat)
    requires Run(states) && i < |states| && a in states[i].records && b in states[i].records
    requires states[i].records[a].status == Running && states[i].records[b].status == Running
    requires states[i].records[a].identity == states[i].records[b].identity
    ensures a == b
  {
    RunKeeps(states, i);
  }

  /** The only step that changes a settled record is a failed launch's, and its run has no runner. */
  lemma SettledStep(s: State, p: nat, e: Event, s': State, run: nat)
    requires Inv(s) && Next(s, p, e) == Some(s') && run in s.records && s.records[run].status != Running
    ensures run in s'.records && s'.records[run].status != Running
    ensures s.records[run].published ==> s'.records[run] == s.records[run]
  {
    assert LauncherFits(s, LauncherOf(s, p));
  }

  ghost predicate SettledAs(s: State, run: nat, r: Record) {
    run in s.records && s.records[run] == r && r.published && r.status != Running
  }

  /** A published record that left running stays as it is for good. */
  lemma {:induction false} PublishedStaysSettled(states: seq<State>, i: nat, k: nat, run: nat, r: Record)
    requires Run(states) && i <= k < |states| && SettledAs(states[i], run, r)
    ensures SettledAs(states[k], run, r)
    decreases k
  {
    if i < k {
      PublishedStaysSettled(states, i, k - 1, run, r);
      StaysInRun(states, k, run, r);
    }
  }

  lemma StaysInRun(states: seq<State>, k: nat, run: nat, r: Record)
    requires Run(states) && 0 < k < |states| && SettledAs(states[k - 1], run, r)
    ensures SettledAs(states[k], run, r)
  {
    RunKeeps(states, k - 1);
    StepOf(states, k);
    StaysAStep(states[k - 1], states[k], run, r);
  }

  lemma StaysAStep(s: State, s': State, run: nat, r: Record)
    requires Inv(s) && Step(s, s') && SettledAs(s, run, r)
    ensures SettledAs(s', run, r)
  {
    var p, e :| Next(s, p, e) == Some(s');
    SettledStep(s, p, e, s', run);
  }

  /** A published record leaves running either by its own runner's result or, once that runner is
      gone, as interrupted; and once the runner is gone the next reconciliation settles it. */
  lemma HowRecordsSettle(states: seq<State>, i: nat, p: nat, e: Event, run: nat)
    requires Run(states) && i + 1 < |states| && Next(states[i], p, e) == Some(states[i + 1])
    requires run in states[i].records && states[i].records[run].published && states[i].records[run].status == Running
    ensures run in states[i + 1].records && run in states[i].runners
    ensures states[i + 1].records[run].status != Running ==>
              if states[i].runners[run].AtWork? then e == RunnerComplete(run, states[i + 1].records[run].status, true)
              else states[i + 1].records[run].status == Interrupted
    ensures states[i].runners[run].Exited? && (e == Reconcile(run, true) || (e == AfterWait(true) && LauncherOf(states[i], p) == Waiting(run))) ==>
              states[i + 1].records[run].status == Interrupted
  {
    RunKeeps(states, i);
    assert LauncherFits(states[i], LauncherOf(states[i], p));
  }

  // ---------------------------------------------------------------- one gate, start to end

  ghost function Take(s: State, p: nat, events: seq<Event>): Option<State>
    decreases |events|
  {
    if events == [] then Some(s)
    else
      var next := Next(s, p, events[0]);
      if next.None? then None else Take(next.value, p, events[1..])
  }

  lemma TakeOne(s: State, p: nat, e: Event, rest: seq<Event>)
    requires Next(s, p, e).Some?
    ensures Take(s, p, [e] + rest) == Take(Next(s, p, e).value, p, rest)
  {
    assert ([e] + rest)[1..] == rest;
  }

  lemma {:induction false} TakeBoth(s: State, p: nat, a: seq<Event>, b: seq<Event>)
    requires Take(s, p, a).Some?
    ensures Take(s, p, a + b) == Take(Take(s, p, a).value, p, b)
    decreases |a|
  {
    if a == [] {
      assert a + b == b;
    } else {
      assert (a + b)[0] == a[0] && (a + b)[1..] == a[1..] + b;
      TakeBoth(Next(s, p, a[0]).value, p, a[1..], b);
    }
  }

  /** A running record is settled as interrupted once its published runner is gone, or thirty seconds after its start
      when none was ever published; no other record changes. */
  lemma ReconcileSettles(s: State, p: nat, run: nat)
    requires run in s.records
    ensures var r := s.records[run];
            var dead := if r.published then !(run in s.runners && s.runners[run] == AtWork) else s.clock >= r.startedAt + 30;
            Next(s, p, Reconcile(run, true))
            == Some(s.(records := s.records[run := if r.status == Running && dead then r.(status := Interrupted) else r]))
  {
  }

  /** Some record is still running for the identity, and a scan would find it so. */
  ghost predicate Occupied(s: State, run: nat, identity: Identity) {
    run in s.records && s.records[run].identity == identity && Reconciled(s, run).status == Running
  }

  ghost function Scanned(s: State, p: nat, left: set<nat>, l: Launcher): State {
    s.(records := map r | r in s.records :: if r in left then Reconciled(s, r) else s.records[r], launchers := s.launchers[p := l])
  }

  /** A scan over records none of which is running for the identity reconciles them all and is then clear. */
  lemma {:induction false} ScanClears(s: State, p: nat, left: set<nat>, identity: Identity) returns (events: seq<Event>)
    requires left <= s.records.Keys && LauncherOf(s, p) == Scanning(identity, left)
    requires forall r :: r in left ==> !Occupied(s, r, identity)
    ensures Take(s, p, events) == Some(Scanned(s, p, left, Cleared(identity)))
    decreases |left|
  {
    if left == {} {
      events := [Scan(0)];
      TakeOne(s, p, Scan(0), []);
      assert [Scan(0)] + [] == events;
      assert Scanned(s, p, left, Cleared(identity)).records == s.records;
    } else {
      var r :| r in left;
      var s1 := At(Put(s, r, Reconciled(s, r)), p, Scanning(identity, left - {r}));
      assert Next(s, p, Scan(r)) == Some(s1);
      forall q | q in left - {r} ensures Reconciled(s1, q) == Reconciled(s, q) && !Occupied(s1, q, identity) { assert !Occupied(s, q, identity); }
      var rest := ScanClears(s1, p, left - {r}, identity);
      events := [Scan(r)] + rest;
      TakeOne(s, p, Scan(r), rest);
      ScannedOn(s, p, left, r, identity);
    }
  }

  lemma ScannedOn(s: State, p: nat, left: set<nat>, r: nat, identity: Identity)
    requires left <= s.records.Keys && r in left
    ensures Scanned(At(Put(s, r, Reconciled(s, r)), p, Scanning(identity, left - {r})), p, left - {r}, Cleared(identity))
            == Scanned(s, p, left, Cleared(identity))
  {
    var s1 := At(Put(s, r, Reconciled(s, r)), p, Scanning(identity, left - {r}));
    forall q | q in s.records && q != r ensures q in left ==> Reconciled(s1, q) == Reconciled(s, q) {}
    assert Scanned(s1, p, left - {r}, Cleared(identity)).records == Scanned(s, p, left, Cleared(identity)).records;
    assert s.launchers[p := Scanning(identity, left - {r})][p := Cleared(identity)] == s.launchers[p := Cleared(identity)];
  }

  lemma TakeFour(s: State, s1: State, s2: State, s3: State, s4: State, p: nat, a: Event, b: Event, c: Event, d: Event)
    requires Next(s, p, a) == Some(s1) && Next(s1, p, b) == Some(s2) && Next(s2, p, c) == Some(s3) && Next(s3, p, d) == Some(s4)
    ensures Take(s, p, [a, b, c, d]) == Some(s4)
  {
    TakeOne(s3, p, d, []);
    TakeOne(s2, p, c, [d]);
    TakeOne(s1, p, b, [c, d]);
    TakeOne(s, p, a, [b, c, d]);
    assert [d] + [] == [d] && [c, d] == [c] + [d] && [b, c, d] == [b] + [c, d] && [a, b, c, d] == [a] + [b, c, d];
  }

  /** From a cleared scan to the result: the record is the runner's, for the launcher's identity, published, and started
      when it was written. */
  lemma LaunchRuns(s: State, p: nat, identity: Identity, run: nat, status: Status)
    requires run !in s.records && status != Running && LauncherOf(s, p) == Cleared(identity)
    ensures Take(s, p, [Write(run), Launch(true), RunnerBegin(run, true), RunnerComplete(run, status, true)])
            == Some(State(s.records[run := Record(identity, status, true, s.clock)], s.runners[run := Exited], s.launchers[p := Waiting(run)], s.clock))
  {
    var s1 := At(Put(s, run, Record(identity, Running, false, s.clock)), p, Wrote(run));
    var s2 := At(RunnerAt(s1, run, Started), p, Waiting(run));
    var s3 := RunnerAt(Put(s2, run, Record(identity, Running, true, s.clock)), run, AtWork);
    var s4 := RunnerAt(Put(s3, run, Record(identity, status, true, s.clock)), run, Exited);
    assert Next(s, p, Write(run)) == Some(s1) && Next(s1, p, Launch(true)) == Some(s2);
    assert Next(s2, p, RunnerBegin(run, true)) == Some(s3) && Next(s3, p, RunnerComplete(run, status, true)) == Some(s4);
    TakeFour(s, s1, s2, s3, s4, p, Write(run), Launch(true), RunnerBegin(run, true), RunnerComplete(run, status, true));
    assert s4.records == s.records[run := Record(identity, status, true, s.clock)] && s4.runners == s.runners[run := Exited];
    assert s4.launchers == s.launchers[p := Waiting(run)];
  }

  /** Where nobody launches and no record is running for the identity, a launcher can scan, start its run and see it
      settle with its result. */
  lemma GateRuns(s: State, p: nat, identity: Identity, run: nat, status: Status) returns (scans: seq<Event>)
    requires LauncherOf(s, p).Away? && forall q :: q in s.launchers ==> !HoldsStart(s.launchers[q])
    requires run !in s.records && status != Running && forall r :: !Occupied(s, r, identity)
    ensures Take(s, p, [Acquire(identity)] + scans + [Write(run), Launch(true), RunnerBegin(run, true), RunnerComplete(run, status, true)]).Some?
    ensures var done := Take(s, p, [Acquire(identity)] + scans + [Write(run), Launch(true), RunnerBegin(run, true), RunnerComplete(run, status, true)]).value;
            && done.records.Keys == s.records.Keys + {run} && done.records[run] == Record(identity, status, true, s.clock)
            && forall r :: r in s.records ==> done.records[r] == Reconciled(s, r)
  {
    var s1 := At(s, p, Scanning(identity, s.records.Keys));
    assert Next(s, p, Acquire(identity)) == Some(s1);
    forall r | r in s.records ensures !Occupied(s1, r, identity) && Reconciled(s1, r) == Reconciled(s, r) { assert !Occupied(s, r, identity); }
    scans := ScanClears(s1, p, s.records.Keys, identity);
    var s2 := Scanned(s1, p, s.records.Keys, Cleared(identity));
    var rest := [Write(run), Launch(true), RunnerBegin(run, true), RunnerComplete(run, status, true)];
    LaunchRuns(s2, p, identity, run, status);
    TakeBoth(s1, p, scans, rest);
    TakeOne(s, p, Acquire(identity), scans + rest);
    assert [Acquire(identity)] + scans + rest == [Acquire(identity)] + (scans + rest);
  }

  /** A write that fails changes no record, and neither does giving up, a death or a crash. */
  lemma FailuresKeepRecords(s: State, p: nat, e: Event)
    requires Next(s, p, e).Some?
    requires match e
             case Launch(_) => true
             case FailLaunch(works) => !works
             case Reconcile(_, works) => !works
             case AfterWait(works) => !works
             case RunnerBegin(_, works) => !works
             case RunnerComplete(_, _, works) => !works
             case _ => e.GiveUp? || e.RunnerDie? || e.Crash? || e.Tick?
    ensures Next(s, p, e).value.records == s.records
  {
  }

  /** A launcher that gives up after its scan is away again, and nothing was started. */
  lemma GivesUp(s: State, p: nat, identity: Identity)
    requires LauncherOf(s, p) == Cleared(identity)
    ensures Take(s, p, [GiveUp]) == Some(At(s, p, Away))
  {
    TakeOne(s, p, GiveUp, []);
    assert [GiveUp] + [] == [GiveUp];
  }

  /** When its launch fails the record is settled as failed; when its runner dies, before or after it published itself,
      as interrupted by the waiting launcher; and then the launcher is away. */
  lemma BadLaunchSettles(s: State, p: nat, identity: Identity, run: nat, published: bool)
    requires run !in s.records && run !in s.runners && LauncherOf(s, p) == Cleared(identity)
    ensures Take(s, p, [Write(run), Launch(false), FailLaunch(true)])
            == Some(At(Put(s, run, Record(identity, Failed, false, s.clock)), p, Away))
    ensures Take(s, p, [Write(run), Launch(true)] + (if published then [RunnerBegin(run, true)] else []) + [RunnerDie(run), AfterWait(true)])
            == Some(At(RunnerAt(Put(s, run, Record(identity, Interrupted, published, s.clock)), run, Exited), p, Away))
  {
    var s1 := At(Put(s, run, Record(identity, Running, false, s.clock)), p, Wrote(run));
    assert Next(s, p, Write(run)) == Some(s1);
    LaunchFails(s, s1, p, identity, run);
    var s2 := At(RunnerAt(s1, run, Started), p, Waiting(run));
    assert Next(s1, p, Launch(true)) == Some(s2);
    TakeOne(s1, p, Launch(true), []);
    TakeOne(s, p, Write(run), [Launch(true)]);
    assert [Write(run)] + [Launch(true)] == [Write(run), Launch(true)] && [Launch(true)] + [] == [Launch(true)];
    RunnerFails(s, s2, p, identity, run, published);
    TakeBoth(s, p, [Write(run), Launch(true)], (if published then [RunnerBegin(run, true)] else []) + [RunnerDie(run), AfterWait(true)]);
    assert [Write(run), Launch(true)] + (if published then [RunnerBegin(run, true)] else []) + [RunnerDie(run), AfterWait(true)]
           == [Write(run), Launch(true)] + ((if published then [RunnerBegin(run, true)] else []) + [RunnerDie(run), AfterWait(true)]);
  }

  lemma LaunchFails(s: State, s1: State, p: nat, identity: Identity, run: nat)
    requires s1 == At(Put(s, run, Record(identity, Running, false, s.clock)), p, Wrote(run)) && Next(s, p, Write(run)) == Some(s1)
    ensures Take(s, p, [Write(run), Launch(false), FailLaunch(true)])
            == Some(At(Put(s, run, Record(identity, Failed, false, s.clock)), p, Away))
  {
    var s2 := At(s1, p, LaunchFailed(run));
    var s3 := At(Put(s2, run, Record(identity, Failed, false, s.clock)), p, Away);
    assert Next(s1, p, Launch(false)) == Some(s2) && Next(s2, p, FailLaunch(true)) == Some(s3);
    TakeOne(s2, p, FailLaunch(true), []);
    TakeOne(s1, p, Launch(false), [FailLaunch(true)]);
    TakeOne(s, p, Write(run), [Launch(false), FailLaunch(true)]);
    assert [FailLaunch(true)] + [] == [FailLaunch(true)] && [Launch(false)] + [FailLaunch(true)] == [Launch(false), FailLaunch(true)];
    assert [Write(run)] + [Launch(false), FailLaunch(true)] == [Write(run), Launch(false), FailLaunch(true)];
    assert s3.records == s.records[run := Record(identity, Failed, false, s.clock)] && s3.launchers == s.launchers[p := Away];
  }

  lemma RunnerFails(s: State, s2: State, p: nat, identity: Identity, run: nat, published: bool)
    requires run !in s.records && run !in s.runners
    requires s2 == At(RunnerAt(At(Put(s, run, Record(identity, Running, false, s.clock)), p, Wrote(run)), run, Started), p, Waiting(run))
    ensures Take(s2, p, (if published then [RunnerBegin(run, true)] else []) + [RunnerDie(run), AfterWait(true)])
            == Some(At(RunnerAt(Put(s, run, Record(identity, Interrupted, published, s.clock)), run, Exited), p, Away))
  {
    var s3 := if published then RunnerAt(Put(s2, run, Record(identity, Running, true, s.clock)), run, AtWork) else s2;
    if published {
      assert Next(s2, p, RunnerBegin(run, true)) == Some(s3);
      TakeOne(s2, p, RunnerBegin(run, true), [RunnerDie(run), AfterWait(true)]);
    } else {
      assert [] + [RunnerDie(run), AfterWait(true)] == [RunnerDie(run), AfterWait(true)];
    }
    RunnerDies(s3, p, run);
    SameSettled(s, s3, p, run, Record(identity, Interrupted, published, s.clock));
  }

  lemma SameSettled(s: State, t: State, p: nat, run: nat, r: Record)
    requires run in t.records && run in t.runners && p in t.launchers && t.runners == s.runners[run := t.runners[run]]
    requires t.records == s.records[run := t.records[run]] && t.launchers == s.launchers[p := t.launchers[p]] && t.clock == s.clock
    ensures At(RunnerAt(Put(t, run, r), run, Exited), p, Away) == At(RunnerAt(Put(s, run, r), run, Exited), p, Away)
  {
    var a, b := At(RunnerAt(Put(t, run, r), run, Exited), p, Away), At(RunnerAt(Put(s, run, r), run, Exited), p, Away);
    assert a.records == b.records && a.runners == b.runners && a.launchers == b.launchers;
  }

  lemma RunnerDies(s: State, p: nat, run: nat)
    requires LauncherOf(s, p) == Waiting(run) && run in s.runners && run in s.records && s.records[run].status == Running
    ensures Take(s, p, [RunnerDie(run), AfterWait(true)])
            == Some(At(RunnerAt(Put(s, run, s.records[run].(status := Interrupted)), run, Exited), p, Away))
  {
    var s1 := RunnerAt(s, run, Exited);
    var s2 := At(Put(s1, run, s.records[run].(status := Interrupted)), p, Away);
    assert Next(s, p, RunnerDie(run)) == Some(s1) && Next(s1, p, AfterWait(true)) == Some(s2);
    TakeOne(s1, p, AfterWait(true), []);
    TakeOne(s, p, RunnerDie(run), [AfterWait(true)]);
    assert [AfterWait(true)] + [] == [AfterWait(true)] && [RunnerDie(run)] + [AfterWait(true)] == [RunnerDie(run), AfterWait(true)];
  }
}
