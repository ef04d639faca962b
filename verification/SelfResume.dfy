/** The five-hour self-resume loop: wait for the reset of a rate limit, resume, and retry after the
    reset for a bounded time. */
module SelfResume {
  import opened Results

  // In seconds.
  const RETRY_INTERVAL := 10
  const RETRY_WINDOW := 120

  /** How a call of the model ends, as far as the loop looks at it. */
  datatype CallOutcome = Finished | RateLimited(boundary: string)

  datatype LoopEnd = Returned | Refused | Interrupted | StillRunning

  datatype Attempt = Attempt(boundary: string, startedAt: int, postReset: bool)

  /** When the limit with this reset boundary may be retried; None for an unusable boundary. */
  type Resumption = f: string -> Option<int> | f("").None? witness (_ => None)

  /** The clock, the stop request and the calls, all outside the loop's control.  Time does not go
      back, and a wait that is not stopped lasts until its target.  `outcomes` are the results of all calls so
      far; `disturbed` says that a wait was stopped or a state check failed. */
  class World {
    var time: int
    ghost var attempts: seq<Attempt>
    ghost var outcomes: seq<CallOutcome>
    ghost var disturbed: bool

    constructor ()
      ensures attempts == [] && outcomes == [] && !disturbed
    {
      time, attempts, outcomes, disturbed := *, [], [], false;
    }

    method Pass()
      modifies this`time
      ensures old(time) <= time
    {
      var passed: int := *;
      if passed > 0 { time := time + passed; }
    }

    method Now() returns (t: int)
      modifies this`time
      ensures old(time) <= t == time
    {
      Pass();
      t := time;
    }

    method Wait(target: int) returns (stopped: bool)
      modifies this`time, this`disturbed
      ensures old(time) <= time && (!stopped ==> target <= time)
      ensures disturbed <==> old(disturbed) || stopped
    {
      stopped := *;
      Pass();
      disturbed := disturbed || stopped;
      if !stopped && time < target { time := target; }
    }

    method Call() returns (outcome: CallOutcome)
      modifies this`time, this`outcomes
      ensures old(time) <= time && outcomes == old(outcomes) + [outcome]
    {
      var limited: bool, boundary: string := *, *;
      Pass();
      outcome := if limited then RateLimited(boundary) else Finished;
      outcomes := outcomes + [outcome];
    }

    method Resume(ghost boundary: string, startedAt: int, ghost postReset: bool) returns (outcome: CallOutcome)
      requires startedAt <= time
      modifies this`time, this`attempts, this`outcomes
      ensures old(time) <= time && attempts == old(attempts) + [Attempt(boundary, startedAt, postReset)]
      ensures outcomes == old(outcomes) + [outcome]
    {
      attempts := attempts + [Attempt(boundary, startedAt, postReset)];
      outcome := Call();
    }

    /** The task is still the rate-limited one the error was about. */
    method StateValid() returns (valid: bool)
      modifies this`disturbed
      ensures disturbed <==> old(disturbed) || !valid
    {
      valid := *;
      disturbed := disturbed || !valid;
    }
  }

  // ---------------------------------------------------------------- the discipline of attempts

  ghost predicate Before(attempts: seq<Attempt>, k: nat, boundary: string) {
    exists i :: 0 <= i < k && i < |attempts| && attempts[i].boundary == boundary
  }

  /** The k-th attempt, made while the one before it started at `previous`. */
  ghost predicate AttemptFits(attempts: seq<Attempt>, k: nat, previous: int, resumeAt: Resumption)
    requires k < |attempts|
  {
    var a := attempts[k];
    && resumeAt(a.boundary).Some? && resumeAt(a.boundary).value <= a.startedAt && previous <= a.startedAt
    && (a.postReset ==> previous + RETRY_INTERVAL <= a.startedAt)
    && (a.postReset ==> previous < resumeAt(a.boundary).value + RETRY_WINDOW)
    && (Before(attempts, k, a.boundary) ==> a.postReset && k > 0 && attempts[k - 1].boundary == a.boundary)
  }

  function PreviousStart(attempts: seq<Attempt>, k: nat, initial: int): int
    requires k <= |attempts|
  {
    if k == 0 then initial else attempts[k - 1].startedAt
  }

  ghost predicate Disciplined(attempts: seq<Attempt>, initial: int, resumeAt: Resumption) {
    forall k :: 0 <= k < |attempts| ==> AttemptFits(attempts, k, PreviousStart(attempts, k, initial), resumeAt)
  }

  function CountFor(attempts: seq<Attempt>, boundary: string): nat {
    if attempts == [] then 0
    else
      var n := |attempts| - 1;
      CountFor(attempts[..n], boundary) + if attempts[n].boundary == boundary then 1 else 0
  }

  lemma AppendDisciplined(attempts: seq<Attempt>, a: Attempt, initial: int, resumeAt: Resumption)
    requires Disciplined(attempts, initial, resumeAt)
    requires AttemptFits(attempts + [a], |attempts|, PreviousStart(attempts, |attempts|, initial), resumeAt)
    ensures Disciplined(attempts + [a], initial, resumeAt)
  {
    var all := attempts + [a];
    forall k | 0 <= k < |all| ensures AttemptFits(all, k, PreviousStart(all, k, initial), resumeAt) {
      if k < |attempts| {
        assert AttemptFits(attempts, k, PreviousStart(attempts, k, initial), resumeAt);
        assert Before(all, k, all[k].boundary) ==> Before(attempts, k, attempts[k].boundary);
      }
    }
  }

  lemma PrefixDisciplined(attempts: seq<Attempt>, n: nat, initial: int, resumeAt: Resumption)
    requires Disciplined(attempts, initial, resumeAt) && n <= |attempts|
    ensures Disciplined(attempts[..n], initial, resumeAt)
  {
    forall k | 0 <= k < n ensures AttemptFits(attempts[..n], k, PreviousStart(attempts[..n], k, initial), resumeAt) {
      assert AttemptFits(attempts, k, PreviousStart(attempts, k, initial), resumeAt);
      assert Before(attempts[..n], k, attempts[k].boundary) ==> Before(attempts, k, attempts[k].boundary);
    }
  }

  lemma {:induction false} CountedIsBefore(attempts: seq<Attempt>, boundary: string)
    requires CountFor(attempts, boundary) > 0
    ensures Before(attempts, |attempts|, boundary)
  {
    var n := |attempts| - 1;
    if attempts[n].boundary != boundary {
      CountedIsBefore(attempts[..n], boundary);
      var i :| 0 <= i < n && attempts[..n][i].boundary == boundary;
      assert attempts[i].boundary == boundary;
    }
  }

  /** At most thirteen attempts for one reset boundary; while they go on, each adds ten seconds. */
  lemma {:induction false} AttemptsAreBounded(attempts: seq<Attempt>, boundary: string, initial: int, resumeAt: Resumption)
    requires Disciplined(attempts, initial, resumeAt)
    ensures CountFor(attempts, boundary) <= RETRY_WINDOW / RETRY_INTERVAL + 1
    ensures attempts != [] && attempts[|attempts| - 1].boundary == boundary ==>
              && resumeAt(boundary).Some?
              && resumeAt(boundary).value + RETRY_INTERVAL * (CountFor(attempts, boundary) - 1) <= attempts[|attempts| - 1].startedAt
  {
    if attempts != [] {
      var n := |attempts| - 1;
      PrefixDisciplined(attempts, n, initial, resumeAt);
      AttemptsAreBounded(attempts[..n], boundary, initial, resumeAt);
      assert AttemptFits(attempts, n, PreviousStart(attempts, n, initial), resumeAt);
      if attempts[n].boundary == boundary && CountFor(attempts[..n], boundary) > 0 {
        CountedIsBefore(attempts[..n], boundary);
        assert Before(attempts, n, boundary);
      }
    }
  }

  // ---------------------------------------------------------------- the loop

  /** Fails for an unusable boundary, one already passed that is not the one waited for, or an
      exhausted window; otherwise whether the reset has passed. */
  function ClassifyRetry(lastBoundary: string, boundary: string, now: int, resumeAt: Resumption): Result<bool> {
    if resumeAt(boundary).None? then Fail
    else if resumeAt(boundary).value > now then Ok(false)
    else if lastBoundary != "" && lastBoundary != boundary then Fail
    else if now >= resumeAt(boundary).value + RETRY_WINDOW then Fail
    else Ok(true)
  }

  /** The verdict by the time that has passed: ahead of the reset the loop waits; in the two minutes from the reset on
      it retries the boundary it waited for last, or its first one; anything else ends it. */
  lemma ClassifyIff(lastBoundary: string, boundary: string, now: int, resumeAt: Resumption)
    ensures ClassifyRetry(lastBoundary, boundary, now, resumeAt) == Ok(false) <==>
              resumeAt(boundary).Some? && now < resumeAt(boundary).value
    ensures ClassifyRetry(lastBoundary, boundary, now, resumeAt) == Ok(true) <==>
              resumeAt(boundary).Some? && 0 <= now - resumeAt(boundary).value < 120 && lastBoundary in ["", boundary]
    ensures ClassifyRetry(lastBoundary, boundary, now, resumeAt).Fail? <==> Hopeless(lastBoundary, boundary, now, resumeAt)
  {
  }

  /** There is nothing to wait for: the boundary is unusable, or it has passed and is not the one waited for last, or
      passed two minutes ago or more. */
  ghost predicate Hopeless(lastBoundary: string, boundary: string, now: int, resumeAt: Resumption) {
    || resumeAt(boundary).None?
    || (resumeAt(boundary).value <= now && lastBoundary != "" && lastBoundary != boundary)
    || resumeAt(boundary).value + 120 <= now
  }

  method WaitForReset(world: World, boundary: string, resumeAt: Resumption) returns (end: Option<LoopEnd>)
    requires resumeAt(boundary).Some?
    modifies world`time, world`disturbed
    ensures old(world.time) <= world.time
    ensures world.disturbed <==> old(world.disturbed) || end.Some?
    ensures end.None? ==> resumeAt(boundary).value <= world.time
    ensures end.Some? ==> end.value == Refused || end.value == Interrupted
  {
    var valid := world.StateValid();
    if !valid { return Some(Refused); }
    var now := world.Now();
    if resumeAt(boundary).value > now {
      var stopped := world.Wait(resumeAt(boundary).value);
      if stopped { return Some(Interrupted); }
    }
    valid := world.StateValid();
    if !valid { return Some(Refused); }
    return None;
  }

  method WaitForSpacing(world: World, postReset: bool, lastAttemptStartedAt: int) returns (end: Option<LoopEnd>)
    modifies world`time, world`disturbed
    ensures old(world.time) <= world.time
    ensures world.disturbed <==> old(world.disturbed) || end.Some?
    ensures end.None? && postReset ==> lastAttemptStartedAt + RETRY_INTERVAL <= world.time
    ensures end.Some? ==> end.value == Refused || end.value == Interrupted
  {
    if !postReset { return None; }
    var now := world.Now();
    if lastAttemptStartedAt + RETRY_INTERVAL > now {
      var stopped := world.Wait(lastAttemptStartedAt + RETRY_INTERVAL);
      if stopped { return Some(Interrupted); }
    }
    var valid := world.StateValid();
    if !valid { return Some(Refused); }
    return None;
  }

  /** Every attempt answers a call that ended rate-limited, and is for the boundary of that call. */
  ghost predicate ResumesFor(attempts: seq<Attempt>, outcomes: seq<CallOutcome>) {
    && |outcomes| == |attempts| + 1
    && forall k :: 0 <= k < |attempts| ==> outcomes[k] == RateLimited(attempts[k].boundary)
  }

  /** The loop stops after a call that was not rate-limited, or once there is nothing to wait for; undisturbed it goes on
      in every other case. */
  ghost predicate EndsRightly(end: LoopEnd, world: World, calls: nat, resumeAt: Resumption)
    reads world
  {
    var n := |world.attempts|;
    && n < |world.outcomes|
    && (end == StillRunning <==> n == calls)
    && (end == Returned <==> n < calls && world.outcomes[n].Finished?)
    && (!world.disturbed && n < calls && world.outcomes[n].RateLimited? ==>
          && end == Refused
          && exists now :: now <= world.time && Hopeless(LastBoundary(world.attempts), world.outcomes[n].boundary, now, resumeAt))
  }

  ghost function LastBoundary(attempts: seq<Attempt>): string {
    if attempts == [] then "" else attempts[|attempts| - 1].boundary
  }

  /** The loop, watched for any number of resume calls: whatever they return and however long
      everything takes, the attempts made so far are disciplined, hence bounded per boundary; each answers a
      rate limit; and undisturbed the loop makes one wherever there is something to wait for. */
  method RunSelfResume(world: World, resumeAt: Resumption, calls: nat) returns (end: LoopEnd, initial: int)
    requires world.attempts == [] && world.outcomes == [] && !world.disturbed
    modifies world
    ensures Disciplined(world.attempts, initial, resumeAt)
    ensures ResumesFor(world.attempts, world.outcomes)
    ensures EndsRightly(end, world, calls, resumeAt)
    ensures forall boundary :: CountFor(world.attempts, boundary) <= 13
    ensures forall k :: 0 <= k < |world.attempts| && world.attempts[k].postReset ==>
              PreviousStart(world.attempts, k, initial) + 10 <= world.attempts[k].startedAt
    ensures end == StillRunning ==> |world.attempts| == calls
  {
    initial := world.Now();
    var outcome := world.Call();
    end := ResumeLoop(world, resumeAt, calls, initial, outcome);
    forall boundary ensures CountFor(world.attempts, boundary) <= 13 {
      AttemptsAreBounded(world.attempts, boundary, initial, resumeAt);
    }
    forall k | 0 <= k < |world.attempts| && world.attempts[k].postReset
      ensures PreviousStart(world.attempts, k, initial) + 10 <= world.attempts[k].startedAt
    {
      assert AttemptFits(world.attempts, k, PreviousStart(world.attempts, k, initial), resumeAt);
    }
  }

  method ResumeLoop(world: World, resumeAt: Resumption, calls: nat, initial: int, first: CallOutcome) returns (end: LoopEnd)
    requires world.attempts == [] && world.outcomes == [first] && !world.disturbed && initial <= world.time
    modifies world
    ensures Disciplined(world.attempts, initial, resumeAt)
    ensures ResumesFor(world.attempts, world.outcomes)
    ensures EndsRightly(end, world, calls, resumeAt)
  {
    var outcome, lastBoundary, lastAttemptStartedAt := first, "", initial;
    for n := 0 to calls
      invariant |world.attempts| == n && lastAttemptStartedAt == PreviousStart(world.attempts, n, initial) <= world.time
      invariant n == 0 ==> lastBoundary == ""
      invariant n > 0 ==> lastBoundary == world.attempts[n - 1].boundary != ""
      invariant Disciplined(world.attempts, initial, resumeAt)
      invariant ResumesFor(world.attempts, world.outcomes) && world.outcomes[n] == outcome
      invariant !world.disturbed && lastBoundary == LastBoundary(world.attempts)
    {
      if outcome.Finished? { return Returned; }
      var boundary := outcome.boundary;
      var now := world.Now();
      var postReset := ClassifyRetry(lastBoundary, boundary, now, resumeAt);
      if postReset.Fail? {
        assert Hopeless(lastBoundary, boundary, now, resumeAt);
        return Refused;
      }
      var stop := WaitForReset(world, boundary, resumeAt);
      if stop.Some? { return stop.value; }
      stop := WaitForSpacing(world, postReset.value, lastAttemptStartedAt);
      if stop.Some? { return stop.value; }
      ghost var before, previous := world.attempts, lastAttemptStartedAt;
      lastBoundary := boundary;
      lastAttemptStartedAt := world.Now();
      ghost var a := Attempt(boundary, lastAttemptStartedAt, postReset.value);
      NextFits(before, a, initial, previous, now, resumeAt);
      AppendDisciplined(before, a, initial, resumeAt);
      outcome := world.Resume(boundary, lastAttemptStartedAt, postReset.value);
    }
    end := StillRunning;
  }

  /** A boundary attempted before has passed, so only the last one can come again. */
  lemma NextFits(attempts: seq<Attempt>, a: Attempt, initial: int, previous: int, now: int, resumeAt: Resumption)
    requires Disciplined(attempts, initial, resumeAt) && previous == PreviousStart(attempts, |attempts|, initial) <= now <= a.startedAt
    requires var last := if attempts == [] then "" else attempts[|attempts| - 1].boundary;
             ClassifyRetry(last, a.boundary, now, resumeAt) == Ok(a.postReset) && (attempts != [] ==> last != "")
    requires resumeAt(a.boundary).value <= a.startedAt && (a.postReset ==> previous + RETRY_INTERVAL <= a.startedAt)
    ensures AttemptFits(attempts + [a], |attempts|, previous, resumeAt)
  {
    var all := attempts + [a];
    if Before(all, |attempts|, a.boundary) {
      var i :| 0 <= i < |attempts| && all[i].boundary == a.boundary;
      StartsGrow(attempts, i, |attempts| - 1, initial, resumeAt);
      assert AttemptFits(attempts, i, PreviousStart(attempts, i, initial), resumeAt);
    }
  }

  lemma {:induction false} StartsGrow(attempts: seq<Attempt>, i: nat, k: nat, initial: int, resumeAt: Resumption)
    requires Disciplined(attempts, initial, resumeAt) && i <= k < |attempts|
    ensures attempts[i].startedAt <= attempts[k].startedAt
    decreases k
  {
    if i < k {
      assert AttemptFits(attempts, k, PreviousStart(attempts, k, initial), resumeAt);
      StartsGrow(attempts, i, k - 1, initial, resumeAt);
    }
  }

  // ---------------------------------------------------------------- the bound is exact

  function Retries(boundary: string, at: int, n: nat): seq<Attempt> {
    seq(n, k requires 0 <= k < n => Attempt(boundary, at + RETRY_INTERVAL * k, k > 0))
  }

  /** Thirteen attempts happen when every call fails at once. */
  lemma ThirteenAttemptsFit(boundary: string, at: int, initial: int, resumeAt: Resumption)
    requires resumeAt(boundary) == Some(at) && initial <= at
    ensures Disciplined(Retries(boundary, at, 13), initial, resumeAt)
    ensures CountFor(Retries(boundary, at, 13), boundary) == 13
  {
    var all := Retries(boundary, at, 13);
    forall k | 0 <= k < |all| ensures AttemptFits(all, k, PreviousStart(all, k, initial), resumeAt) {}
    RetriesCount(boundary, at, 13);
  }

  lemma {:induction false} RetriesCount(boundary: string, at: int, n: nat)
    ensures CountFor(Retries(boundary, at, n), boundary) == n
  {
    if n > 0 {
      RetriesCount(boundary, at, n - 1);
      assert Retries(boundary, at, n)[..n - 1] == Retries(boundary, at, n - 1);
    }
  }
}
