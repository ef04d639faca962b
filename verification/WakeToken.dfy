/** Wake-token files shared by concurrent processes: a token is active, in flight or being delivered
    according to the name of its file.  Processes interleave between file operations, any operation
    may fail, and any process may die, which frees its lock. */
module WakeToken {
  import opened Results

  /** A token, by the nonce of its plan and its position in the chain of transactions. */
  datatype Token = Token(nonce: string, rank: nat)

  function Successor(t: Token): Token {
    Token(t.nonce, t.rank + 1)
  }

  /** Where a process stands, between two file operations. */
  datatype Process =
    | Idle
    | Planned(token: Token)
    | Locked(token: Token)
    | Claimed(token: Token)
    | Persisted(token: Token, successor: Option<Token>)
    | Marked(token: Token, successor: Option<Token>)
    | Sent(token: Token)
    | Undoing(token: Token, successor: Option<Token>, marked: bool)
    | Restoring(token: Token, removed: Option<Token>, marked: bool)

  /** The files by name, and the processes.  `known` are the tokens some complete output carried,
      `consumed` those whose response was completely delivered, `nonces` those drawn so far. */
  datatype State = State(
    active: set<Token>, inflight: set<Token>, delivering: set<Token>, processes: map<nat, Process>,
    known: set<Token>, consumed: set<Token>, nonces: set<string>)

  function ProcessOf(s: State, p: nat): Process {
    if p in s.processes then s.processes[p] else Idle
  }

  /** The process is between acquiring and releasing the lock of the token. */
  predicate Holds(process: Process, t: Token) {
    match process
    case Idle => false
    case Planned(_) => false
    case _ => process.token == t
  }

  datatype Event =
    | Plan(token: Token)
    | PlanWritten
    | PlanFailed(removed: bool)
    | Begin(token: Token)
    | Claim(works: bool)
    | Advance(valid: bool, persists: bool, works: bool)
    | Mark(works: bool)
    | Deliver(complete: bool)
    | Commit(works: bool)
    | Undo(works: bool)
    | Restore(works: bool)
    | Crash

  function At(s: State, p: nat, process: Process): State {
    s.(processes := s.processes[p := process])
  }

  /** One step of process p; None when the process cannot take it now. */
  function Next(s: State, p: nat, e: Event): Option<State> {
    var process := ProcessOf(s, p);
    match e
    case Plan(t) =>
      if process.Idle? && t.nonce !in s.nonces
      then Some(At(s.(active := s.active + {t}, nonces := s.nonces + {t.nonce}), p, Planned(t))) else None
    case PlanWritten =>
      if process.Planned? then Some(At(s.(known := s.known + {process.token}), p, Idle)) else None
    case PlanFailed(removed) =>
      if process.Planned?
      then Some(At(if removed then s.(active := s.active - {process.token}) else s, p, Idle)) else None
    case Begin(t) =>
      if process.Idle? && t in s.known && forall q :: q in s.processes ==> !Holds(s.processes[q], t)
      then Some(At(s, p, Locked(t))) else None
    case Claim(works) =>
      if !process.Locked? then None
      else
        var t := process.token;
        if t in s.active then
          Some(if works then At(s.(active := s.active - {t}, inflight := s.inflight + {t}), p, Claimed(t)) else At(s, p, Idle))
        else if t in s.inflight then Some(At(s, p, Claimed(t)))
        else Some(At(s, p, Idle))
    case Advance(valid, persists, works) =>
      if !process.Claimed? then None
      else
        var t := process.token;
        if !valid then Some(At(s, p, Undoing(t, None, false)))
        else if !persists then Some(At(s, p, Persisted(t, None)))
        else if Successor(t) in s.active || !works then Some(At(s, p, Undoing(t, Some(Successor(t)), false)))
        else Some(At(s.(active := s.active + {Successor(t)}), p, Persisted(t, Some(Successor(t)))))
    case Mark(works) =>
      if !process.Persisted? then None
      else
        var t := process.token;
        Some(if works
             then At(s.(inflight := s.inflight - {t}, delivering := s.delivering + {t}), p, Marked(t, process.successor))
             else At(s, p, Undoing(t, process.successor, false)))
    case Deliver(complete) =>
      if !process.Marked? then None
      else
        var t := process.token;
        if !complete then Some(At(s, p, Undoing(t, process.successor, true)))
        else
          var learned := if process.successor.Some? then {process.successor.value} else {};
          Some(At(s.(consumed := s.consumed + {t}, known := s.known + learned), p, Sent(t)))
    case Commit(works) =>
      if !process.Sent? then None
      else Some(At(if works then s.(delivering := s.delivering - {process.token}) else s, p, Idle))
    case Undo(works) =>
      if !process.Undoing? then None
      else
        var s' := if works && process.successor.Some? then s.(active := s.active - {process.successor.value}) else s;
        Some(At(s', p, Restoring(process.token, if works then process.successor else None, process.marked)))
    case Restore(works) =>
      if !process.Restoring? then None
      else
        var t := process.token;
        var s' := if !works then s
                  else if process.marked then s.(delivering := s.delivering - {t}, active := s.active + {t})
                  else s.(inflight := s.inflight - {t}, active := s.active + {t});
        Some(At(s', p, Idle))
    case Crash => Some(At(s, p, Idle))
  }

  ghost predicate Step(s: State, s': State) {
    exists p, e :: Next(s, p, e) == Some(s')
  }

  const EMPTY := State({}, {}, {}, map[], {}, {}, {})

  ghost predicate Run(states: seq<State>) {
    states != [] && states[0] == EMPTY && forall i :: 0 < i < |states| ==> Step(states[i - 1], states[i])
  }

  // ---------------------------------------------------------------- the invariant

  /** What a process may rely on about its own token and the successor it made. */
  ghost predicate ProcessFits(s: State, process: Process) {
    match process
    case Idle => true
    case Planned(t) => t !in s.known && t.nonce in s.nonces && t in s.active && forall u :: u in s.known ==> u.nonce != t.nonce
    case Locked(t) => t in s.known
    case Claimed(t) => t in s.known - s.consumed && t in s.inflight
    case Persisted(t, successor) =>
      t in s.known - s.consumed && t in s.inflight && SuccessorFits(s, t, successor) && (successor.Some? ==> Successor(t) in s.active)
    case Marked(t, successor) =>
      t in s.known - s.consumed && t in s.delivering && SuccessorFits(s, t, successor) && (successor.Some? ==> Successor(t) in s.active)
    case Sent(t) => t in s.consumed && t in s.delivering
    case Undoing(t, successor, marked) =>
      t in s.known - s.consumed && t in (if marked then s.delivering else s.inflight) && SuccessorFits(s, t, successor)
    case Restoring(t, removed, marked) =>
      t in s.known - s.consumed && t in (if marked then s.delivering else s.inflight) && SuccessorFits(s, t, removed)
      && (removed.Some? ==> Successor(t) !in s.active)
  }

  ghost predicate SuccessorFits(s: State, t: Token, successor: Option<Token>) {
    successor.Some? ==> successor.value == Successor(t) && Successor(t) !in s.known
  }

  ghost predicate Exclusive(s: State) {
    && (forall p, q, t :: p != q && Holds(ProcessOf(s, p), t) ==> !Holds(ProcessOf(s, q), t))
    && (forall p, q :: p != q && ProcessOf(s, p).Planned? && ProcessOf(s, q).Planned? ==>
          ProcessOf(s, p).token.nonce != ProcessOf(s, q).token.nonce)
  }

  ghost predicate FilesFit(s: State) {
    && s.active !! s.inflight !! s.delivering
    && s.inflight <= s.known && s.delivering <= s.known && s.consumed <= s.known
    && s.consumed !! s.active && s.consumed !! s.inflight
    && s.known - s.consumed <= s.active + s.inflight + s.delivering
    && (forall t :: t in s.active || t in s.known ==> t.nonce in s.nonces)
    && (forall t, u :: t in s.known && u in s.known && t.nonce == u.nonce && t.rank < u.rank ==> t in s.consumed)
  }

  ghost predicate Inv(s: State) {
    FilesFit(s) && Exclusive(s) && forall p :: ProcessFits(s, ProcessOf(s, p))
  }

  lemma InvStart()
    ensures Inv(EMPTY)
  {
  }

  // ---------------------------------------------------------------- every step keeps it

  /** Only p moved, and what the others rely on is as before. */
  ghost predicate OthersFit(s: State, p: nat, s': State) {
    && (forall q :: q != p ==> ProcessOf(s', q) == ProcessOf(s, q))
    && (forall q :: q != p ==> ProcessFits(s', ProcessOf(s, q)))
  }

  lemma Conclude(s: State, p: nat, s': State)
    requires Inv(s) && FilesFit(s') && OthersFit(s, p, s') && ProcessFits(s', ProcessOf(s', p))
    requires forall t :: Holds(ProcessOf(s', p), t) ==> Holds(ProcessOf(s, p), t) || forall q :: !Holds(ProcessOf(s, q), t)
    requires ProcessOf(s', p).Planned? ==> ProcessOf(s, p) == ProcessOf(s', p) || ProcessOf(s', p).token.nonce !in s.nonces
    ensures Inv(s')
  {
    forall q ensures ProcessFits(s', ProcessOf(s', q)) {}
    forall q, r, t | q != r && Holds(ProcessOf(s', q), t) ensures !Holds(ProcessOf(s', r), t) {}
    forall q, r | q != r && ProcessOf(s', q).Planned? && ProcessOf(s', r).Planned?
      ensures ProcessOf(s', q).token.nonce != ProcessOf(s', r).token.nonce
    {
      assert ProcessFits(s, ProcessOf(s, q)) && ProcessFits(s, ProcessOf(s, r));
    }
  }

  /** Two processes that hold different tokens made different successors. */
  lemma Apart(s: State, p: nat, q: nat)
    requires Inv(s) && p != q && !ProcessOf(s, p).Idle? && !ProcessOf(s, q).Idle?
    ensures ProcessOf(s, p).token != ProcessOf(s, q).token
    ensures Successor(ProcessOf(s, p).token) != Successor(ProcessOf(s, q).token)
    ensures ProcessOf(s, p).Planned? ==> ProcessOf(s, p).token.nonce != ProcessOf(s, q).token.nonce
  {
    assert ProcessFits(s, ProcessOf(s, p)) && ProcessFits(s, ProcessOf(s, q));
    if !ProcessOf(s, p).Planned? {
      assert Holds(ProcessOf(s, p), ProcessOf(s, p).token);
    }
  }

  lemma PlanKeeps(s: State, p: nat, e: Event, s': State)
    requires Inv(s) && Next(s, p, e) == Some(s') && (e.Plan? || e.PlanWritten? || e.PlanFailed?)
    ensures Inv(s')
  {
    assert ProcessFits(s, ProcessOf(s, p));
    forall q | q != p ensures ProcessOf(s', q) == ProcessOf(s, q) && ProcessFits(s', ProcessOf(s, q)) {
      assert ProcessFits(s, ProcessOf(s, q));
      if !ProcessOf(s, q).Idle? && !ProcessOf(s, p).Idle? { Apart(s, p, q); }
    }
    Conclude(s, p, s');
  }

  lemma ClaimKeeps(s: State, p: nat, e: Event, s': State)
    requires Inv(s) && Next(s, p, e) == Some(s') && (e.Begin? || e.Claim? || e.Crash?)
    ensures Inv(s')
  {
    assert ProcessFits(s, ProcessOf(s, p));
    forall q | q != p ensures ProcessOf(s', q) == ProcessOf(s, q) && ProcessFits(s', ProcessOf(s, q)) {
      assert ProcessFits(s, ProcessOf(s, q));
      if !ProcessOf(s, q).Idle? && !ProcessOf(s, p).Idle? { Apart(s, p, q); }
    }
    Conclude(s, p, s');
  }

  lemma AdvanceKeeps(s: State, p: nat, e: Event, s': State)
    requires Inv(s) && Next(s, p, e) == Some(s') && (e.Advance? || e.Mark?)
    ensures Inv(s')
  {
    assert ProcessFits(s, ProcessOf(s, p));
    forall q | q != p ensures ProcessOf(s', q) == ProcessOf(s, q) && ProcessFits(s', ProcessOf(s, q)) {
      assert ProcessFits(s, ProcessOf(s, q));
      if !ProcessOf(s, q).Idle? { Apart(s, p, q); }
    }
    Conclude(s, p, s');
  }

  lemma DeliverKeeps(s: State, p: nat, e: Event, s': State)
    requires Inv(s) && Next(s, p, e) == Some(s') && e.Deliver?
    ensures Inv(s')
  {
    assert ProcessFits(s, ProcessOf(s, p));
    forall q | q != p ensures ProcessOf(s', q) == ProcessOf(s, q) && ProcessFits(s', ProcessOf(s, q)) {
      assert ProcessFits(s, ProcessOf(s, q));
      if !ProcessOf(s, q).Idle? { Apart(s, p, q); Apart(s, q, p); }
    }
    Conclude(s, p, s');
  }

  lemma EndKeeps(s: State, p: nat, e: Event, s': State)
    requires Inv(s) && Next(s, p, e) == Some(s') && (e.Commit? || e.Undo? || e.Restore?)
    ensures Inv(s')
  {
    assert ProcessFits(s, ProcessOf(s, p));
    forall q | q != p ensures ProcessOf(s', q) == ProcessOf(s, q) && ProcessFits(s', ProcessOf(s, q)) {
      assert ProcessFits(s, ProcessOf(s, q));
      if !ProcessOf(s, q).Idle? { Apart(s, p, q); Apart(s, q, p); }
    }
    Conclude(s, p, s');
  }

  lemma InvStep(s: State, p: nat, e: Event, s': State)
    requires Inv(s) && Next(s, p, e) == Some(s')
    ensures Inv(s')
  {
    match e
    case Plan(_) => PlanKeeps(s, p, e, s');
    case PlanWritten => PlanKeeps(s, p, e, s');
    case PlanFailed(_) => PlanKeeps(s, p, e, s');
    case Begin(_) => ClaimKeeps(s, p, e, s');
    case Claim(_) => ClaimKeeps(s, p, e, s');
    case Crash => ClaimKeeps(s, p, e, s');
    case Advance(_, _, _) => AdvanceKeeps(s, p, e, s');
    case Mark(_) => AdvanceKeeps(s, p, e, s');
    case Deliver(_) => DeliverKeeps(s, p, e, s');
    case Commit(_) => EndKeeps(s, p, e, s');
    case Undo(_) => EndKeeps(s, p, e, s');
    case Restore(_) => EndKeeps(s, p, e, s');
  }

  // ---------------------------------------------------------------- over every run

  lemma {:induction false} RunKeeps(states: seq<State>, i: nat)
    requires Run(states) && i < |states|
    ensures Inv(states[i])
  {
    if i > 0 {
      RunKeeps(states, i - 1);
      assert Step(states[i - 1], states[i]);
      var p, e :| Next(states[i - 1], p, e) == Some(states[i]);
      InvStep(states[i - 1], p, e, states[i]);
    } else {
      InvStart();
    }
  }

  lemma {:induction false} ConsumedStays(states: seq<State>, i: nat, k: nat)
    requires Run(states) && i <= k < |states|
    ensures states[i].consumed <= states[k].consumed
    decreases k
  {
    if i < k {
      ConsumedStays(states, i, k - 1);
      assert Step(states[k - 1], states[k]);
    }
  }

  predicate Claimable(s: State, t: Token) {
    t in s.active || t in s.inflight
  }

  /** Over all interleavings and crashes: a token has at most one file, one that was handed out and
      not used up has exactly one, and a completely delivered one is never claimable again. */
  lemma TokenLifecycle(states: seq<State>, i: nat, k: nat, t: Token)
    requires Run(states) && i <= k < |states|
    ensures !(t in states[k].active && t in states[k].inflight) && !(t in states[k].active && t in states[k].delivering)
            && !(t in states[k].inflight && t in states[k].delivering)
    ensures t in states[k].known && t !in states[k].consumed ==> Claimable(states[k], t) || t in states[k].delivering
    ensures t in states[i].consumed ==> !Claimable(states[k], t) && forall p :: ProcessOf(states[k], p) != Claimed(t)
  {
    RunKeeps(states, k);
    ConsumedStays(states, i, k);
    if t in states[i].consumed {
      forall p ensures ProcessOf(states[k], p) != Claimed(t) { assert ProcessFits(states[k], ProcessOf(states[k], p)); }
    }
  }

  /** No response is completely delivered for a token a second time. */
  lemma DeliveredOnce(states: seq<State>, i: nat, k: nat, p: nat, q: nat, t: Token)
    requires Run(states) && i + 1 <= k && k + 1 < |states|
    requires ProcessOf(states[i], p).Marked? && ProcessOf(states[i], p).token == t && Next(states[i], p, Deliver(true)) == Some(states[i + 1])
    requires Next(states[k], q, Deliver(true)) == Some(states[k + 1])
    ensures ProcessOf(states[k], q).token != t
  {
    RunKeeps(states, k);
    ConsumedStays(states, i + 1, k);
    assert ProcessFits(states[k], ProcessOf(states[k], q));
  }

  /** A process that dies before delivery starts leaves its token to the next one. */
  lemma CrashBeforeDelivery(states: seq<State>, i: nat, p: nat, q: nat)
    requires Run(states) && i < |states| && ProcessOf(states[i], q).Idle? && p != q
    requires var process := ProcessOf(states[i], p);
             process.Claimed? || process.Persisted? || (process.Undoing? && !process.marked) || (process.Restoring? && !process.marked)
    ensures var t := ProcessOf(states[i], p).token;
            var dead := Next(states[i], p, Crash).value;
            && Claimable(dead, t)
            && Next(dead, q, Begin(t)).Some?
            && Next(Next(dead, q, Begin(t)).value, q, Claim(true)).Some?
            && ProcessOf(Next(Next(dead, q, Begin(t)).value, q, Claim(true)).value, q) == Claimed(t)
  {
    RunKeeps(states, i);
    var t, dead := ProcessOf(states[i], p).token, Next(states[i], p, Crash).value;
    assert ProcessFits(states[i], ProcessOf(states[i], p));
    forall r | r in dead.processes ensures !Holds(dead.processes[r], t) {
      assert Holds(ProcessOf(states[i], p), t);
      assert r != p ==> dead.processes[r] == ProcessOf(states[i], r);
    }
  }

  /** A run with the steps that were taken. */
  ghost predicate Trace(states: seq<State>, steps: seq<(nat, Event)>) {
    && |states| == |steps| + 1 && states[0] == EMPTY
    && forall i :: 0 <= i < |steps| ==> Next(states[i], steps[i].0, steps[i].1) == Some(states[i + 1])
  }

  lemma TraceIsRun(states: seq<State>, steps: seq<(nat, Event)>)
    requires Trace(states, steps)
    ensures Run(states)
  {
    forall i | 0 < i < |states| ensures Step(states[i - 1], states[i]) {
      assert Next(states[i - 1], steps[i - 1].0, steps[i - 1].1) == Some(states[i]);
    }
  }

  /** Process p undid its successor at step u, if it worked. */
  ghost predicate UndoneAt(steps: seq<(nat, Event)>, i: int, u: int, n: int, p: nat) {
    i < u < n <= |steps| && 0 <= u && steps[u].0 == p && steps[u].1.Undo?
  }

  /** Between an incomplete delivery and the end of its clean-up, the process has at most undone its successor. */
  lemma {:induction false} CleaningUp(states: seq<State>, steps: seq<(nat, Event)>, i: nat, n: nat, p: nat)
    requires Trace(states, steps) && i < n <= |steps| && steps[i] == (p, Deliver(false))
    requires forall k :: i < k < n && steps[k].0 == p ==> !steps[k].1.Crash? && !steps[k].1.Restore?
    ensures ProcessOf(states[i], p).Marked?
    ensures var t, made := ProcessOf(states[i], p).token, ProcessOf(states[i], p).successor;
            || ProcessOf(states[n], p) == Undoing(t, made, true)
            || exists u :: UndoneAt(steps, i, u, n, p) && ProcessOf(states[n], p) == Restoring(t, if steps[u].1.works then made else None, true)
    decreases n
  {
    assert Next(states[n - 1], steps[n - 1].0, steps[n - 1].1) == Some(states[n]);
    if n > i + 1 {
      CleaningUp(states, steps, i, n - 1, p);
      var t, made := ProcessOf(states[i], p).token, ProcessOf(states[i], p).successor;
      if ProcessOf(states[n - 1], p) == Undoing(t, made, true) {
        if steps[n - 1].0 == p { assert UndoneAt(steps, i, n - 1, n, p); }
      } else {
        var u :| UndoneAt(steps, i, u, n - 1, p)
                 && ProcessOf(states[n - 1], p) == Restoring(t, if steps[u].1.works then made else None, true);
        assert UndoneAt(steps, i, u, n, p);
      }
    }
  }

  /** An incomplete delivery, and the same process restoring its token without dying in between: the token
      is active again and can be claimed; the successor it had made was never handed out, and has no file
      if undoing it worked.  That holds whatever the other processes did meanwhile. */
  lemma IncompleteDelivery(states: seq<State>, steps: seq<(nat, Event)>, i: nat, k: nat, p: nat)
    requires Trace(states, steps) && i < k < |steps| && steps[i] == (p, Deliver(false)) && steps[k] == (p, Restore(true))
    requires forall n :: i < n < k && steps[n].0 == p ==> !steps[n].1.Crash? && !steps[n].1.Restore?
    ensures ProcessOf(states[i], p).Marked?
    ensures var t, made, s := ProcessOf(states[i], p).token, ProcessOf(states[i], p).successor, states[k + 1];
            && t in s.active && t !in s.inflight + s.delivering && t in s.known - s.consumed
            && (made.Some? ==> made.value == Successor(t) && Successor(t) !in s.known)
            && exists u :: UndoneAt(steps, i, u, k, p)
                           && (steps[u].1.works && made.Some? ==> Successor(t) !in s.active + s.inflight + s.delivering)
  {
    TraceIsRun(states, steps);
    CleaningUp(states, steps, i, k, p);
    RunKeeps(states, i);
    RunKeeps(states, k);
    RunKeeps(states, k + 1);
    var t, made := ProcessOf(states[i], p).token, ProcessOf(states[i], p).successor;
    assert Next(states[k], p, Restore(true)) == Some(states[k + 1]);
    assert ProcessFits(states[i], ProcessOf(states[i], p)) && ProcessFits(states[k], ProcessOf(states[k], p));
    var u :| UndoneAt(steps, i, u, k, p) && ProcessOf(states[k], p) == Restoring(t, if steps[u].1.works then made else None, true);
    if made.Some? { UnknownSuccessor(states[k], t); }
  }

  /** A token that is not used up yet has no known successor. */
  lemma UnknownSuccessor(s: State, t: Token)
    requires Inv(s) && t in s.known - s.consumed
    ensures Successor(t) !in s.known
  {
  }

  // ---------------------------------------------------------------- one process, start to end

  /** The state after one process took these steps in a row; None when one of them cannot be taken. */
  ghost function Take(s: State, p: nat, events: seq<Event>): Option<State>
    decreases |events|
  {
    if events == [] then Some(s)
    else
      var next := Next(s, p, events[0]);
      if next.None? then None else Take(next.value, p, events[1..])
  }

  lemma TakeOne(s: State, p: nat, e: Event, rest: seq<Event>)
    ensures Next(s, p, e).Some? ==> Take(s, p, [e] + rest) == Take(Next(s, p, e).value, p, rest)
    ensures Next(s, p, e).Some? ==> Take(s, p, [e]) == Next(s, p, e)
  {
    assert ([e] + rest)[1..] == rest && [e][1..] == [];
  }

  lemma {:induction false} TakeBoth(s: State, p: nat, a: seq<Event>, b: seq<Event>)
    requires Take(s, p, a).Some?
    ensures Take(s, p, a + b) == Take(Take(s, p, a).value, p, b)
    decreases |a|
  {
    if a == [] {
      assert a + b == b;
    } else {
      assert (a + b)[0] == a[0] && (a + b)[1..] == a[1..] + b;
      TakeBoth(Next(s, p, a[0]).value, p, a[1..], b);
    }
  }

  /** The token is handed out, not used up, has its active file, and nobody holds it. */
  ghost predicate Ready(s: State, t: Token) {
    t in s.known - s.consumed && t in s.active && forall q :: q in s.processes ==> !Holds(s.processes[q], t)
  }

  const CLAIM := [Claim(true), Advance(true, true, true), Mark(true)]

  lemma Overwrite(processes: map<nat, Process>, p: nat, a: Process, b: Process)
    ensures processes[p := a][p := b] == processes[p := b]
  {
  }

  /** The step, when it leads to this place and these files. */
  lemma StepIs(s: State, p: nat, e: Event, from: Process, s1: State, to: Process)
    requires s1.processes == s.processes && Next(At(s, p, from), p, e).Some?
    requires Next(At(s, p, from), p, e).value == s1.(processes := s.processes[p := from][p := to])
    ensures Next(At(s, p, from), p, e) == Some(At(s1, p, to))
  {
    Overwrite(s.processes, p, from, to);
  }

  ghost function Inflight(s: State, t: Token): State {
    s.(active := s.active - {t}, inflight := s.inflight + {t})
  }

  /** The files once the token was claimed, its successor made and its delivery marked. */
  ghost function Delivering(s: State, t: Token): State {
    s.(active := s.active - {t} + {Successor(t)}, delivering := s.delivering + {t})
  }

  lemma MarksDelivery(s: State, p: nat, t: Token)
    requires Inv(s) && Ready(s, t) && ProcessOf(s, p).Idle? && Successor(t) !in s.active
    ensures Take(s, p, [Begin(t)] + CLAIM) == Some(At(Delivering(s, t), p, Marked(t, Some(Successor(t)))))
  {
    var f := Inflight(s, t);
    var g := f.(active := f.active + {Successor(t)});
    StepIs(s, p, Claim(true), Locked(t), f, Claimed(t));
    StepIs(f, p, Advance(true, true, true), Claimed(t), g, Persisted(t, Some(Successor(t))));
    assert g.inflight - {t} == s.inflight && g.active == s.active - {t} + {Successor(t)};
    StepIs(g, p, Mark(true), Persisted(t, Some(Successor(t))), Delivering(s, t), Marked(t, Some(Successor(t))));
    TakeOne(At(g, p, Persisted(t, Some(Successor(t)))), p, Mark(true), []);
    TakeOne(At(f, p, Claimed(t)), p, Advance(true, true, true), [Mark(true)]);
    TakeOne(At(s, p, Locked(t)), p, Claim(true), [Advance(true, true, true), Mark(true)]);
    TakeOne(s, p, Begin(t), CLAIM);
    assert [Advance(true, true, true), Mark(true)] == [Advance(true, true, true)] + [Mark(true)];
    assert CLAIM == [Claim(true)] + [Advance(true, true, true), Mark(true)];
  }

  /** A handed-out token, from its claim to the complete delivery of its response: it is used up and has no file, and
      the successor is handed out and can be claimed. */
  lemma TokenHandedOn(s: State, p: nat, t: Token)
    requires Inv(s) && Ready(s, t) && ProcessOf(s, p).Idle? && Successor(t) !in s.active
    ensures Take(s, p, [Begin(t)] + CLAIM + [Deliver(true), Commit(true)])
            == Some(At(s.(active := s.active - {t} + {Successor(t)}, known := s.known + {Successor(t)}, consumed := s.consumed + {t}), p, Idle))
  {
    MarksDelivery(s, p, t);
    TakeBoth(s, p, [Begin(t)] + CLAIM, [Deliver(true), Commit(true)]);
    DeliveryEnds(s, p, t);
  }

  lemma DeliveryEnds(s: State, p: nat, t: Token)
    requires t !in s.delivering
    ensures Take(At(Delivering(s, t), p, Marked(t, Some(Successor(t)))), p, [Deliver(true), Commit(true)])
            == Some(At(s.(active := s.active - {t} + {Successor(t)}, known := s.known + {Successor(t)}, consumed := s.consumed + {t}), p, Idle))
  {
    var d := Delivering(s, t);
    var sent := d.(consumed := s.consumed + {t}, known := s.known + {Successor(t)});
    var done := s.(active := s.active - {t} + {Successor(t)}, known := s.known + {Successor(t)}, consumed := s.consumed + {t});
    StepIs(d, p, Deliver(true), Marked(t, Some(Successor(t))), sent, Sent(t));
    assert sent.delivering - {t} == s.delivering;
    StepIs(sent, p, Commit(true), Sent(t), done, Idle);
    TakeOne(At(d, p, Marked(t, Some(Successor(t)))), p, Deliver(true), [Commit(true)]);
    TakeOne(At(sent, p, Sent(t)), p, Commit(true), []);
    assert [Deliver(true), Commit(true)] == [Deliver(true)] + [Commit(true)];
  }

  /** An incomplete delivery, undone and restored, leaves everything as it was before the claim. */
  lemma FailedDeliveryUndone(s: State, p: nat, t: Token)
    requires Inv(s) && Ready(s, t) && ProcessOf(s, p).Idle? && Successor(t) !in s.active
    ensures Take(s, p, [Begin(t)] + CLAIM + [Deliver(false), Undo(true), Restore(true)]) == Some(At(s, p, Idle))
  {
    MarksDelivery(s, p, t);
    TakeBoth(s, p, [Begin(t)] + CLAIM, [Deliver(false), Undo(true), Restore(true)]);
    DeliveryUndone(s, p, t);
  }

  lemma DeliveryUndone(s: State, p: nat, t: Token)
    requires t !in s.delivering && t in s.active && Successor(t) !in s.active
    ensures Take(At(Delivering(s, t), p, Marked(t, Some(Successor(t)))), p, [Deliver(false), Undo(true), Restore(true)]) == Some(At(s, p, Idle))
  {
    var d := Delivering(s, t);
    var undone := d.(active := d.active - {Successor(t)});
    StepIs(d, p, Deliver(false), Marked(t, Some(Successor(t))), d, Undoing(t, Some(Successor(t)), true));
    StepIs(d, p, Undo(true), Undoing(t, Some(Successor(t)), true), undone, Restoring(t, Some(Successor(t)), true));
    assert undone.active + {t} == s.active && undone.delivering - {t} == s.delivering;
    StepIs(undone, p, Restore(true), Restoring(t, Some(Successor(t)), true), s, Idle);
    TakeOne(At(d, p, Marked(t, Some(Successor(t)))), p, Deliver(false), [Undo(true), Restore(true)]);
    TakeOne(At(d, p, Undoing(t, Some(Successor(t)), true)), p, Undo(true), [Restore(true)]);
    TakeOne(At(undone, p, Restoring(t, Some(Successor(t)), true)), p, Restore(true), []);
    assert [Deliver(false), Undo(true), Restore(true)] == [Deliver(false)] + [Undo(true), Restore(true)];
    assert [Undo(true), Restore(true)] == [Undo(true)] + [Restore(true)];
  }

  /** A new plan: written out, its token is ready; withdrawn, only its nonce is spent. */
  lemma PlanIsReady(s: State, p: nat, t: Token)
    requires Inv(s) && ProcessOf(s, p).Idle? && t.nonce !in s.nonces
    ensures var written := s.(active := s.active + {t}, known := s.known + {t}, nonces := s.nonces + {t.nonce});
            && Take(s, p, [Plan(t), PlanWritten]) == Some(At(written, p, Idle))
            && Ready(At(written, p, Idle), t) && Successor(t) !in written.active
    ensures Take(s, p, [Plan(t), PlanFailed(true)]) == Some(At(s.(nonces := s.nonces + {t.nonce}), p, Idle))
  {
    var planned := s.(active := s.active + {t}, nonces := s.nonces + {t.nonce});
    assert planned.active - {t} == s.active;
    StepIs(planned, p, PlanWritten, Planned(t), planned.(known := s.known + {t}), Idle);
    StepIs(planned, p, PlanFailed(true), Planned(t), s.(nonces := s.nonces + {t.nonce}), Idle);
    TakeOne(s, p, Plan(t), [PlanWritten]);
    TakeOne(s, p, Plan(t), [PlanFailed(true)]);
    TakeOne(At(planned, p, Planned(t)), p, PlanWritten, []);
    TakeOne(At(planned, p, Planned(t)), p, PlanFailed(true), []);
    assert [Plan(t), PlanWritten] == [Plan(t)] + [PlanWritten] && [Plan(t), PlanFailed(true)] == [Plan(t)] + [PlanFailed(true)];
    forall q | q in s.processes && q != p ensures !Holds(s.processes[q], t) {
      assert ProcessFits(s, ProcessOf(s, q));
    }
  }

  /** A claim of a token that has no file to claim, or whose rename fails, changes nothing. */
  lemma RefusedClaim(s: State, p: nat, t: Token, works: bool)
    requires if t in s.active then !works else t !in s.inflight
    ensures Next(At(s, p, Locked(t)), p, Claim(works)) == Some(At(s, p, Idle))
  {
    Overwrite(s.processes, p, Locked(t), Idle);
  }

  /** The ways a claimed token is given up before its delivery starts: the response does not verify, the successor
      cannot be written, or the delivery cannot be marked. */
  datatype GivingUp = Unverified(persists: bool, works: bool) | Unwritten | Unmarked(persists: bool) {
    function Events(): seq<Event> {
      match this
      case Unverified(persists, works) => [Advance(false, persists, works)]
      case Unwritten => [Advance(true, true, false)]
      case Unmarked(persists) => [Advance(true, persists, true), Mark(false)]
    }
  }

  /** A claim that is given up, undone and restored leaves everything as it was. */
  lemma AbandonedClaimUndone(s: State, p: nat, t: Token, why: GivingUp)
    requires Inv(s) && Ready(s, t) && ProcessOf(s, p).Idle? && Successor(t) !in s.active
    ensures Take(s, p, [Begin(t), Claim(true)] + why.Events() + [Undo(true), Restore(true)]) == Some(At(s, p, Idle))
  {
    var f := Inflight(s, t);
    StepIs(s, p, Claim(true), Locked(t), f, Claimed(t));
    TakeOne(s, p, Begin(t), [Claim(true)]);
    TakeOne(At(s, p, Locked(t)), p, Claim(true), []);
    assert [Begin(t), Claim(true)] == [Begin(t)] + [Claim(true)];
    var g, made := GivenUp(s, p, t, why);
    UndoneFrom(s, p, t, g, made);
    TakeBoth(At(f, p, Claimed(t)), p, why.Events(), [Undo(true), Restore(true)]);
    TakeBoth(s, p, [Begin(t), Claim(true)], why.Events() + [Undo(true), Restore(true)]);
    assert [Begin(t), Claim(true)] + why.Events() + [Undo(true), Restore(true)]
           == [Begin(t), Claim(true)] + (why.Events() + [Undo(true), Restore(true)]);
  }

  /** Where giving up leads: the successor file is there only if it was written. */
  lemma GivenUp(s: State, p: nat, t: Token, why: GivingUp) returns (g: State, made: Option<Token>)
    requires t in s.active && Successor(t) !in s.active
    ensures Take(At(Inflight(s, t), p, Claimed(t)), p, why.Events()) == Some(At(g, p, Undoing(t, made, false)))
    ensures made == None || made == Some(Successor(t))
    ensures g == Inflight(s, t) || (made.Some? && g == Inflight(s, t).(active := s.active - {t} + {Successor(t)}))
  {
    var f := Inflight(s, t);
    match why
    case Unverified(persists, works) =>
      g, made := f, None;
      StepIs(f, p, Advance(false, persists, works), Claimed(t), f, Undoing(t, None, false));
      TakeOne(At(f, p, Claimed(t)), p, Advance(false, persists, works), []);
    case Unwritten =>
      g, made := f, Some(Successor(t));
      StepIs(f, p, Advance(true, true, false), Claimed(t), f, Undoing(t, made, false));
      TakeOne(At(f, p, Claimed(t)), p, Advance(true, true, false), []);
    case Unmarked(persists) =>
      g := if persists then f.(active := s.active - {t} + {Successor(t)}) else f;
      made := if persists then Some(Successor(t)) else None;
      StepIs(f, p, Advance(true, persists, true), Claimed(t), g, Persisted(t, made));
      StepIs(g, p, Mark(false), Persisted(t, made), g, Undoing(t, made, false));
      TakeOne(At(f, p, Claimed(t)), p, Advance(true, persists, true), [Mark(false)]);
      TakeOne(At(g, p, Persisted(t, made)), p, Mark(false), []);
      assert why.Events() == [Advance(true, persists, true)] + [Mark(false)];
  }

  lemma UndoneFrom(s: State, p: nat, t: Token, g: State, made: Option<Token>)
    requires t in s.active && t !in s.inflight && Successor(t) !in s.active && (made == None || made == Some(Successor(t)))
    requires g == Inflight(s, t) || (made.Some? && g == Inflight(s, t).(active := s.active - {t} + {Successor(t)}))
    ensures Take(At(g, p, Undoing(t, made, false)), p, [Undo(true), Restore(true)]) == Some(At(s, p, Idle))
  {
    var f := Inflight(s, t);
    assert made.Some? ==> g.active - {Successor(t)} == f.active;
    StepIs(g, p, Undo(true), Undoing(t, made, false), f, Restoring(t, made, false));
    assert f.active + {t} == s.active && f.inflight - {t} == s.inflight;
    StepIs(f, p, Restore(true), Restoring(t, made, false), s, Idle);
    TakeOne(At(g, p, Undoing(t, made, false)), p, Undo(true), [Restore(true)]);
    TakeOne(At(f, p, Restoring(t, made, false)), p, Restore(true), []);
    assert [Undo(true), Restore(true)] == [Undo(true)] + [Restore(true)];
  }

  /** A file operation that fails changes no file, and neither does a crash. */
  lemma FailuresKeepFiles(s: State, p: nat, e: Event)
    requires Next(s, p, e).Some?
    requires e in {PlanFailed(false), Claim(false), Mark(false), Commit(false), Undo(false), Restore(false), Crash}
    ensures var s' := Next(s, p, e).value; s'.active == s.active && s'.inflight == s.inflight && s'.delivering == s.delivering
  {
  }
}
