/** The wake transaction chain: create a placeholder automation, update it, verify what was saved,
    and retry the update once.  Tokens carry the transaction and its digest. */
module WakeChain {
  import opened Results
  import opened WakeToken

  datatype Stage = CreatePlaceholder | UpdateOneShot | UnknownStage(name: string)

  /** Timestamps are numbers; None is a text that is not a timestamp. */
  datatype Transaction = Transaction(
    version: int, stage: Stage, wakeThreadId: string, expectedAutomationId: string, resetAt: Option<int>, wakeAt: Option<int>,
    nonce: string, createdByTransaction: bool, wakeInvocation: bool, attempt: int)

  /** The digest is injective, so it is the payload it was computed from. */
  datatype Signed = Signed(payload: Transaction, digest: Transaction) | Garbage

  datatype Spec = CreateSpec(name: string, thread: string) | UpdateSpec(id: string, thread: string, wakeAt: Option<int>)
                | DeleteSpec(id: string) | PauseSpec(id: string)

  datatype Output =
    | WriteRequired(token: Signed, transaction: Transaction, write: Spec, retry: bool)
    | Verified(transaction: Transaction)
    | Failed(cleanup: Option<Spec>)

  datatype Message = SaysSuccess | SaysFailure | SaysNeither

  datatype Mode = CreateMode | UpdateMode | OtherMode

  datatype Status = Paused | Active | OtherStatus

  /** A parsed tool response; `usable` is false when parsing gave a reason to refuse it. */
  datatype Response = Response(usable: bool, automationId: string, mode: Mode, status: Status, message: Message)

  datatype Verification = Pass | Unavailable | Mismatch

  // ---------------------------------------------------------------- identifiers

  const VERSION := 1
  const KEY_PREFIX := "codex-5h-wake-"

  predicate Hex(c: char, upper: bool) {
    '0' <= c <= '9' || 'a' <= c <= 'f' || (upper && 'A' <= c <= 'F')
  }

  predicate Uuid(s: string) {
    |s| == 36 && forall i :: 0 <= i < 36 ==> if i in {8, 13, 18, 23} then s[i] == '-' else Hex(s[i], true)
  }

  predicate Nonce(s: string) {
    |s| == 32 && forall i :: 0 <= i < 32 ==> Hex(s[i], false)
  }

  predicate Key(s: string) {
    s != "" && forall i :: 0 <= i < |s| ==> KeyChar(s[i])
  }

  predicate KeyChar(c: char) {
    'A' <= c <= 'Z' || 'a' <= c <= 'z' || '0' <= c <= '9' || c == '_' || c == '-'
  }

  function AutomationKey(wakeThreadId: string): string {
    KEY_PREFIX + wakeThreadId
  }

  /** A failed transaction can always name what it has to delete. */
  lemma AutomationKeyIsKey(wakeThreadId: string)
    requires Uuid(wakeThreadId)
    ensures Key(AutomationKey(wakeThreadId))
  {
    assert |KEY_PREFIX| == 14;
    forall i | 0 <= i < |AutomationKey(wakeThreadId)| ensures KeyChar(AutomationKey(wakeThreadId)[i]) {
      if i >= 14 { assert AutomationKey(wakeThreadId)[i] == wakeThreadId[i - 14]; }
    }
  }

  // ---------------------------------------------------------------- tokens

  predicate Valid(t: Transaction) {
    && t.version == VERSION && Uuid(t.wakeThreadId) && t.expectedAutomationId == AutomationKey(t.wakeThreadId)
    && Nonce(t.nonce) && !t.stage.UnknownStage? && 1 <= t.attempt <= 2 && t.resetAt.Some? && t.wakeAt.Some?
  }

  // The alphabets of the identifiers, written out.
  const HEX_DIGITS := "0123456789abcdef"
  const UPPER_HEX := "ABCDEF"

  ghost predicate HexText(s: string, n: nat) {
    |s| == n && forall c :: c in s ==> c in HEX_DIGITS || c in UPPER_HEX
  }

  lemma HexIff(c: char)
    ensures Hex(c, false) <==> c in HEX_DIGITS
    ensures Hex(c, true) <==> c in HEX_DIGITS || c in UPPER_HEX
  {
    assert HEX_DIGITS[0] == '0' && HEX_DIGITS[1] == '1' && HEX_DIGITS[2] == '2' && HEX_DIGITS[3] == '3' && HEX_DIGITS[4] == '4';
    assert HEX_DIGITS[5] == '5' && HEX_DIGITS[6] == '6' && HEX_DIGITS[7] == '7' && HEX_DIGITS[8] == '8' && HEX_DIGITS[9] == '9';
    assert HEX_DIGITS[10] == 'a' && HEX_DIGITS[11] == 'b' && HEX_DIGITS[12] == 'c' && HEX_DIGITS[13] == 'd' && HEX_DIGITS[14] == 'e';
    assert HEX_DIGITS[15] == 'f' && UPPER_HEX[0] == 'A' && UPPER_HEX[1] == 'B' && UPPER_HEX[2] == 'C' && UPPER_HEX[3] == 'D';
    assert UPPER_HEX[4] == 'E' && UPPER_HEX[5] == 'F';
  }

  /** Five groups of hexadecimal digits with dashes between them. */
  ghost predicate Groups(s: string, a: string, b: string, c: string, d: string, e: string) {
    && s == a + "-" + b + "-" + c + "-" + d + "-" + e
    && HexText(a, 8) && HexText(b, 4) && HexText(c, 4) && HexText(d, 4) && HexText(e, 12)
  }

  /** A thread identifier is such a text of groups of 8, 4, 4, 4 and 12 digits, in either case. */
  lemma UuidIff(s: string)
    ensures Uuid(s) <==> exists a, b, c, d, e :: Groups(s, a, b, c, d, e)
  {
    forall c ensures Hex(c, true) <==> c in HEX_DIGITS || c in UPPER_HEX { HexIff(c); }
    if Uuid(s) {
      assert s[..8] + "-" + s[9..13] + "-" + s[14..18] + "-" + s[19..23] + "-" + s[24..] == s;
      assert Groups(s, s[..8], s[9..13], s[14..18], s[19..23], s[24..]);
    }
    forall a, b, c, d, e | Groups(s, a, b, c, d, e) ensures Uuid(s) { GroupsAreUuid(s, a, b, c, d, e); }
  }

  lemma GroupsAreUuid(s: string, a: string, b: string, c: string, d: string, e: string)
    requires Groups(s, a, b, c, d, e)
    requires forall c :: Hex(c, true) <==> c in HEX_DIGITS || c in UPPER_HEX
    ensures Uuid(s)
  {
    forall i | 0 <= i < 36 ensures if i in {8, 13, 18, 23} then s[i] == '-' else Hex(s[i], true) {
      if i < 8 { assert s[i] == a[i]; }
      else if 9 <= i < 13 { assert s[i] == b[i - 9]; }
      else if 14 <= i < 18 { assert s[i] == c[i - 14]; }
      else if 19 <= i < 23 { assert s[i] == d[i - 19]; }
      else if 24 <= i { assert s[i] == e[i - 24]; }
    }
  }

  lemma NonceIff(s: string)
    ensures Nonce(s) <==> |s| == 32 && forall c :: c in s ==> c in HEX_DIGITS
  {
    forall c ensures Hex(c, false) <==> c in HEX_DIGITS { HexIff(c); }
    assert Nonce(s) ==> forall i :: 0 <= i < |s| ==> Hex(s[i], false);
  }

  /** What a token must carry to be accepted. */
  lemma ValidIff(t: Transaction)
    ensures Valid(t) <==>
              && t.version == 1 && (exists a, b, c, d, e :: Groups(t.wakeThreadId, a, b, c, d, e))
              && t.expectedAutomationId == "codex-5h-wake-" + t.wakeThreadId
              && |t.nonce| == 32 && (forall c :: c in t.nonce ==> c in HEX_DIGITS)
              && (t.stage == CreatePlaceholder || t.stage == UpdateOneShot) && t.attempt in {1, 2}
              && t.resetAt != None && t.wakeAt != None
  {
    UuidIff(t.wakeThreadId);
    NonceIff(t.nonce);
  }

  function Encode(t: Transaction): Signed {
    Signed(t, t)
  }

  function Decode(token: Signed): Result<Transaction> {
    if token.Garbage? || token.digest != token.payload || !Valid(token.payload) then Fail else Ok(token.payload)
  }

  /** A token decodes exactly when it encodes a valid transaction, and to that transaction. */
  lemma DecodeInvertsEncode(token: Signed, t: Transaction)
    ensures Decode(token) == Ok(t) <==> Valid(t) && token == Encode(t)
  {
    if token.Signed? { assert token == Signed(token.payload, token.digest); }
  }

  // ---------------------------------------------------------------- building and advancing

  function WriteOutput(t: Transaction, write: Spec, retry: bool): Output {
    WriteRequired(Encode(t), t, write, retry)
  }

  function UpdateOf(t: Transaction): Spec {
    UpdateSpec(t.expectedAutomationId, t.wakeThreadId, t.wakeAt)
  }

  const SAFETY_MARGIN := 120

  /** The reset evidence: the epoch and the text must agree and lie in the future. */
  function WakeTimes(epoch: Option<int>, text: Option<int>, now: int): (r: Result<(int, int)>)
    ensures r.Ok? ==> now < r.value.0 < r.value.1 && Some(r.value.0) == epoch == text
  {
    if epoch.None? || text.None? || epoch != text || epoch.value <= now then Fail
    else Ok((epoch.value, epoch.value + SAFETY_MARGIN))
  }

  /** `existing` is the one automation found for the thread, if any; `inventory` whether it could be read. */
  method BuildTransaction(epoch: Option<int>, text: Option<int>, now: int, wakeThreadId: string, fired: string,
                          nonce: string, inventory: bool, existing: Option<string>) returns (r: Result<Output>)
    requires Nonce(nonce)
    ensures r.Ok? ==> r.value.WriteRequired? && Starts(r.value.transaction) && r.value.transaction.nonce == nonce
                      && Decode(r.value.token) == Ok(r.value.transaction) && WriteFits(r.value)
    ensures r.Ok? ==> r.value.transaction.wakeThreadId == wakeThreadId && now < r.value.transaction.resetAt.value
    ensures r.Ok? <==>
              && Uuid(wakeThreadId) && epoch.Some? && epoch == text && now < epoch.value
              && (if fired != "" then fired == "codex-5h-wake-" + wakeThreadId
                  else inventory && (existing == None || existing == Some("codex-5h-wake-" + wakeThreadId)))
    ensures r.Ok? ==> r.value.transaction.resetAt == epoch && r.value.transaction.wakeAt == Some(epoch.value + 120) && !r.value.retry
    ensures r.Ok? ==> (r.value.transaction.wakeInvocation <==> fired != "")
                      && (r.value.transaction.stage.CreatePlaceholder? <==> fired == "" && existing.None?)
  {
    if !Uuid(wakeThreadId) { return Fail; }
    var times := WakeTimes(epoch, text, now);
    if times.Fail? { return Fail; }
    var expected := AutomationKey(wakeThreadId);
    var t := Transaction(VERSION, UpdateOneShot, wakeThreadId, expected, Some(times.value.0), Some(times.value.1), nonce, false, false, 1);
    if fired != "" {
      if fired != expected { return Fail; }
      t := t.(wakeInvocation := true);
      return Ok(WriteOutput(t, UpdateOf(t), false));
    }
    if !inventory { return Fail; }
    if existing.Some? {
      if existing.value != expected { return Fail; }
      return Ok(WriteOutput(t, UpdateOf(t), false));
    }
    t := t.(stage := CreatePlaceholder);
    return Ok(WriteOutput(t, CreateSpec(t.expectedAutomationId, t.wakeThreadId), false));
  }

  predicate FactsFit(r: Response, mode: Mode, status: Status, id: string) {
    r.usable && r.automationId == id && r.mode == mode && r.status == status && r.message.SaysSuccess?
  }

  function AdvanceCreate(t: Transaction, r: Response): Output {
    if !FactsFit(r, CreateMode, Paused, t.expectedAutomationId) then
      Failed(if r.automationId == t.expectedAutomationId then DeleteOf(r.automationId) else None)
    else
      var next := t.(stage := UpdateOneShot, createdByTransaction := true, attempt := 1);
      WriteOutput(next, UpdateOf(next), false)
  }

  function DeleteOf(id: string): Option<Spec> {
    if Key(id) then Some(DeleteSpec(id)) else None
  }

  function AdvanceUpdate(t: Transaction, r: Response, saved: Verification): Output {
    if !FactsFit(r, UpdateMode, Active, t.expectedAutomationId) then UpdateFailure(t, false)
    else
      match saved
      case Pass => Verified(t)
      case Unavailable => UpdateFailure(t, false)
      case Mismatch => UpdateFailure(t, true)
  }

  function UpdateFailure(t: Transaction, retryable: bool): Output {
    if retryable && t.attempt < 2 then
      var next := t.(attempt := t.attempt + 1);
      WriteOutput(next, UpdateOf(next), true)
    else Failed(
      if t.createdByTransaction then DeleteOf(t.expectedAutomationId)
      else if t.wakeInvocation then Some(PauseSpec(t.expectedAutomationId))
      else None)
  }

  function Advance(token: Signed, r: Response, saved: Verification): Output {
    var decoded := Decode(token);
    if decoded.Fail? then Failed(None)
    else if decoded.value.stage.CreatePlaceholder? then AdvanceCreate(decoded.value, r)
    else AdvanceUpdate(decoded.value, r, saved)
  }

  // ---------------------------------------------------------------- the chain

  /** What a plan starts with. */
  predicate Starts(t: Transaction) {
    Valid(t) && t.attempt == 1 && !t.createdByTransaction && (t.stage.CreatePlaceholder? ==> !t.wakeInvocation)
  }

  /** The requested write is for the transaction the token carries. */
  predicate WriteFits(o: Output) {
    o.WriteRequired? && o.token == Encode(o.transaction)
    && o.write == if o.transaction.stage.CreatePlaceholder?
                  then CreateSpec(o.transaction.expectedAutomationId, o.transaction.wakeThreadId)
                  else UpdateOf(o.transaction)
  }

  /** How far a transaction has come: creation, first update, second update. */
  function Rank(t: Transaction): int {
    if t.stage.CreatePlaceholder? then 0 else t.attempt
  }

  /** The only transaction an advance can ask to write next. */
  function NextTransaction(t: Transaction): Transaction {
    if t.stage.CreatePlaceholder? then t.(stage := UpdateOneShot, createdByTransaction := true, attempt := 1)
    else t.(attempt := t.attempt + 1)
  }

  /** A successor is valid, one step further, of the same plan, and asked for only after a successful
      creation or after an update whose saved state is wrong. */
  lemma AdvanceIsOneStep(token: Signed, r: Response, saved: Verification)
    ensures var o := Advance(token, r, saved);
            o.WriteRequired? <==>
              && Decode(token).Ok? && Rank(Decode(token).value) < 2
              && (if Decode(token).value.stage.CreatePlaceholder?
                  then FactsFit(r, CreateMode, Paused, Decode(token).value.expectedAutomationId)
                  else FactsFit(r, UpdateMode, Active, Decode(token).value.expectedAutomationId) && saved.Mismatch?)
    ensures var o := Advance(token, r, saved);
            o.WriteRequired? ==>
              && o.transaction == NextTransaction(Decode(token).value) && Decode(o.token) == Ok(o.transaction) && WriteFits(o)
              && Rank(o.transaction) == Rank(Decode(token).value) + 1
              && o.transaction.nonce == Decode(token).value.nonce && o.transaction.wakeThreadId == Decode(token).value.wakeThreadId
              && o.transaction.wakeAt == Decode(token).value.wakeAt
  {
  }

  /** The answer is usable, about this automation, in this mode and status, and says so. */
  ghost predicate Confirms(r: Response, mode: Mode, status: Status, id: string) {
    !(!r.usable || r.automationId != id || r.mode != mode || r.status != status || r.message == SaysFailure || r.message == SaysNeither)
  }

  /** What becomes of a valid token: it fails unless the answer confirms the write it asked for; a confirmed creation asks
      for the first update, and a confirmed update is verified by what was saved, or retried once. */
  lemma AdvanceMeans(token: Signed, r: Response, saved: Verification)
    requires Decode(token).Ok?
    ensures var t, o := Decode(token).value, Advance(token, r, saved);
            if t.stage == CreatePlaceholder then
              if Confirms(r, CreateMode, Paused, t.expectedAutomationId)
              then o.WriteRequired? && !o.retry && o.transaction == t.(stage := UpdateOneShot, createdByTransaction := true, attempt := 1)
              else o.Failed?
            else if !Confirms(r, UpdateMode, Active, t.expectedAutomationId) || saved == Unavailable then o.Failed?
            else if saved == Pass then o == Verified(t)
            else if t.attempt == 1 then o.WriteRequired? && o.retry && o.transaction == t.(attempt := 2)
            else o.Failed?
  {
  }

  /** Every failure after the automation was created or fired asks to undo it. */
  lemma FailureCleansUp(token: Signed, r: Response, saved: Verification)
    requires Decode(token).Ok? && Advance(token, r, saved).Failed?
    ensures var t, cleanup := Decode(token).value, Advance(token, r, saved).cleanup;
            cleanup == if t.stage.CreatePlaceholder?
                       then if r.automationId == t.expectedAutomationId then Some(DeleteSpec(t.expectedAutomationId)) else None
                       else if t.createdByTransaction then Some(DeleteSpec(t.expectedAutomationId))
                       else if t.wakeInvocation then Some(PauseSpec(t.expectedAutomationId))
                       else None
  {
    AutomationKeyIsKey(Decode(token).value.wakeThreadId);
  }

  /** The output after feeding responses, with the saved state found each time, until one ends it. */
  function Drive(o: Output, answers: seq<(Response, Verification)>): Output
    decreases |answers|
  {
    if answers == [] || !o.WriteRequired? then o
    else Drive(Advance(o.token, answers[0].0, answers[0].1), answers[1..])
  }

  /** Any three answers end the chain, verified or failed; until then every token decodes to a valid
      transaction of the plan. */
  lemma {:induction false} ChainEnds(o: Output, answers: seq<(Response, Verification)>)
    requires o.WriteRequired? ==> Decode(o.token) == Ok(o.transaction)
    ensures |answers| >= 3 ==> !Drive(o, answers).WriteRequired?
    ensures o.WriteRequired? && |answers| + Rank(o.transaction) >= 3 ==> !Drive(o, answers).WriteRequired?
    ensures Drive(o, answers).WriteRequired? ==>
              && o.WriteRequired? && Decode(Drive(o, answers).token) == Ok(Drive(o, answers).transaction)
              && Drive(o, answers).transaction.nonce == o.transaction.nonce
              && Rank(Drive(o, answers).transaction) == Rank(o.transaction) + |answers|
    decreases |answers|
  {
    if answers != [] && o.WriteRequired? {
      AdvanceIsOneStep(o.token, answers[0].0, answers[0].1);
      ChainEnds(Advance(o.token, answers[0].0, answers[0].1), answers[1..]);
    }
  }

  /** The response to an update fits, and what was found saved. */
  predicate Updated(t: Transaction, answer: (Response, Verification), saved: Verification) {
    FactsFit(answer.0, UpdateMode, Active, t.expectedAutomationId) && answer.1 == saved
  }

  /** The answers confirm the plan from an update on: the saved state passes at once, or is wrong once
      and passes after the one retry. */
  predicate UpdateConfirmed(t: Transaction, answers: seq<(Response, Verification)>) {
    && |answers| >= 1
    && (Updated(t, answers[0], Pass) || (Updated(t, answers[0], Mismatch) && |answers| >= 2 && Updated(t, answers[1], Pass)))
  }

  predicate PlanConfirmed(t: Transaction, answers: seq<(Response, Verification)>) {
    if t.stage.CreatePlaceholder? then
      && |answers| >= 1 && FactsFit(answers[0].0, CreateMode, Paused, t.expectedAutomationId)
      && UpdateConfirmed(t, answers[1..])
    else UpdateConfirmed(t, answers)
  }

  /** They differ at most in how far they have come. */
  ghost predicate SamePlan(t: Transaction, u: Transaction) {
    t == u.(stage := t.stage, createdByTransaction := t.createdByTransaction, attempt := t.attempt)
  }

  lemma UpdateVerifiedIff(o: Output, answers: seq<(Response, Verification)>)
    requires o.WriteRequired? && Decode(o.token) == Ok(o.transaction) && o.transaction.stage.UpdateOneShot? && o.transaction.attempt == 1
    ensures Drive(o, answers).Verified? <==> UpdateConfirmed(o.transaction, answers)
    ensures Drive(o, answers).Verified? ==> SamePlan(Drive(o, answers).transaction, o.transaction)
  {
    if answers != [] {
      var next := Advance(o.token, answers[0].0, answers[0].1);
      AdvanceIsOneStep(o.token, answers[0].0, answers[0].1);
      assert Drive(o, answers) == Drive(next, answers[1..]);
      if next.WriteRequired? && |answers| >= 2 {
        assert Drive(next, answers[1..]) == Drive(Advance(next.token, answers[1].0, answers[1].1), answers[1..][1..]);
        AdvanceIsOneStep(next.token, answers[1].0, answers[1].1);
      }
    }
  }

  /** A plan ends verified exactly when its creation, if it has one, succeeds and then an update is saved
      as asked, at once or after one retry; what is verified is the plan's own transaction. */
  lemma PlanVerifiedIff(o: Output, answers: seq<(Response, Verification)>)
    requires o.WriteRequired? && Decode(o.token) == Ok(o.transaction) && Starts(o.transaction)
    ensures Drive(o, answers).Verified? <==> PlanConfirmed(o.transaction, answers)
    ensures Drive(o, answers).Verified? ==> SamePlan(Drive(o, answers).transaction, o.transaction)
  {
    if o.transaction.stage.CreatePlaceholder? {
      if answers != [] {
        AdvanceIsOneStep(o.token, answers[0].0, answers[0].1);
        var next := Advance(o.token, answers[0].0, answers[0].1);
        if next.WriteRequired? { UpdateVerifiedIff(next, answers[1..]); }
      }
    } else {
      UpdateVerifiedIff(o, answers);
    }
  }

  // ---------------------------------------------------------------- tokens as files

  function Iterate(t: Transaction, n: nat): Transaction {
    if n == 0 then t else NextTransaction(Iterate(t, n - 1))
  }

  /** The file-level identity of a transaction. */
  function TokenOf(t: Transaction): Token
    requires Rank(t) >= 0
  {
    Token(t.nonce, Rank(t))
  }

  lemma {:induction false} IterateRank(t: Transaction, n: nat)
    requires Starts(t)
    ensures Rank(Iterate(t, n)) == Rank(t) + n && Iterate(t, n).nonce == t.nonce
    ensures n > 0 ==> Iterate(t, n).stage == UpdateOneShot
  {
    if n > 0 { IterateRank(t, n - 1); }
  }

  /** Among the transactions of one plan, nonce and rank determine the transaction, and an advance
      makes the successor token: what the token files assume. */
  lemma TokensIdentifyTransactions(start: Transaction, n: nat, k: nat)
    requires Starts(start)
    ensures Rank(Iterate(start, n)) >= 0 && Rank(Iterate(start, k)) >= 0
    ensures TokenOf(Iterate(start, n)) == TokenOf(Iterate(start, k)) <==> Iterate(start, n) == Iterate(start, k)
    ensures TokenOf(Iterate(start, n + 1)) == Successor(TokenOf(Iterate(start, n)))
  {
    IterateRank(start, n);
    IterateRank(start, k);
    IterateRank(start, n + 1);
  }
}
