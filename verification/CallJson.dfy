/**
 One role's call to its model (callJSON and its time budgets, internal/multiagent/llm_analysis.go).

 A call asks the model once, and once more to repair an answer that does not decode or does not
 validate. Both answers are decoded into the same target. The model, the decoder, the validator
 and the clock are parameters. Durations are in nanoseconds.
 */
module CallJson {

  import opened Text
  import A = AgentOutput

  // ---- Time budgets ----------------------------------------------------------------------

  const MILLISECOND := 1_000_000
  const SECOND := 1_000_000_000
  const MIN_REPAIR_BUDGET := 3 * SECOND

  datatype Budgets = Budgets(primary: int, repair: int)

  function TriageAttemptBudgets(total: int): Budgets {
    if total <= 0 then Budgets(0, 0)
    else
      var r0 := if total < 9 * SECOND then total / 3 else MIN_REPAIR_BUDGET;
      var r1 := if r0 <= 0 then total / 4 else r0;
      var r2 := if r1 >= total then total / 3 else r1;
      var primary := total - r2;
      if primary <= 0 then Budgets(total, 0) else Budgets(primary, r2)
  }

  /** The two attempts share the whole budget, two to one or better for the first. */
  lemma BudgetsShareTheTotal(total: int)
    ensures var b := TriageAttemptBudgets(total);
            && (total > 0 ==> b.primary + b.repair == total && b.primary > 0 && b.primary >= 2 * b.repair)
            && (total <= 0 ==> b == Budgets(0, 0))
            && 0 <= b.repair <= MIN_REPAIR_BUDGET
            && (b.repair == MIN_REPAIR_BUDGET <==> total >= 9 * SECOND)
            && (b.repair == 0 <==> total < 3)
            && (0 <= total < 9 * SECOND ==> 3 * b.repair <= total < 3 * (b.repair + 1))
  {
  }

  /** The budget of a repair, given what is left of the call's. */
  function RepairBudget(remaining: int): int {
    if remaining <= 0 then 0
    else if remaining > 7 * SECOND then 6 * SECOND
    else if remaining > MIN_REPAIR_BUDGET + 500 * MILLISECOND then remaining - 500 * MILLISECOND
    else remaining
  }

  /** A repair never outlives the call, and leaves half a second exactly when that is affordable. */
  lemma RepairFitsInTheCall(remaining: int)
    ensures var b := RepairBudget(remaining);
            && (remaining >= 0 ==> 0 <= b <= remaining)
            && (b > 0 <==> remaining > 0)
            && b <= 6 * SECOND + 500 * MILLISECOND
            && (remaining - b >= 500 * MILLISECOND <==> remaining > MIN_REPAIR_BUDGET + 500 * MILLISECOND)
            && (remaining > 7 * SECOND ==> b == 6 * SECOND)
            && (MIN_REPAIR_BUDGET + 500 * MILLISECOND < remaining <= 7 * SECOND ==> remaining - b == 500 * MILLISECOND)
            && (0 <= remaining <= MIN_REPAIR_BUDGET + 500 * MILLISECOND ==> b == remaining)
  {
  }

  /** However the first attempt spends its budget, a repair gets at least what was set aside for it. */
  lemma RepairGetsItsShare(total: int, elapsed: int)
    requires total > 0 && 0 <= elapsed <= TriageAttemptBudgets(total).primary
    ensures RepairBudget(total - elapsed) >= TriageAttemptBudgets(total).repair
    ensures elapsed + RepairBudget(total - elapsed) <= total
  {
  }

  function RepairThreshold(remaining: int): int {
    if remaining < MIN_REPAIR_BUDGET then remaining / 2 else MIN_REPAIR_BUDGET
  }

  // ---- When to repair ------------------------------------------------------------------------

  datatype ErrorKind = DeadlineExceeded | Canceled | ContractViolation | InvalidEvidenceID | Other

  datatype Error = Error(kind: ErrorKind, message: string)

  /** classifyLLMError for the reason "invalid_output". */
  function ClassifyInvalidOutput(err: Error): string {
    match err.kind
    case DeadlineExceeded => "deadline_exceeded"
    case Canceled => "canceled"
    case ContractViolation => "role_contract_violation"
    case InvalidEvidenceID => "invalid_evidence_id"
    case Other => "parse_failed"
  }

  /** The call's context at one look: whether it is done, and two successive readings of what is left. */
  datatype Context = Context(done: bool, remaining: nat, remainingLater: nat)
  {
    /** Time does not run backwards. */
    predicate Passing() {
      remainingLater <= remaining
    }
  }

  datatype Decision = Decision(repair: bool, reason: string)

  function ShouldRepairJson(c: Context, triage: bool, err: Option<Error>): Decision {
    if err.None? then Decision(false, "")
    else if c.done then Decision(false, "parent_context_done")
    else if err.value.kind.DeadlineExceeded? || err.value.kind.Canceled? then Decision(false, "primary_not_repairable")
    else
      var code := ClassifyInvalidOutput(err.value);
      if code == "provider_unavailable" || code == "auth_failed" || code == "rate_limited" then
        Decision(false, "primary_not_repairable")
      else if triage && c.remaining < RepairThreshold(c.remainingLater) then Decision(false, "insufficient_budget")
      else Decision(true, "")
  }

  /**
   A repair is tried exactly when the call still runs and the error is not about time: the
   threshold never exceeds what remains, so no repair is refused for lack of budget.
   */
  lemma RepairsAreRefusedOnlyForTime(c: Context, triage: bool, err: Error)
    requires c.Passing()
    ensures ShouldRepairJson(c, triage, Some(err)).repair <==>
              !c.done && !err.kind.DeadlineExceeded? && !err.kind.Canceled?
    ensures ShouldRepairJson(c, triage, Some(err)).reason != "insufficient_budget"
    ensures ShouldRepairJson(c, triage, Some(err)).reason == "parent_context_done" <==> c.done
    ensures ShouldRepairJson(c, triage, Some(err)).reason == "primary_not_repairable" <==>
              !c.done && (err.kind.DeadlineExceeded? || err.kind.Canceled?)
  {
    var code := ClassifyInvalidOutput(err);
    assert code[0] in {'d', 'c', 'r', 'i', 'p'};
    assert code[0] == 'r' ==> code[1] == 'o';
    assert code[0] == 'p' ==> code[1] == 'a';
    var a, b := "parent_context_done", "primary_not_repairable";
    assert a[0] == b[0] == 'p';
  }

  // ---- The call ----------------------------------------------------------------------------------

  /** What the model does when asked. */
  datatype Reply = Errs(err: Error) | Silent | Says(content: string)

  /** Everything around a call that it does not decide itself. */
  datatype World<!T> = World(
    encodes: bool,
    reply: nat -> Reply,
    decode: (string, T) -> (T, Option<Error>),
    validate: T -> Option<Error>,
    context: nat -> Context)

  datatype Outcome = Success(retryCount: nat) | Failure(reason: string, retryCount: nat, skipReason: string)

  function Content(r: Reply): string
    requires r.Says?
  {
    A.StripJsonFence(r.content)
  }

  /** The target after the first answer, and after the second one on top of it. */
  function First<T>(w: World<T>, target: T): T {
    if w.encodes && w.reply(0).Says? then w.decode(Content(w.reply(0)), target).0 else target
  }

  function Second<T>(w: World<T>, target: T): T {
    if w.reply(1).Says? then w.decode(Content(w.reply(1)), First(w, target)).0 else First(w, target)
  }

  /** What is wrong with the first answer: it does not decode, or does not validate. */
  function FirstError<T>(w: World<T>, target: T): Option<Error>
    requires w.reply(0).Says?
  {
    var (t, err) := w.decode(Content(w.reply(0)), target);
    if err.Some? then err else w.validate(t)
  }

  predicate Answers<T>(w: World<T>) {
    w.encodes && w.reply(0).Says?
  }

  predicate Repairs<T>(w: World<T>, triage: bool, target: T) {
    Answers(w) && FirstError(w, target).Some? && ShouldRepairJson(w.context(0), triage, FirstError(w, target)).repair
  }

  predicate RepairSays<T>(w: World<T>) {
    w.reply(1).Says? && TrimSpace(w.reply(1).content) != ""
  }

  predicate SecondPasses<T>(w: World<T>, target: T) {
    && RepairSays(w)
    && w.decode(Content(w.reply(1)), First(w, target)).1.None?
    && w.validate(Second(w, target)).None?
  }

  /** The last answer looked at does not decode; if there was no second one, the first is the last. */
  predicate LastDoesNotDecode<T>(w: World<T>, triage: bool, target: T)
    requires Answers(w)
  {
    if Repairs(w, triage, target) && RepairSays(w) then w.decode(Content(w.reply(1)), First(w, target)).1.Some?
    else w.decode(Content(w.reply(0)), target).1.Some?
  }

  class RoleCall<T> {
    /** The value both answers are decoded into. */
    var target: T
    /** How often the model was asked. */
    var generated: nat

    constructor (target: T)
      ensures this.target == target && generated == 0
    {
      this.target := target;
      generated := 0;
    }

    method Generate(w: World<T>) returns (reply: Reply)
      modifies this`generated
      ensures reply == w.reply(old(generated)) && generated == old(generated) + 1
    {
      reply := w.reply(generated);
      generated := generated + 1;
    }

    method ParseRoleJson(w: World<T>, content: string) returns (err: Option<Error>)
      modifies this`target
      ensures (target, err) == w.decode(content, old(target))
    {
      var (decoded, failure) := w.decode(content, target);
      target := decoded;
      err := failure;
    }

    /** The repaired content, unless the model fails or says nothing. */
    method RepairJson(w: World<T>) returns (content: Option<string>)
      modifies this`generated
      ensures generated == old(generated) + 1
      ensures var reply := w.reply(old(generated));
              content == if reply.Says? && TrimSpace(reply.content) != "" then Some(Content(reply)) else None
    {
      var reply := Generate(w);
      if !reply.Says? || TrimSpace(reply.content) == "" {
        return None;
      }
      return Some(Content(reply));
    }

    method CallJson(w: World<T>, triage: bool) returns (r: Outcome)
      requires generated == 0
      modifies this
      ensures generated <= 2 && r.retryCount <= 1
      ensures generated == if w.encodes then 1 + r.retryCount else 0
      ensures r.retryCount == 1 <==> Repairs(w, triage, old(target))
      ensures r.Success? <==>
              Answers(w) && (FirstError(w, old(target)).None? || (Repairs(w, triage, old(target)) && SecondPasses(w, old(target))))
      ensures r.Success? ==> w.validate(target).None?
      ensures r.Failure? ==>
                && (r.reason == "prompt_encode_failed" <==> !w.encodes)
                && (r.reason == "model_call_failed" <==> w.encodes && w.reply(0).Errs?)
                && (r.reason == "empty_model_response" <==> w.encodes && w.reply(0).Silent?)
                && (r.reason == "invalid_json" <==> Answers(w) && LastDoesNotDecode(w, triage, old(target)))
                && (r.reason == "invalid_output" <==> Answers(w) && !LastDoesNotDecode(w, triage, old(target)))
      ensures r.Failure? && Answers(w) && r.retryCount == 0 ==>
                var decodes := w.decode(Content(w.reply(0)), old(target)).1.None?;
                r.skipReason == ShouldRepairJson(w.context(if decodes then 2 else 1), triage, FirstError(w, old(target))).reason
      ensures target == if r.retryCount == 1 && RepairSays(w) then Second(w, old(target)) else First(w, old(target))
    {
      if !w.encodes {
        return Failure("prompt_encode_failed", 0, "");
      }
      var reply := Generate(w);
      if reply.Errs? {
        return Failure("model_call_failed", 0, "");
      }
      if reply.Silent? {
        return Failure("empty_model_response", 0, "");
      }
      var retryCount := 0;
      var parseError := ParseRoleJson(w, Content(reply));
      if parseError.Some? {
        var decision := ShouldRepairJson(w.context(0), triage, parseError);
        if !decision.repair {
          return Failure("invalid_json", 0, ShouldRepairJson(w.context(1), triage, parseError).reason);
        }
        retryCount := 1;
        var repaired := RepairJson(w);
        if repaired.None? {
          return Failure("invalid_json", retryCount, "");
        }
        parseError := ParseRoleJson(w, repaired.value);
        if parseError.Some? {
          return Failure("invalid_json", retryCount, "");
        }
      }
      var invalid := w.validate(target);
      if invalid.Some? {
        var decision := ShouldRepairJson(w.context(if retryCount == 0 then 0 else 1), triage, invalid);
        if retryCount != 0 || !decision.repair {
          return Failure("invalid_output", retryCount, ShouldRepairJson(w.context(2), triage, invalid).reason);
        }
        retryCount := 1;
        var repaired := RepairJson(w);
        if repaired.None? {
          return Failure("invalid_output", retryCount, "");
        }
        parseError := ParseRoleJson(w, repaired.value);
        if parseError.Some? {
          return Failure("invalid_json", retryCount, "");
        }
        invalid := w.validate(target);
        if invalid.Some? {
          return Failure("invalid_output", retryCount, "");
        }
      }
      return Success(retryCount);
    }
  }
}
